/** Values that may be missing and calls that may fail, shared by every component. */
module Results {

  datatype Option<T> = None | Some(value: T)

  datatype Result<T> = Ok(value: T) | Fail
}
