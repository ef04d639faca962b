/** The file system as the installers see it: a map from paths to files, changed only by atomic
    calls.  Any call may fail without effect, and nothing limits how often that happens, so a
    crash is the pattern in which every call from some point on fails.  `faults` counts the
    failures that no state of the disk explains; a run in which it does not grow is fault-free. */
module FaultyDisk {
  import opened Results

  datatype File<C> = Regular(content: C, mode: nat) | Irregular

  function Lookup<P(==), C>(files: map<P, File<C>>, p: P): Option<File<C>> {
    if p in files then Some(files[p]) else None
  }

  class Disk<P(==,!new), C(==,!new)> {
    var files: map<P, File<C>>
    ghost var faults: nat

    method Read(p: P) returns (r: Result<Option<File<C>>>)
      modifies this`faults
      ensures r.Ok? ==> r.value == Lookup(files, p) && faults == old(faults)
      ensures r.Fail? ==> faults > old(faults)
    {
      var works: bool := *;
      if works {
        r := Ok(Lookup(files, p));
      } else {
        faults := faults + 1;
        r := Fail;
      }
    }

    method Rename(from: P, to: P) returns (ok: bool)
      requires from != to
      modifies this
      ensures ok ==> from in old(files) && files == old(files)[to := old(files)[from]] - {from}
      ensures ok ==> faults == old(faults)
      ensures !ok ==> files == old(files)
      ensures !ok ==> faults > old(faults) || from !in old(files)
      ensures faults >= old(faults)
    {
      var works: bool := *;
      if from !in files { return false; }
      if !works {
        faults := faults + 1;
        return false;
      }
      files := files[to := files[from]] - {from};
      return true;
    }

    /** Removing an absent file succeeds. */
    method RemoveIfExists(p: P) returns (ok: bool)
      modifies this
      ensures ok ==> files == old(files) - {p} && faults == old(faults)
      ensures !ok ==> files == old(files) && faults > old(faults)
    {
      var works: bool := *;
      if works {
        files := files - {p};
        ok := true;
      } else {
        faults := faults + 1;
        ok := false;
      }
    }

    /** Writes a new file; the name was drawn at random and must be unused.  A failed or
        interrupted write may leave a partial file under that name and touches nothing else. */
    method WriteTemp(p: P, content: C, mode: nat) returns (ok: bool)
      modifies this
      ensures ok ==> p !in old(files) && files == old(files)[p := Regular(content, mode)] && faults == old(faults)
      ensures !ok ==> faults > old(faults)
      ensures !ok ==> files == old(files) || (p !in old(files) && files - {p} == old(files))
    {
      var works: bool := *;
      var partial: bool := *;
      if p in files || (!works && !partial) {
        faults := faults + 1;
        return false;
      }
      if works {
        files := files[p := Regular(content, mode)];
        return true;
      }
      faults := faults + 1;
      files := files[p := Irregular];
      assert files - {p} == old(files);
      return false;
    }
  }
}
