/** The journal of a Codex configuration install and its recovery. */
module CodexJournal {
  import opened Results
  import opened FaultyDisk
  import CodexConfig

  /** A surface an install may write: the state file, config.toml, or a managed file named by its
      slash-separated path below the Codex directory. */
  datatype Name = State | Config | Managed(rel: string)

  function RelativePath(n: Name): string {
    match n
    case State => "codex-worker-orchestrator/install-state.json"
    case Config => "config.toml"
    case Managed(rel) => rel
  }

  datatype Path = Surface(name: Name) | JournalFile | TempFile(id: nat)

  /** SHA-256 is taken to be injective on the contents in play, so a digest is the content. */
  type Digest = Content

  datatype Image = Absent | Present(content: Content, mode: nat)

  datatype JournalSurface = JournalSurface(path: Name, pre: Image, post: Image)

  datatype Journal = Journal(surfaces: seq<JournalSurface>)

  datatype Content =
    | Bytes(data: string)
    | StateDoc(files: seq<(Name, Digest)>, config: Option<CodexConfig.Record>)
    | JournalDoc(journal: Journal)

  type Files = map<Path, File<Content>>

  type CodexDisk = Disk<Path, Content>

  // ---------------------------------------------------------------- images

  /** None when the surface is not a regular file. */
  function ImageOf(file: Option<File<Content>>): Option<Image> {
    match file
    case None => Some(Absent)
    case Some(Irregular) => None
    case Some(Regular(content, mode)) => Some(Present(content, mode))
  }

  predicate Matches(f: Files, rel: Name, image: Image) {
    ImageOf(Lookup(f, Surface(rel))) == Some(image)
  }

  predicate IsPre(f: Files, s: JournalSurface) { Matches(f, s.path, s.pre) }

  predicate IsPost(f: Files, s: JournalSurface) { Matches(f, s.path, s.post) }

  predicate AllPre(j: Journal, f: Files) {
    forall i :: 0 <= i < |j.surfaces| ==> IsPre(f, j.surfaces[i])
  }

  predicate AllPost(j: Journal, f: Files) {
    forall i :: 0 <= i < |j.surfaces| ==> IsPost(f, j.surfaces[i])
  }

  // ---------------------------------------------------------------- validation

  /** One component of a slash-separated path, from i up to k. */
  predicate Component(path: string, i: nat, k: nat) {
    && i <= k <= |path| && (i == 0 || path[i - 1] == '/') && (k == |path| || path[k] == '/')
    && forall n :: i <= n < k ==> path[n] != '/'
  }

  /** A relative path in its shortest form that does not lead upwards, except that `..` itself passes. */
  predicate CleanRelative(path: string) {
    && '\\' !in path
    && (path == ".." || forall i: nat, k: nat :: i <= |path| && k <= |path| && Component(path, i, k) ==> path[i..k] !in ["", ".", ".."])
  }

  predicate ValidSurfacePath(path: Name) {
    path.Managed? ==>
      && CleanRelative(path.rel)
      && (path.rel == "rules/glm-worker.rules" || "instructions/" <= path.rel || "glm-worker/prompts/" <= path.rel)
  }

  predicate PathsDiffer(surfaces: seq<JournalSurface>) {
    forall i, k :: 0 <= i < |surfaces| && 0 <= k < |surfaces| && i != k ==> surfaces[i].path != surfaces[k].path
  }

  /** Valid, pairwise different surfaces, exactly one of which is the state file. */
  predicate ValidJournal(j: Journal) {
    && (forall i :: 0 <= i < |j.surfaces| ==> ValidSurfacePath(j.surfaces[i].path))
    && PathsDiffer(j.surfaces)
    && exists i :: 0 <= i < |j.surfaces| && j.surfaces[i].path == State
  }

  /** Some state surface of the journal satisfies its pre- or postimage. */
  ghost predicate StatePre(j: Journal, f: Files) {
    forall i :: 0 <= i < |j.surfaces| && j.surfaces[i].path == State ==> IsPre(f, j.surfaces[i])
  }

  ghost predicate StatePost(j: Journal, f: Files) {
    forall i :: 0 <= i < |j.surfaces| && j.surfaces[i].path == State ==> IsPost(f, j.surfaces[i])
  }

  // ---------------------------------------------------------------- promises of a journal

  /** Every surface is one of its two images. */
  ghost predicate Consistent(j: Journal, f: Files) {
    && ValidJournal(j) && (StatePre(j, f) || StatePost(j, f))
    && forall i :: 0 <= i < |j.surfaces| ==> IsPre(f, j.surfaces[i]) || IsPost(f, j.surfaces[i])
  }

  /** Recovery can decide: the state file is not ahead of the other surfaces. */
  ghost predicate Recoverable(j: Journal, f: Files) {
    Consistent(j, f) && (StatePre(j, f) || AllPost(j, f))
  }

  /** The state was committed, but some surface is not its postimage: recovery refuses for good. */
  ghost predicate Stuck(j: Journal, f: Files) {
    Consistent(j, f) && !StatePre(j, f) && !AllPost(j, f)
  }

  /** Nothing outside the journal's surfaces differs, temporary files aside. */
  ghost predicate Untouched(j: Journal, before: Files, after: Files) {
    forall rel :: (forall i :: 0 <= i < |j.surfaces| ==> rel != j.surfaces[i].path) ==>
      Lookup(after, Surface(rel)) == Lookup(before, Surface(rel))
  }

  ghost predicate SameSurfaces(before: Files, after: Files) {
    forall rel :: Lookup(after, Surface(rel)) == Lookup(before, Surface(rel))
  }

  ghost predicate HasJournal(f: Files, j: Journal) {
    JournalFile in f && f[JournalFile].Regular? && f[JournalFile].content == JournalDoc(j)
  }

  /** Exactly one surface was rewritten, to the given image. */
  ghost predicate Rewritten(before: Files, after: Files, rel: Name, image: Image) {
    && Matches(after, rel, image)
    && Lookup(after, JournalFile) == Lookup(before, JournalFile)
    && forall other :: other != rel ==> Lookup(after, Surface(other)) == Lookup(before, Surface(other))
  }

  // ---------------------------------------------------------------- file operations

  method Capture(disk: CodexDisk, rel: Name) returns (r: Result<Image>)
    modifies disk`faults
    ensures disk.faults >= old(disk.faults)
    ensures r.Ok? ==> Matches(disk.files, rel, r.value) && disk.faults == old(disk.faults)
    ensures r.Fail? ==> disk.faults > old(disk.faults) || ImageOf(Lookup(disk.files, Surface(rel))).None?
  {
    var file := disk.Read(Surface(rel));
    if file.Fail? { return Fail; }
    var image := ImageOf(file.value);
    r := if image.Some? then Ok(image.value) else Fail;
  }

  /** Temporary file, then rename: all or nothing. */
  method WriteAtomic(disk: CodexDisk, p: Path, content: Content, mode: nat) returns (ok: bool)
    requires !p.TempFile?
    modifies disk
    ensures forall q: Path :: !q.TempFile? && q != p ==> Lookup(disk.files, q) == Lookup(old(disk.files), q)
    ensures Lookup(disk.files, p) == if ok then Some(Regular(content, mode)) else Lookup(old(disk.files), p)
    ensures ok ==> disk.faults == old(disk.faults)
    ensures !ok ==> disk.faults > old(disk.faults)
  {
    var id: nat := *;
    ok := disk.WriteTemp(TempFile(id), content, mode);
    if !ok { return; }
    ok := disk.Rename(TempFile(id), p);
    if !ok {
      var _ := disk.RemoveIfExists(TempFile(id));
    }
  }

  method RestoreBackup(disk: CodexDisk, rel: Name, image: Image) returns (ok: bool)
    modifies disk
    ensures ok ==> Rewritten(old(disk.files), disk.files, rel, image) && disk.faults == old(disk.faults)
    ensures !ok ==> SameSurfaces(old(disk.files), disk.files) && disk.faults > old(disk.faults)
    ensures !ok ==> Lookup(disk.files, JournalFile) == Lookup(old(disk.files), JournalFile)
  {
    match image
    case Present(content, mode) => ok := WriteAtomic(disk, Surface(rel), content, mode);
    case Absent => ok := disk.RemoveIfExists(Surface(rel));
  }

  // ---------------------------------------------------------------- recovery

  method LoadJournal(disk: CodexDisk, ghost expected: Journal) returns (r: Result<Option<Journal>>)
    requires JournalFile in disk.files ==> HasJournal(disk.files, expected) && ValidJournal(expected)
    modifies disk`faults
    ensures r.Ok? ==> disk.faults == old(disk.faults)
    ensures r.Ok? ==> r.value == if JournalFile in disk.files then Some(expected) else None
    ensures r.Fail? ==> disk.faults > old(disk.faults)
  {
    var file := disk.Read(JournalFile);
    if file.Fail? { return Fail; }
    if file.value.None? { return Ok(None); }
    if file.value.value.Irregular? || !file.value.value.content.JournalDoc? { return Fail; }
    var j := file.value.value.content.journal;
    if !ValidJournal(j) { return Fail; }
    return Ok(Some(j));
  }

  datatype Inspection = Inspection(current: seq<Image>, stateIndex: nat, allPost: bool)

  /** Fails on a read error, or when some surface is neither of its images. */
  method Inspect(disk: CodexDisk, j: Journal) returns (r: Result<Inspection>)
    requires ValidJournal(j)
    modifies disk`faults
    ensures disk.faults >= old(disk.faults)
    ensures r.Ok? ==>
              && Consistent(j, disk.files) && disk.faults == old(disk.faults)
              && |r.value.current| == |j.surfaces|
              && (forall i :: 0 <= i < |j.surfaces| ==> Matches(disk.files, j.surfaces[i].path, r.value.current[i]))
              && r.value.stateIndex < |j.surfaces| && j.surfaces[r.value.stateIndex].path == State
              && (r.value.allPost <==> AllPost(j, disk.files))
    ensures r.Fail? ==> disk.faults > old(disk.faults) || !Consistent(j, disk.files)
  {
    var current: seq<Image> := [];
    var stateIndex: Option<nat> := None;
    var allPost := true;
    for i := 0 to |j.surfaces|
      invariant |current| == i && disk.faults == old(disk.faults)
      invariant forall k :: 0 <= k < i ==> Matches(disk.files, j.surfaces[k].path, current[k])
      invariant forall k :: 0 <= k < i ==> IsPre(disk.files, j.surfaces[k]) || IsPost(disk.files, j.surfaces[k])
      invariant allPost <==> forall k :: 0 <= k < i ==> IsPost(disk.files, j.surfaces[k])
      invariant stateIndex.Some? ==> stateIndex.value < i && j.surfaces[stateIndex.value].path == State
      invariant stateIndex.None? ==> forall k :: 0 <= k < i ==> j.surfaces[k].path != State
    {
      var s := j.surfaces[i];
      var backup := Capture(disk, s.path);
      if backup.Fail? {
        assert disk.faults == old(disk.faults) ==> !IsPre(disk.files, s) && !IsPost(disk.files, s);
        return Fail;
      }
      current := current + [backup.value];
      if backup.value != s.pre && backup.value != s.post {
        assert !IsPre(disk.files, s) && !IsPost(disk.files, s);
        return Fail;
      }
      if backup.value != s.post { allPost := false; }
      if s.path == State { stateIndex := Some(i); }
    }
    StateIsUnique(j, disk.files, stateIndex.value);
    return Ok(Inspection(current, stateIndex.value, allPost));
  }

  lemma StateIsUnique(j: Journal, f: Files, n: nat)
    requires ValidJournal(j) && n < |j.surfaces| && j.surfaces[n].path == State
    ensures StatePre(j, f) <==> IsPre(f, j.surfaces[n])
    ensures StatePost(j, f) <==> IsPost(f, j.surfaces[n])
  {
    assert forall i :: 0 <= i < |j.surfaces| && j.surfaces[i].path == State ==> i == n;
  }

  lemma RewriteKeeps(j: Journal, before: Files, after: Files, n: nat, image: Image)
    requires Consistent(j, before) && n < |j.surfaces| && Rewritten(before, after, j.surfaces[n].path, image)
    requires image == j.surfaces[n].pre || image == j.surfaces[n].post
    ensures Consistent(j, after) && Untouched(j, before, after)
    ensures forall k :: 0 <= k < |j.surfaces| && k != n ==>
              Lookup(after, Surface(j.surfaces[k].path)) == Lookup(before, Surface(j.surfaces[k].path))
    ensures j.surfaces[n].path != State ==> (StatePre(j, after) <==> StatePre(j, before))
  {
    forall k | 0 <= k < |j.surfaces| && k != n
      ensures Lookup(after, Surface(j.surfaces[k].path)) == Lookup(before, Surface(j.surfaces[k].path))
    {
      assert j.surfaces[k].path != j.surfaces[n].path;
    }
    forall k | 0 <= k < |j.surfaces| ensures IsPre(after, j.surfaces[k]) || IsPost(after, j.surfaces[k]) {
      if k != n { assert IsPre(before, j.surfaces[k]) || IsPost(before, j.surfaces[k]); }
    }
    var s :| 0 <= s < |j.surfaces| && j.surfaces[s].path == State;
    StateIsUnique(j, before, s);
    StateIsUnique(j, after, s);
  }

  /** Puts back, last to first, every surface that is not its preimage. */
  method RestorePreimages(disk: CodexDisk, j: Journal, current: seq<Image>) returns (ok: bool)
    requires Consistent(j, disk.files) && StatePre(j, disk.files) && |current| == |j.surfaces|
    requires forall i :: 0 <= i < |j.surfaces| ==> Matches(disk.files, j.surfaces[i].path, current[i])
    modifies disk
    ensures Consistent(j, disk.files) && StatePre(j, disk.files) && Untouched(j, old(disk.files), disk.files)
    ensures Lookup(disk.files, JournalFile) == Lookup(old(disk.files), JournalFile)
    ensures !AllPost(j, old(disk.files)) ==> !AllPost(j, disk.files)
    ensures ok ==> AllPre(j, disk.files) && disk.faults == old(disk.faults)
    ensures !ok ==> disk.faults > old(disk.faults)
  {
    var i := |j.surfaces|;
    while i > 0
      invariant 0 <= i <= |j.surfaces| && disk.faults == old(disk.faults)
      invariant Consistent(j, disk.files) && StatePre(j, disk.files) && Untouched(j, old(disk.files), disk.files)
      invariant Lookup(disk.files, JournalFile) == Lookup(old(disk.files), JournalFile)
      invariant !AllPost(j, old(disk.files)) ==> !AllPost(j, disk.files)
      invariant forall k :: i <= k < |j.surfaces| ==> IsPre(disk.files, j.surfaces[k])
      invariant forall k :: 0 <= k < i ==> Matches(disk.files, j.surfaces[k].path, current[k])
    {
      i := i - 1;
      var s := j.surfaces[i];
      assert Matches(disk.files, s.path, current[i]);
      assert IsPre(disk.files, s) || IsPost(disk.files, s);
      if current[i] == s.pre { continue; }
      if current[i] != s.post { return false; }
      ghost var before := disk.files;
      ok := RestoreBackup(disk, s.path, s.pre);
      if !ok {
        SameSurfacesKeep(j, before, disk.files);
        return;
      }
      RewriteKeeps(j, before, disk.files, i, s.pre);
      assert !IsPost(disk.files, s);
      assert s.path == State ==> IsPre(before, s);
    }
    return true;
  }

  lemma SameSurfacesKeep(j: Journal, before: Files, after: Files)
    requires SameSurfaces(before, after)
    ensures Consistent(j, before) <==> Consistent(j, after)
    ensures StatePre(j, before) <==> StatePre(j, after)
    ensures StatePost(j, before) <==> StatePost(j, after)
    ensures AllPre(j, before) <==> AllPre(j, after)
    ensures AllPost(j, before) <==> AllPost(j, after)
    ensures Untouched(j, before, after)
  {
    assert forall i :: 0 <= i < |j.surfaces| ==>
        Lookup(after, Surface(j.surfaces[i].path)) == Lookup(before, Surface(j.surfaces[i].path));
  }

  /** What a recovery leaves, however often its calls fail: nothing outside the surfaces changes;
      the journal disappears only once the surfaces are uniformly post, if they were at the start,
      or uniformly pre; until then a recovery can be repeated and decides the same. */
  ghost predicate Recovered(j: Journal, before: Files, after: Files) {
    && Untouched(j, before, after)
    && (JournalFile in after ==>
          && HasJournal(after, j) && Recoverable(j, after) && (AllPost(j, after) <==> AllPost(j, before)))
    && (JournalFile !in after ==> if AllPost(j, before) then AllPost(j, after) else AllPre(j, after))
  }

  /** Recovery finalises a committed install, undoes an uncommitted one, and refuses, changing
      nothing, exactly when some surface is neither of its images or the state is ahead of them. */
  method Recover(disk: CodexDisk, ghost j: Journal) returns (ok: bool)
    requires JournalFile in disk.files ==> HasJournal(disk.files, j) && ValidJournal(j)
    modifies disk
    ensures JournalFile !in old(disk.files) ==> disk.files == old(disk.files)
    ensures JournalFile in old(disk.files) && !Recoverable(j, old(disk.files)) ==> !ok && disk.files == old(disk.files)
    ensures JournalFile in old(disk.files) && Recoverable(j, old(disk.files)) ==> Recovered(j, old(disk.files), disk.files)
    ensures ok ==> JournalFile !in disk.files
    ensures !ok ==> disk.faults > old(disk.faults) || !Recoverable(j, old(disk.files))
  {
    var loaded := LoadJournal(disk, j);
    if loaded.Fail? { return false; }
    if loaded.value.None? { return true; }
    var journal := loaded.value.value;
    var inspection := Inspect(disk, journal);
    if inspection.Fail? { return false; }
    var current := inspection.value.current;
    if inspection.value.allPost {
      ok := disk.RemoveIfExists(JournalFile);
      SameSurfacesKeep(j, old(disk.files), disk.files);
      return;
    }
    var state := journal.surfaces[inspection.value.stateIndex];
    StateIsUnique(journal, disk.files, inspection.value.stateIndex);
    assert Matches(disk.files, state.path, current[inspection.value.stateIndex]);
    if current[inspection.value.stateIndex] != state.pre { return false; }
    ok := RestorePreimages(disk, journal, current);
    if !ok { return; }
    ghost var restored := disk.files;
    ok := disk.RemoveIfExists(JournalFile);
    SameSurfacesKeep(j, restored, disk.files);
  }
}
