/** Applying a prepared Codex configuration install: journal, tracked mutations, in-process
    rollback and state commit. */
module CodexInstall {
  import opened Results
  import opened FaultyDisk
  import opened TextOrder
  import opened CodexJournal
  import CodexConfig

  const STATE_MODE: nat := 0x1A4   // octal 644
  const JOURNAL_MODE: nat := 0x180 // octal 600

  datatype DesiredFile = DesiredFile(path: Name, content: Content, mode: nat)

  /** The planned change of config.toml; `mode` is the mode it is written with. */
  datatype ConfigPlan = ConfigPlan(changed: bool, before: Image, next: string, mode: nat, record: Option<CodexConfig.Record>)

  /** `state` are the file records of the ownership state, if there is one. */
  datatype Preparation = Preparation(
    desired: seq<DesiredFile>, remove: seq<Name>, config: ConfigPlan, state: Option<map<Name, Digest>>, stateBackup: Image)

  function Owned(p: Preparation): map<Name, Digest> {
    if p.state.Some? then p.state.value else map[]
  }

  /** Desired, removed, state and config surfaces are different files; a desired one may be named twice. */
  ghost predicate SeparateTargets(p: Preparation) {
    && (forall i :: 0 <= i < |p.desired| ==> p.desired[i].path != State && p.desired[i].path !in p.remove)
    && State !in p.remove
    && (p.config.changed ==> ConfigApart(p))
  }

  ghost predicate ConfigApart(p: Preparation) {
    Config !in p.remove && forall i :: 0 <= i < |p.desired| ==> p.desired[i].path != Config
  }

  function DesiredRecords(desired: seq<DesiredFile>): seq<(Name, Digest)> {
    seq(|desired|, i requires 0 <= i < |desired| => (desired[i].path, desired[i].content))
  }

  function PlannedState(p: Preparation): Content {
    StateDoc(DesiredRecords(p.desired), p.config.record)
  }

  function ImageFor(d: DesiredFile): Image {
    Present(d.content, d.mode)
  }

  // ---------------------------------------------------------------- what a run writes

  /** The file is already installed with this content, so the entry writes nothing. */
  predicate Installed(base: Files, d: DesiredFile) {
    match Lookup(base, Surface(d.path))
    case Some(Regular(content, _)) => content == d.content
    case _ => false
  }

  /** The image of the first entry for a name whose content is not the installed one. */
  function FirstWrite(base: Files, desired: seq<DesiredFile>, rel: Name): Option<Image> {
    if desired == [] then None
    else
      var n := |desired| - 1;
      var earlier := FirstWrite(base, desired[..n], rel);
      if earlier.Some? then earlier
      else if desired[n].path == rel && !Installed(base, desired[n]) then Some(ImageFor(desired[n]))
      else None
  }

  /** The ownership rule for a desired path: owned and unmodified, or new. */
  predicate OwnershipHolds(file: Option<File<Content>>, rel: Name, state: Option<map<Name, Digest>>) {
    match file
    case None => state.None? || rel !in state.value
    case Some(Irregular) => false
    case Some(Regular(content, _)) => state.Some? && rel in state.value && content == state.value[rel]
  }

  /** An obsolete file is recorded, and gone or still the recorded one. */
  predicate Removable(f: Files, p: Preparation, rel: Name) {
    && rel in Owned(p)
    && match Lookup(f, Surface(rel))
       case None => true
       case Some(Irregular) => false
       case Some(Regular(content, _)) => content == Owned(p)[rel]
  }

  /** Nothing was written to the path before, and the installed file is the installer's. */
  predicate ProceedsAt(base: Files, p: Preparation, i: nat)
    requires i < |p.desired|
  {
    FirstWrite(base, p.desired[..i], p.desired[i].path).None? && OwnershipHolds(Lookup(base, Surface(p.desired[i].path)), p.desired[i].path, p.state)
  }

  /** The removals and the first n desired files are not refused. */
  ghost predicate ProceedsTo(base: Files, p: Preparation, n: nat) {
    && n <= |p.desired|
    && (forall rel :: rel in p.remove ==> Removable(base, p, rel))
    && forall i :: 0 <= i < n ==> ProceedsAt(base, p, i)
  }

  /** A run gets as far as writing entry n. */
  ghost predicate Reached(base: Files, p: Preparation, n: nat) {
    n < |p.desired| && ProceedsTo(base, p, n + 1) && !Installed(base, p.desired[n])
  }

  ghost predicate MayWrite(base: Files, p: Preparation, rel: Name, image: Image) {
    exists n: nat :: Reached(base, p, n) && p.desired[n].path == rel && ImageFor(p.desired[n]) == image
  }

  /** Whatever a run writes is the journalled postimage. */
  ghost predicate WritesJournalled(base: Files, p: Preparation) {
    forall n: nat :: Reached(base, p, n) ==> DesiredPost(p.desired, p.desired[n].path) == Some(ImageFor(p.desired[n]))
  }

  lemma FirstWriteStep(base: Files, desired: seq<DesiredFile>, n: nat, rel: Name)
    requires n < |desired|
    ensures FirstWrite(base, desired[..n + 1], rel) ==
            if FirstWrite(base, desired[..n], rel).Some? then FirstWrite(base, desired[..n], rel)
            else if desired[n].path == rel && !Installed(base, desired[n]) then Some(ImageFor(desired[n]))
            else None
  {
    assert desired[..n + 1][..n] == desired[..n];
  }

  lemma {:induction false} FirstWriteStays(base: Files, desired: seq<DesiredFile>, n: nat, k: nat, rel: Name)
    requires n <= k <= |desired| && FirstWrite(base, desired[..n], rel).Some?
    ensures FirstWrite(base, desired[..k], rel) == FirstWrite(base, desired[..n], rel)
    decreases k
  {
    if n < k {
      FirstWriteStays(base, desired, n, k - 1, rel);
      FirstWriteStep(base, desired, k - 1, rel);
    }
  }

  /** A run that is refused nowhere writes each path at most once, by its last entry. */
  lemma ProceedingIsJournalled(base: Files, p: Preparation)
    requires ProceedsTo(base, p, |p.desired|)
    ensures WritesJournalled(base, p)
  {
    forall n: nat | Reached(base, p, n) ensures DesiredPost(p.desired, p.desired[n].path) == Some(ImageFor(p.desired[n])) {
      var rel := p.desired[n].path;
      var k := LastDesired(p.desired, rel);
      if n < k { LaterIsRefused(base, p, n, k); }
    }
  }

  /** Once an entry was written, every later one for its path is refused. */
  lemma LaterIsRefused(base: Files, p: Preparation, n: nat, k: nat)
    requires Reached(base, p, n) && n < k < |p.desired| && p.desired[k].path == p.desired[n].path
    ensures !ProceedsAt(base, p, k)
  {
    assert ProceedsAt(base, p, n);
    FirstWriteStep(base, p.desired, n, p.desired[n].path);
    FirstWriteStays(base, p.desired, n + 1, k, p.desired[n].path);
  }

  // ---------------------------------------------------------------- postimages and journal

  /** The image a desired file is to have; the last entry for a name decides. */
  function DesiredPost(desired: seq<DesiredFile>, rel: Name): (image: Option<Image>)
    ensures image.Some? <==> exists i :: 0 <= i < |desired| && desired[i].path == rel
  {
    if desired == [] then None
    else
      var n := |desired| - 1;
      assert desired == desired[..n] + [desired[n]];
      if desired[n].path == rel then Some(ImageFor(desired[n])) else DesiredPost(desired[..n], rel)
  }

  /** The image a surface is to end with; None when the install does not write it. */
  function Postimage(p: Preparation, rel: Name): Option<Image> {
    if rel == Config && p.config.changed then Some(Present(Bytes(p.config.next), p.config.mode))
    else if rel in p.remove then Some(Absent)
    else if DesiredPost(p.desired, rel).Some? then DesiredPost(p.desired, rel)
    else if rel == State then Some(Present(PlannedState(p), STATE_MODE))
    else None
  }

  lemma {:induction false} LastDesired(desired: seq<DesiredFile>, rel: Name) returns (k: nat)
    requires DesiredPost(desired, rel).Some?
    ensures k < |desired| && desired[k].path == rel && forall i :: k < i < |desired| ==> desired[i].path != rel
    ensures DesiredPost(desired, rel) == Some(ImageFor(desired[k]))
  {
    k := |desired| - 1;
    if desired[k].path != rel { k := LastDesired(desired[..k], rel); }
  }

  ghost predicate MutableSurface(j: Journal, rel: Name) {
    rel != State && exists i :: 0 <= i < |j.surfaces| && j.surfaces[i].path == rel
  }

  /** The journal takes every surface of this name to this image. */
  ghost predicate Post(j: Journal, rel: Name, image: Image) {
    forall i :: 0 <= i < |j.surfaces| && j.surfaces[i].path == rel ==> j.surfaces[i].post == image
  }

  ghost predicate Targeted(j: Journal, rel: Name, image: Image) {
    MutableSurface(j, rel) && Post(j, rel, image)
  }

  /** Everything the plans change is journalled with the image they produce. */
  ghost predicate PlanTargeted(p: Preparation, j: Journal) {
    && (forall rel :: rel in p.remove ==> Targeted(j, rel, Absent))
    && (forall i :: 0 <= i < |p.desired| ==> Targeted(j, p.desired[i].path, DesiredPost(p.desired, p.desired[i].path).value))
    && (p.config.changed ==> Targeted(j, Config, Present(Bytes(p.config.next), p.config.mode)))
  }

  /** A surface the plans or the state commit write. */
  ghost predicate PlannedSurface(p: Preparation, rel: Name) {
    || rel == State || rel in p.remove || (p.config.changed && rel == Config)
    || exists i :: 0 <= i < |p.desired| && p.desired[i].path == rel
  }

  /** The journal lists exactly the surfaces of the plan, with their images before and after. */
  ghost predicate JournalFor(base: Files, p: Preparation, j: Journal) {
    && ValidJournal(j) && AllPre(j, base) && PlanTargeted(p, j)
    && Post(j, State, Present(PlannedState(p), STATE_MODE))
    && forall i :: 0 <= i < |j.surfaces| ==> PlannedSurface(p, j.surfaces[i].path)
  }

  lemma PostimageFits(p: Preparation, rel: Name)
    requires SeparateTargets(p)
    ensures Postimage(p, rel).Some? <==> PlannedSurface(p, rel)
    ensures rel in p.remove ==> Postimage(p, rel) == Some(Absent)
    ensures rel == State ==> Postimage(p, rel) == Some(Present(PlannedState(p), STATE_MODE))
    ensures rel == Config && p.config.changed ==> Postimage(p, rel) == Some(Present(Bytes(p.config.next), p.config.mode))
    ensures forall i :: 0 <= i < |p.desired| && p.desired[i].path == rel ==> Postimage(p, rel) == DesiredPost(p.desired, rel)
  {
  }

  /** Every surface the install writes, once. */
  method MutationPaths(p: Preparation) returns (paths: seq<Name>)
    ensures forall rel :: rel in paths <==> PlannedSurface(p, rel)
    ensures forall i, k :: 0 <= i < |paths| && 0 <= k < |paths| && i != k ==> paths[i] != paths[k]
    ensures SortedBy(paths, RelativePath)
  {
    var unique: set<Name> := {State};
    for i := 0 to |p.desired|
      invariant forall rel :: rel in unique <==> rel == State || exists k :: 0 <= k < i && p.desired[k].path == rel
    {
      unique := unique + {p.desired[i].path};
    }
    for i := 0 to |p.remove|
      invariant forall rel :: rel in unique <==>
                  || rel == State || rel in p.remove[..i]
                  || exists k :: 0 <= k < |p.desired| && p.desired[k].path == rel
    {
      assert p.remove[..i + 1] == p.remove[..i] + [p.remove[i]];
      unique := unique + {p.remove[i]};
    }
    assert p.remove[..|p.remove|] == p.remove;
    if p.config.changed { unique := unique + {Config}; }
    assert forall rel :: rel in unique <==> PlannedSurface(p, rel);
    paths := SortedPaths(unique);
  }

  method SortedPaths(paths: set<Name>) returns (sorted: seq<Name>)
    ensures forall rel :: rel in sorted <==> rel in paths
    ensures forall i, k :: 0 <= i < |sorted| && 0 <= k < |sorted| && i != k ==> sorted[i] != sorted[k]
    ensures SortedBy(sorted, RelativePath)
  {
    var unsorted: seq<Name> := [];
    var todo := paths;
    while todo != {}
      invariant todo <= paths && forall rel :: rel in unsorted <==> rel in paths - todo
      invariant forall rel :: multiset(unsorted)[rel] <= 1
      decreases todo
    {
      var rel :| rel in todo;
      assert rel !in unsorted;
      unsorted := unsorted + [rel];
      todo := todo - {rel};
    }
    sorted := Sort(unsorted, RelativePath);
    forall rel ensures rel in sorted <==> rel in paths {
      assert rel in sorted <==> rel in multiset(sorted);
      assert rel in unsorted <==> rel in multiset(unsorted);
    }
    forall i, k | 0 <= i < |sorted| && 0 <= k < |sorted| && i < k ensures sorted[i] != sorted[k] {
      TwiceCounted(sorted, i, k);
    }
  }

  lemma TwiceCounted<T>(s: seq<T>, i: nat, k: nat)
    requires i < k < |s|
    ensures s[i] == s[k] ==> multiset(s)[s[i]] >= 2
  {
    assert s == s[..k] + s[k..];
    assert multiset(s) == multiset(s[..k]) + multiset(s[k..]);
    assert s[i] in s[..k] && s[k..][0] == s[k];
  }

  /** A surface of the plan outside the managed roots, or one that is not a regular file. */
  ghost predicate Unjournallable(f: Files, p: Preparation, rel: Name) {
    PlannedSurface(p, rel) && (!ValidSurfacePath(rel) || ImageOf(Lookup(f, Surface(rel))).None?)
  }

  /** Captures every surface to be mutated and pairs it with its postimage. */
  method NewJournal(disk: CodexDisk, p: Preparation) returns (r: Result<Journal>)
    requires SeparateTargets(p)
    modifies disk`faults
    ensures disk.faults >= old(disk.faults)
    ensures r.Ok? ==> JournalFor(disk.files, p, r.value) && disk.faults == old(disk.faults)
    ensures r.Fail? ==> disk.faults > old(disk.faults) || exists rel :: Unjournallable(disk.files, p, rel)
  {
    var paths := MutationPaths(p);
    var surfaces: seq<JournalSurface> := [];
    for i := 0 to |paths|
      invariant |surfaces| == i && disk.faults == old(disk.faults)
      invariant forall k :: 0 <= k < i ==> Journalled(disk.files, p, surfaces[k], paths[k])
    {
      PostimageFits(p, paths[i]);
      assert paths[i] in paths && !ValidSurfacePath(paths[i]) ==> Unjournallable(disk.files, p, paths[i]);
      if !ValidSurfacePath(paths[i]) { return Fail; }
      var backup := Capture(disk, paths[i]);
      if backup.Fail? {
        assert disk.faults == old(disk.faults) ==> Unjournallable(disk.files, p, paths[i]);
        return Fail;
      }
      surfaces := surfaces + [JournalSurface(paths[i], backup.value, Postimage(p, paths[i]).value)];
    }
    JournalFits(disk.files, p, paths, surfaces);
    return Ok(Journal(surfaces));
  }

  ghost predicate Journalled(f: Files, p: Preparation, s: JournalSurface, rel: Name) {
    ValidSurfacePath(rel) && s.path == rel && Some(s.post) == Postimage(p, rel) && IsPre(f, s)
  }

  lemma JournalFits(f: Files, p: Preparation, paths: seq<Name>, surfaces: seq<JournalSurface>)
    requires SeparateTargets(p)
    requires forall rel :: rel in paths <==> PlannedSurface(p, rel)
    requires forall i, k :: 0 <= i < |paths| && 0 <= k < |paths| && i != k ==> paths[i] != paths[k]
    requires |surfaces| == |paths| && forall k :: 0 <= k < |paths| ==> Journalled(f, p, surfaces[k], paths[k])
    ensures JournalFor(f, p, Journal(surfaces))
  {
    var j := Journal(surfaces);
    forall i | 0 <= i < |surfaces| ensures surfaces[i].path == paths[i] && IsPre(f, surfaces[i]) && ValidSurfacePath(paths[i]) {
      assert Journalled(f, p, surfaces[i], paths[i]);
    }
    assert PathsDiffer(surfaces);
    forall rel | PlannedSurface(p, rel)
      ensures Postimage(p, rel).Some? && Post(j, rel, Postimage(p, rel).value)
      ensures exists i :: 0 <= i < |surfaces| && surfaces[i].path == rel
    {
      PostimageFits(p, rel);
      forall i | 0 <= i < |surfaces| && surfaces[i].path == rel ensures Some(surfaces[i].post) == Postimage(p, rel) {
        assert Journalled(f, p, surfaces[i], paths[i]);
      }
      var i :| 0 <= i < |paths| && paths[i] == rel;
      assert surfaces[i].path == rel;
    }
    assert PlannedSurface(p, State);
    forall i | 0 <= i < |surfaces| ensures PlannedSurface(p, surfaces[i].path) { assert paths[i] in paths; }
    PostimageFits(p, State);
    PlanIsTargeted(p, j);
  }

  lemma PlanIsTargeted(p: Preparation, j: Journal)
    requires SeparateTargets(p)
    requires forall rel :: PlannedSurface(p, rel) ==> Postimage(p, rel).Some? && Post(j, rel, Postimage(p, rel).value)
    requires forall rel :: PlannedSurface(p, rel) ==> exists i :: 0 <= i < |j.surfaces| && j.surfaces[i].path == rel
    ensures PlanTargeted(p, j)
  {
    forall rel | rel in p.remove ensures Targeted(j, rel, Absent) {
      PostimageFits(p, rel);
      assert PlannedSurface(p, rel);
    }
    forall i | 0 <= i < |p.desired| ensures Targeted(j, p.desired[i].path, DesiredPost(p.desired, p.desired[i].path).value) {
      PostimageFits(p, p.desired[i].path);
      assert PlannedSurface(p, p.desired[i].path);
    }
    if p.config.changed {
      PostimageFits(p, Config);
      assert PlannedSurface(p, Config);
    }
  }

  // ---------------------------------------------------------------- mutation tracker

  ghost predicate BackedUp(j: Journal, backups: map<Name, Image>) {
    forall i :: 0 <= i < |j.surfaces| ==> j.surfaces[i].path in backups && backups[j.surfaces[i].path] == j.surfaces[i].pre
  }

  /** The surface is one of its images, or what a run may have written to it. */
  ghost predicate Known(base: Files, p: Preparation, f: Files, s: JournalSurface) {
    IsPre(f, s) || IsPost(f, s) || (exists image :: MayWrite(base, p, s.path, image) && Matches(f, s.path, image))
  }

  ghost predicate InTransit(base: Files, p: Preparation, j: Journal, f: Files) {
    && ValidJournal(j) && (StatePre(j, f) || StatePost(j, f))
    && forall i :: 0 <= i < |j.surfaces| ==> Known(base, p, f, j.surfaces[i])
  }

  /** A transaction in flight: durable journal, state not yet written, nothing else touched. */
  ghost predicate InFlight(base: Files, p: Preparation, j: Journal, f: Files) {
    HasJournal(f, j) && InTransit(base, p, j, f) && StatePre(j, f) && Untouched(j, base, f)
  }

  /** The disk holds what a run wrote for entry n, and that is not the image the journal takes the path to. */
  ghost predicate ForeignWrite(base: Files, p: Preparation, f: Files, n: nat) {
    Reached(base, p, n) && Matches(f, p.desired[n].path, ImageFor(p.desired[n]))
    && DesiredPost(p.desired, p.desired[n].path) != Some(ImageFor(p.desired[n]))
  }

  /** What is in transit is consistent with the journal exactly when it holds no foreign write. */
  lemma ConsistentIff(base: Files, p: Preparation, j: Journal, f: Files)
    requires JournalFor(base, p, j) && InTransit(base, p, j, f)
    ensures Consistent(j, f) <==> !exists n: nat :: ForeignWrite(base, p, f, n)
  {
    if n: nat :| ForeignWrite(base, p, f, n) {
      var rel := p.desired[n].path;
      assert Targeted(j, rel, DesiredPost(p.desired, rel).value);
      var i :| 0 <= i < |j.surfaces| && j.surfaces[i].path == rel;
      assert IsPre(base, j.surfaces[i]);
      assert !IsPre(f, j.surfaces[i]) && !IsPost(f, j.surfaces[i]);
    } else {
      forall i | 0 <= i < |j.surfaces| ensures IsPre(f, j.surfaces[i]) || IsPost(f, j.surfaces[i]) {
        if !IsPre(f, j.surfaces[i]) && !IsPost(f, j.surfaces[i]) { KnownIsForeign(base, p, j, f, i); }
      }
    }
  }

  lemma KnownIsForeign(base: Files, p: Preparation, j: Journal, f: Files, i: nat)
    requires JournalFor(base, p, j) && i < |j.surfaces| && Known(base, p, f, j.surfaces[i])
    requires !IsPre(f, j.surfaces[i]) && !IsPost(f, j.surfaces[i])
    ensures exists n: nat :: ForeignWrite(base, p, f, n)
  {
    var image :| MayWrite(base, p, j.surfaces[i].path, image) && Matches(f, j.surfaces[i].path, image);
    var n: nat :| Reached(base, p, n) && p.desired[n].path == j.surfaces[i].path && ImageFor(p.desired[n]) == image;
    assert Targeted(j, p.desired[n].path, DesiredPost(p.desired, p.desired[n].path).value);
    assert ForeignWrite(base, p, f, n);
  }

  lemma RewriteInFlight(base: Files, p: Preparation, j: Journal, before: Files, after: Files, rel: Name, image: Image)
    requires InFlight(base, p, j, before) && Rewritten(before, after, rel, image) && MutableSurface(j, rel)
    requires MayWrite(base, p, rel, image)
             || forall i :: 0 <= i < |j.surfaces| && j.surfaces[i].path == rel ==> image == j.surfaces[i].pre || image == j.surfaces[i].post
    ensures InFlight(base, p, j, after)
  {
    forall i | 0 <= i < |j.surfaces| ensures Known(base, p, after, j.surfaces[i]) {
      if j.surfaces[i].path != rel {
        assert Known(base, p, before, j.surfaces[i]);
        assert Lookup(after, Surface(j.surfaces[i].path)) == Lookup(before, Surface(j.surfaces[i].path));
      }
    }
    forall other | forall i :: 0 <= i < |j.surfaces| ==> other != j.surfaces[i].path
      ensures Lookup(after, Surface(other)) == Lookup(base, Surface(other))
    {
      assert Lookup(before, Surface(other)) == Lookup(base, Surface(other));
    }
  }

  lemma SameInFlight(base: Files, p: Preparation, j: Journal, before: Files, after: Files)
    requires InFlight(base, p, j, before) && SameSurfaces(before, after)
    requires Lookup(after, JournalFile) == Lookup(before, JournalFile)
    ensures InFlight(base, p, j, after)
  {
    SameSurfacesKeep(j, before, after);
    forall i | 0 <= i < |j.surfaces| ensures Known(base, p, after, j.surfaces[i]) {
      assert Known(base, p, before, j.surfaces[i]);
      assert Lookup(after, Surface(j.surfaces[i].path)) == Lookup(before, Surface(j.surfaces[i].path));
    }
    forall other | forall i :: 0 <= i < |j.surfaces| ==> other != j.surfaces[i].path
      ensures Lookup(after, Surface(other)) == Lookup(base, Surface(other))
    {
      assert Lookup(before, Surface(other)) == Lookup(base, Surface(other));
    }
  }

  class MutationTracker {
    const backups: map<Name, Image>
    var written: map<Name, Image>
    var order: seq<Name>

    constructor (backups: map<Name, Image>)
      ensures this.backups == backups && written == map[] && order == []
    {
      this.backups := backups;
      written, order := map[], [];
    }

    ghost predicate Tracks(j: Journal)
      reads this
    {
      && BackedUp(j, backups)
      && (forall rel :: rel in order <==> rel in written)
      && (forall rel :: rel in order ==> MutableSurface(j, rel))
      && forall i, k :: 0 <= i < k < |order| ==> order[i] != order[k]
    }

    /** Every surface this process changed is recorded, and still is what this process wrote. */
    ghost predicate Accounts(j: Journal, f: Files)
      reads this
    {
      && (forall rel :: rel in order && rel in written ==> Matches(f, rel, written[rel]))
      && forall i :: 0 <= i < |j.surfaces| && j.surfaces[i].path !in order ==> IsPre(f, j.surfaces[i])
    }

    /** Remembers what the surface looks like right after this process changed it. */
    method Record(disk: CodexDisk, ghost j: Journal, rel: Name) returns (ok: bool)
      requires Tracks(j) && MutableSurface(j, rel)
      modifies this, disk`faults
      ensures Tracks(j) && disk.faults >= old(disk.faults)
      ensures ok ==> rel in written && Matches(disk.files, rel, written[rel]) && disk.faults == old(disk.faults)
      ensures ok ==> order == if rel in old(written) then old(order) else old(order) + [rel]
      ensures ok ==> forall other :: other in old(written) && other != rel ==> written[other] == old(written)[other]
      ensures !ok ==> written == old(written) && order == old(order)
      ensures !ok ==> disk.faults > old(disk.faults) || ImageOf(Lookup(disk.files, Surface(rel))).None?
    {
      var snapshot := Capture(disk, rel);
      if snapshot.Fail? { return false; }
      if rel !in written { order := order + [rel]; }
      written := written[rel := snapshot.value];
      return true;
    }

    /** Restores one recorded surface, unless it no longer is what this process wrote. */
    method RollbackMutation(disk: CodexDisk, ghost base: Files, ghost p: Preparation, ghost j: Journal, rel: Name) returns (ok: bool)
      requires Tracks(j) && rel in order && InFlight(base, p, j, disk.files)
      modifies disk
      ensures InFlight(base, p, j, disk.files) && disk.faults >= old(disk.faults)
      ensures ok ==> rel in backups && Matches(disk.files, rel, backups[rel])
      ensures forall other :: other != rel || !Matches(old(disk.files), rel, written[rel]) ==>
                Lookup(disk.files, Surface(other)) == Lookup(old(disk.files), Surface(other))
      ensures Matches(old(disk.files), rel, written[rel]) && disk.faults == old(disk.faults) ==> ok
    {
      assert rel in backups;
      var current := Capture(disk, rel);
      if current.Fail? || current.value != written[rel] || rel !in backups { return false; }
      ghost var before := disk.files;
      ok := RestoreBackup(disk, rel, backups[rel]);
      if ok {
        RewriteInFlight(base, p, j, before, disk.files, rel, backups[rel]);
      } else {
        SameInFlight(base, p, j, before, disk.files);
      }
    }

    /** Restores, last to first, every recorded surface that still is what this process wrote,
        leaves one that is not as it is, and goes on after a failure. */
    method RollbackMutations(disk: CodexDisk, ghost base: Files, ghost p: Preparation, ghost j: Journal) returns (ok: bool)
      requires Tracks(j) && InFlight(base, p, j, disk.files)
      modifies disk
      ensures InFlight(base, p, j, disk.files) && disk.faults >= old(disk.faults)
      ensures ok ==> forall rel :: rel in order ==> rel in backups && Matches(disk.files, rel, backups[rel])
      ensures forall rel :: rel !in order || !Matches(old(disk.files), rel, written[rel]) ==>
                Lookup(disk.files, Surface(rel)) == Lookup(old(disk.files), Surface(rel))
      ensures Accounts(j, old(disk.files)) && disk.faults == old(disk.faults) ==> ok
    {
      ok := true;
      var i := |order|;
      ghost var start := disk.files;
      while i > 0
        invariant 0 <= i <= |order| && InFlight(base, p, j, disk.files) && disk.faults >= old(disk.faults)
        invariant RolledTo(i, start, disk.files, ok)
        invariant Accounts(j, start) && disk.faults == old(disk.faults) ==> ok
      {
        i := i - 1;
        ghost var before, wasOk := disk.files, ok;
        var restored := RollbackMutation(disk, base, p, j, order[i]);
        if !restored { ok := false; }
        RollsOn(i, start, before, disk.files, wasOk, ok);
        assert order[i] in order && Lookup(before, Surface(order[i])) == Lookup(start, Surface(order[i]));
      }
    }

    /** How far the rollback has come: the last changes are undone, if nothing went wrong, and
        the first i, like everything this process did not leave, are as they were. */
    ghost predicate RolledTo(i: nat, start: Files, f: Files, ok: bool)
      reads this
    {
      && i <= |order| && (forall rel :: rel in order ==> rel in written)
      && (ok ==> forall k :: i <= k < |order| ==> order[k] in backups && Matches(f, order[k], backups[order[k]]))
      && (forall k :: 0 <= k < i ==> Lookup(f, Surface(order[k])) == Lookup(start, Surface(order[k])))
      && forall rel :: rel !in order || !Matches(start, rel, written[rel]) ==> Lookup(f, Surface(rel)) == Lookup(start, Surface(rel))
    }

    lemma RollsOn(i: nat, start: Files, before: Files, after: Files, wasOk: bool, ok: bool)
      requires i < |order| && RolledTo(i + 1, start, before, wasOk)
      requires forall k, l :: 0 <= k < l < |order| ==> order[k] != order[l]
      requires ok ==> wasOk && order[i] in backups && Matches(after, order[i], backups[order[i]])
      requires forall other :: other != order[i] || !Matches(before, order[i], written[order[i]]) ==>
                 Lookup(after, Surface(other)) == Lookup(before, Surface(other))
      ensures RolledTo(i, start, after, ok)
    {
      forall k | 0 <= k < i ensures Lookup(after, Surface(order[k])) == Lookup(start, Surface(order[k])) {
        assert order[k] != order[i];
      }
      if ok {
        forall k | i <= k < |order| ensures order[k] in backups && Matches(after, order[k], backups[order[k]]) {
          if k > i { assert order[k] != order[i]; }
        }
      }
    }
  }

  lemma RolledBack(order: seq<Name>, backups: map<Name, Image>, j: Journal, before: Files, after: Files, i: nat)
    requires BackedUp(j, backups) && i < |j.surfaces|
    requires forall rel :: rel in order ==> rel in backups && Matches(after, rel, backups[rel])
    requires forall rel :: rel !in order ==> Lookup(after, Surface(rel)) == Lookup(before, Surface(rel))
    requires j.surfaces[i].path !in order ==> IsPre(before, j.surfaces[i])
    ensures IsPre(after, j.surfaces[i])
  {
  }

  /** Rolls back after an error; the journal goes only when every surface is its preimage again. */
  method RollbackAttempt(disk: CodexDisk, tracker: MutationTracker, ghost base: Files, ghost p: Preparation, ghost j: Journal)
    requires tracker.Tracks(j) && InFlight(base, p, j, disk.files)
    modifies disk
    ensures disk.faults >= old(disk.faults) && Untouched(j, base, disk.files)
    ensures JournalFile in disk.files ==> InFlight(base, p, j, disk.files)
    ensures JournalFile !in disk.files ==> AllPre(j, disk.files)
    ensures tracker.Accounts(j, old(disk.files)) && disk.faults == old(disk.faults) ==> JournalFile !in disk.files
  {
    var ok := tracker.RollbackMutations(disk, base, p, j);
    if !ok { return; }
    var loaded := LoadJournal(disk, j);
    if loaded.Fail? { return; }
    var surfaces := loaded.value.value.surfaces;
    ghost var before := disk.files;
    for i := 0 to |surfaces|
      invariant disk.files == before
      invariant disk.faults >= old(disk.faults) && forall k :: 0 <= k < i ==> IsPre(disk.files, surfaces[k])
    {
      if tracker.Accounts(j, old(disk.files)) {
        RolledBack(tracker.order, tracker.backups, j, old(disk.files), before, i);
      }
      var current := Capture(disk, surfaces[i].path);
      if current.Fail? || current.value != surfaces[i].pre { return; }
    }
    ok := disk.RemoveIfExists(JournalFile);
    SameSurfacesKeep(j, before, disk.files);
    if !ok { SameInFlight(base, p, j, before, disk.files); }
    forall other | forall i :: 0 <= i < |j.surfaces| ==> other != j.surfaces[i].path
      ensures Lookup(disk.files, Surface(other)) == Lookup(base, Surface(other))
    {
      assert Lookup(before, Surface(other)) == Lookup(base, Surface(other));
    }
  }
}
