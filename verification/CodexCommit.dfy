/** The whole Codex install: apply the file and config plans under a journal, commit the state,
    and what a crash leaves for recovery. */
module CodexCommit {
  import opened Results
  import opened FaultyDisk
  import opened CodexJournal
  import opened CodexInstall
  import CodexConfig

  // ---------------------------------------------------------------- what applying produces

  /** What a path ends with when the desired files were applied: content is compared before writing, mode
      is not, so a file that already has the right content keeps whatever mode it had. */
  function Applied(base: Files, p: Preparation, rel: Name): Option<Image> {
    var written := FirstWrite(base, p.desired, rel);
    if written.Some? then written else ImageOf(Lookup(base, Surface(rel)))
  }

  /** Every desired file whose content is already installed also has the source mode. */
  ghost predicate ModeSettled(base: Files, p: Preparation) {
    forall i :: 0 <= i < |p.desired| ==> Applied(base, p, p.desired[i].path) == DesiredPost(p.desired, p.desired[i].path)
  }

  ghost predicate FilesLanded(base: Files, p: Preparation, f: Files) {
    && (forall rel :: rel in p.remove ==> Matches(f, rel, Absent))
    && (forall i :: 0 <= i < |p.desired| ==> ImageOf(Lookup(f, Surface(p.desired[i].path))) == Applied(base, p, p.desired[i].path))
    && (p.config.changed ==> Matches(f, Config, Present(Bytes(p.config.next), p.config.mode)))
  }

  /** The plan is applied and the state written. */
  ghost predicate Landed(base: Files, p: Preparation, f: Files) {
    FilesLanded(base, p, f) && Matches(f, State, Present(PlannedState(p), STATE_MODE))
  }

  /** A fully applied plan is the journal's postimage exactly when the modes were settled. */
  lemma LandedIsPostIff(base: Files, p: Preparation, j: Journal, f: Files)
    requires JournalFor(base, p, j) && Landed(base, p, f)
    ensures AllPost(j, f) <==> ModeSettled(base, p)
  {
    if AllPost(j, f) {
      forall i | 0 <= i < |p.desired| ensures Applied(base, p, p.desired[i].path) == DesiredPost(p.desired, p.desired[i].path) {
        assert Targeted(j, p.desired[i].path, DesiredPost(p.desired, p.desired[i].path).value);
        var n :| 0 <= n < |j.surfaces| && j.surfaces[n].path == p.desired[i].path;
        assert IsPost(f, j.surfaces[n]);
      }
    }
    if ModeSettled(base, p) {
      forall n | 0 <= n < |j.surfaces| ensures IsPost(f, j.surfaces[n]) {
        assert PlannedSurface(p, j.surfaces[n].path);
        assert j.surfaces[n].path in p.remove ==> Targeted(j, j.surfaces[n].path, Absent);
        if i :| 0 <= i < |p.desired| && p.desired[i].path == j.surfaces[n].path {
          assert Applied(base, p, p.desired[i].path) == DesiredPost(p.desired, p.desired[i].path);
          assert Targeted(j, p.desired[i].path, DesiredPost(p.desired, p.desired[i].path).value);
        }
      }
    }
  }

  // ---------------------------------------------------------------- applying the plans

  /** No surface but this one changed. */
  ghost predicate OnlyChanged(before: Files, after: Files, rel: Name) {
    forall other :: other != rel ==> Lookup(after, Surface(other)) == Lookup(before, Surface(other))
  }

  /** The surface still is what the plan started from. */
  ghost predicate Pending(base: Files, f: Files, rel: Name) {
    Lookup(f, Surface(rel)) == Lookup(base, Surface(rel))
  }

  /** Records the one surface that was just changed. */
  method RecordMutation(disk: CodexDisk, tracker: MutationTracker, ghost before: Files, ghost j: Journal, rel: Name) returns (ok: bool)
    requires tracker.Tracks(j) && tracker.Accounts(j, before) && MutableSurface(j, rel)
    requires ImageOf(Lookup(disk.files, Surface(rel))).Some?
    requires OnlyChanged(before, disk.files, rel)
    modifies disk`faults, tracker
    ensures tracker.Tracks(j) && disk.faults >= old(disk.faults) && (ok <==> disk.faults == old(disk.faults))
    ensures ok ==> tracker.Accounts(j, disk.files)
  {
    ok := tracker.Record(disk, j, rel);
    if ok {
      forall i | 0 <= i < |j.surfaces| && j.surfaces[i].path !in tracker.order ensures IsPre(disk.files, j.surfaces[i]) {
        assert IsPre(before, j.surfaces[i]);
      }
    }
  }

  /** Removes one surface and records it. */
  method RemoveRecorded(disk: CodexDisk, tracker: MutationTracker, ghost base: Files, ghost p: Preparation, ghost j: Journal, rel: Name)
    returns (ok: bool)
    requires Targeted(j, rel, Absent) && tracker.Tracks(j) && InFlight(base, p, j, disk.files)
    requires tracker.Accounts(j, disk.files)
    modifies disk, tracker
    ensures tracker.Tracks(j) && InFlight(base, p, j, disk.files)
    ensures disk.faults >= old(disk.faults) && (ok <==> disk.faults == old(disk.faults))
    ensures disk.faults == old(disk.faults) ==> tracker.Accounts(j, disk.files)
    ensures ok ==> Matches(disk.files, rel, Absent)
    ensures OnlyChanged(old(disk.files), disk.files, rel)
  {
    ghost var before := disk.files;
    ok := disk.RemoveIfExists(Surface(rel));
    if !ok {
      SameInFlight(base, p, j, before, disk.files);
      return;
    }
    RewriteInFlight(base, p, j, before, disk.files, rel, Absent);
    ok := RecordMutation(disk, tracker, before, j, rel);
  }

  /** Writes one surface and records it, as the file and config plans do. */
  method WriteRecorded(disk: CodexDisk, tracker: MutationTracker, ghost base: Files, ghost p: Preparation, ghost j: Journal, rel: Name,
                       content: Content, mode: nat) returns (ok: bool)
    requires MutableSurface(j, rel) && (Post(j, rel, Present(content, mode)) || MayWrite(base, p, rel, Present(content, mode)))
    requires tracker.Tracks(j) && InFlight(base, p, j, disk.files) && tracker.Accounts(j, disk.files)
    modifies disk, tracker
    ensures tracker.Tracks(j) && InFlight(base, p, j, disk.files)
    ensures disk.faults >= old(disk.faults) && (ok <==> disk.faults == old(disk.faults))
    ensures disk.faults == old(disk.faults) ==> tracker.Accounts(j, disk.files)
    ensures ok ==> Matches(disk.files, rel, Present(content, mode))
    ensures OnlyChanged(old(disk.files), disk.files, rel)
  {
    ghost var before := disk.files;
    ok := WriteAtomic(disk, Surface(rel), content, mode);
    if !ok {
      SameInFlight(base, p, j, before, disk.files);
      return;
    }
    RewriteInFlight(base, p, j, before, disk.files, rel, Present(content, mode));
    ok := RecordMutation(disk, tracker, before, j, rel);
  }

  /** Removes one obsolete file, if it still is the recorded one. */
  method RemoveObsolete(disk: CodexDisk, tracker: MutationTracker, ghost base: Files, p: Preparation, ghost j: Journal, rel: Name)
    returns (ok: bool)
    requires PlanTargeted(p, j) && tracker.Tracks(j) && InFlight(base, p, j, disk.files)
    requires tracker.Accounts(j, disk.files)
    requires rel in p.remove
    modifies disk, tracker
    ensures tracker.Tracks(j) && InFlight(base, p, j, disk.files)
    ensures disk.faults >= old(disk.faults) && (ok ==> disk.faults == old(disk.faults))
    ensures disk.faults == old(disk.faults) ==> tracker.Accounts(j, disk.files)
    ensures ok ==> Matches(disk.files, rel, Absent)
    ensures disk.faults == old(disk.faults) ==> (ok <==> Removable(old(disk.files), p, rel))
    ensures OnlyChanged(old(disk.files), disk.files, rel)
  {
    if rel !in Owned(p) { return false; }
    var current := disk.Read(Surface(rel));
    if current.Fail? { return false; }
    if current.value.None? { return true; }
    if current.value.value.Irregular? || current.value.value.content != Owned(p)[rel] { return false; }
    ok := RemoveRecorded(disk, tracker, base, p, j, rel);
  }

  /** The first i obsolete files are gone, which they could be; everything else is as at the start. */
  ghost predicate RemovedUpTo(p: Preparation, start: Files, f: Files, i: nat) {
    && i <= |p.remove|
    && (forall k :: 0 <= k < i ==> Matches(f, p.remove[k], Absent) && Removable(start, p, p.remove[k]))
    && forall other :: other !in p.remove[..i] ==> Lookup(f, Surface(other)) == Lookup(start, Surface(other))
  }

  lemma RemovedNext(p: Preparation, start: Files, before: Files, after: Files, i: nat)
    requires i < |p.remove| && RemovedUpTo(p, start, before, i) && Matches(after, p.remove[i], Absent) && Removable(before, p, p.remove[i])
    requires OnlyChanged(before, after, p.remove[i])
    ensures RemovedUpTo(p, start, after, i + 1)
  {
    assert p.remove[..i + 1] == p.remove[..i] + [p.remove[i]];
    RemovableStays(p, start, before, i);
    forall k | 0 <= k < i + 1 ensures Matches(after, p.remove[k], Absent) {
      if k < i && p.remove[k] != p.remove[i] { assert Matches(before, p.remove[k], Absent); }
    }
  }

  /** Whether the next obsolete file may go is as it was at the start, also when it is named twice. */
  lemma RemovableStays(p: Preparation, start: Files, f: Files, i: nat)
    requires i < |p.remove| && RemovedUpTo(p, start, f, i)
    ensures Removable(f, p, p.remove[i]) <==> Removable(start, p, p.remove[i])
  {
    if p.remove[i] in p.remove[..i] {
      var k :| 0 <= k < i && p.remove[k] == p.remove[i];
      assert Matches(f, p.remove[k], Absent) && Removable(start, p, p.remove[k]);
    }
  }

  method ApplyObsoleteRemovals(disk: CodexDisk, tracker: MutationTracker, ghost base: Files, p: Preparation, ghost j: Journal) returns (ok: bool)
    requires PlanTargeted(p, j) && tracker.Tracks(j) && InFlight(base, p, j, disk.files)
    requires tracker.Accounts(j, disk.files)
    modifies disk, tracker
    ensures tracker.Tracks(j) && InFlight(base, p, j, disk.files)
    ensures disk.faults >= old(disk.faults) && (ok ==> disk.faults == old(disk.faults))
    ensures disk.faults == old(disk.faults) ==> tracker.Accounts(j, disk.files)
    ensures ok ==> forall rel :: rel in p.remove ==> Matches(disk.files, rel, Absent)
    ensures ok ==> forall rel :: rel in p.remove ==> Removable(old(disk.files), p, rel)
    ensures !ok ==> disk.faults > old(disk.faults) || exists rel :: rel in p.remove && !Removable(old(disk.files), p, rel)
    ensures forall other :: other !in p.remove ==> Lookup(disk.files, Surface(other)) == Lookup(old(disk.files), Surface(other))
  {
    ghost var start := disk.files;
    for i := 0 to |p.remove|
      invariant tracker.Tracks(j) && InFlight(base, p, j, disk.files)
      invariant disk.faults == old(disk.faults) && tracker.Accounts(j, disk.files)
      invariant RemovedUpTo(p, start, disk.files, i)
    {
      ghost var before := disk.files;
      RemovableStays(p, start, before, i);
      ok := RemoveObsolete(disk, tracker, base, p, j, p.remove[i]);
      if !ok { return; }
      RemovedNext(p, start, before, disk.files, i);
    }
    return true;
  }

  /** A desired path after the first n entries: what the first differing one wrote, under which no later
      entry is accepted, or untouched. */
  ghost predicate UpToAt(base: Files, p: Preparation, f: Files, n: nat, rel: Name)
    requires n <= |p.desired|
  {
    var written := FirstWrite(base, p.desired[..n], rel);
    if written.Some? then Matches(f, rel, written.value) && !OwnershipHolds(Lookup(f, Surface(rel)), rel, p.state)
    else Pending(base, f, rel)
  }

  lemma EntryProceedsIff(base: Files, p: Preparation, f: Files, n: nat)
    requires n < |p.desired| && UpToAt(base, p, f, n, p.desired[n].path)
    ensures OwnershipHolds(Lookup(f, Surface(p.desired[n].path)), p.desired[n].path, p.state) <==> ProceedsAt(base, p, n)
  {
  }

  method ApplyDesiredFile(disk: CodexDisk, tracker: MutationTracker, ghost base: Files, p: Preparation, ghost j: Journal, n: nat)
    returns (ok: bool)
    requires PlanTargeted(p, j) && tracker.Tracks(j) && InFlight(base, p, j, disk.files)
    requires tracker.Accounts(j, disk.files)
    requires n < |p.desired| && ProceedsTo(base, p, n) && UpToAt(base, p, disk.files, n, p.desired[n].path)
    modifies disk, tracker
    ensures tracker.Tracks(j) && InFlight(base, p, j, disk.files)
    ensures disk.faults >= old(disk.faults) && (ok ==> disk.faults == old(disk.faults))
    ensures disk.faults == old(disk.faults) ==> tracker.Accounts(j, disk.files)
    ensures disk.faults == old(disk.faults) ==> (ok <==> ProceedsAt(base, p, n))
    ensures ok ==> UpToAt(base, p, disk.files, n + 1, p.desired[n].path)
    ensures OnlyChanged(old(disk.files), disk.files, p.desired[n].path)
  {
    var d := p.desired[n];
    EntryProceedsIff(base, p, disk.files, n);
    FirstWriteStep(base, p.desired, n, d.path);
    var owned := disk.Read(Surface(d.path));
    if owned.Fail? || !OwnershipHolds(owned.value, d.path, p.state) { return false; }
    var current := disk.Read(Surface(d.path));
    if current.Fail? { return false; }
    if current.value.Some? && current.value.value.Regular? && current.value.value.content == d.content { return true; }
    assert Reached(base, p, n) && ImageFor(d) == Present(d.content, d.mode);
    assert Targeted(j, d.path, DesiredPost(p.desired, d.path).value);
    ok := WriteRecorded(disk, tracker, base, p, j, d.path, d.content, d.mode);
  }

  /** The first n desired files are applied; everything but desired files is as at the start. */
  ghost predicate DesiredUpTo(base: Files, p: Preparation, start: Files, f: Files, n: nat) {
    && n <= |p.desired|
    && (forall i :: 0 <= i < |p.desired| ==> UpToAt(base, p, f, n, p.desired[i].path))
    && OnlyDesired(p, start, f)
  }

  ghost predicate OnlyDesired(p: Preparation, start: Files, f: Files) {
    forall other :: (forall i :: 0 <= i < |p.desired| ==> other != p.desired[i].path) ==>
      Lookup(f, Surface(other)) == Lookup(start, Surface(other))
  }

  lemma OthersStay(base: Files, p: Preparation, start: Files, before: Files, after: Files, n: nat)
    requires n < |p.desired| && DesiredUpTo(base, p, start, before, n)
    requires OnlyChanged(before, after, p.desired[n].path)
    ensures OnlyDesired(p, start, after)
  {
  }

  lemma DesiredNext(base: Files, p: Preparation, start: Files, before: Files, after: Files, n: nat)
    requires n < |p.desired| && DesiredUpTo(base, p, start, before, n) && UpToAt(base, p, after, n + 1, p.desired[n].path)
    requires OnlyChanged(before, after, p.desired[n].path)
    ensures DesiredUpTo(base, p, start, after, n + 1)
  {
    forall i | 0 <= i < |p.desired| ensures UpToAt(base, p, after, n + 1, p.desired[i].path) {
      FirstWriteStep(base, p.desired, n, p.desired[i].path);
      assert UpToAt(base, p, before, n, p.desired[i].path);
    }
  }

  lemma ProceedsNext(base: Files, p: Preparation, n: nat)
    requires n < |p.desired| && ProceedsTo(base, p, n)
    ensures ProceedsTo(base, p, n + 1) <==> ProceedsAt(base, p, n)
  {
  }

  /** One turn of the loop over the desired files. */
  method ApplyNextFile(disk: CodexDisk, tracker: MutationTracker, ghost base: Files, p: Preparation, ghost j: Journal, ghost start: Files, n: nat)
    returns (ok: bool)
    requires PlanTargeted(p, j) && tracker.Tracks(j) && InFlight(base, p, j, disk.files)
    requires tracker.Accounts(j, disk.files)
    requires n < |p.desired| && ProceedsTo(base, p, n) && DesiredUpTo(base, p, start, disk.files, n)
    modifies disk, tracker
    ensures tracker.Tracks(j) && InFlight(base, p, j, disk.files)
    ensures disk.faults >= old(disk.faults) && (ok ==> disk.faults == old(disk.faults))
    ensures disk.faults == old(disk.faults) ==> tracker.Accounts(j, disk.files)
    ensures disk.faults == old(disk.faults) ==> (ok <==> ProceedsTo(base, p, n + 1))
    ensures ok ==> DesiredUpTo(base, p, start, disk.files, n + 1)
    ensures OnlyDesired(p, start, disk.files)
  {
    ghost var before := disk.files;
    ProceedsNext(base, p, n);
    ok := ApplyDesiredFile(disk, tracker, base, p, j, n);
    OthersStay(base, p, start, before, disk.files, n);
    if ok { DesiredNext(base, p, start, before, disk.files, n); }
  }

  method ApplyDesiredFiles(disk: CodexDisk, tracker: MutationTracker, ghost base: Files, p: Preparation, ghost j: Journal) returns (ok: bool)
    requires PlanTargeted(p, j) && tracker.Tracks(j) && InFlight(base, p, j, disk.files)
    requires tracker.Accounts(j, disk.files)
    requires ProceedsTo(base, p, 0) && forall i :: 0 <= i < |p.desired| ==> Pending(base, disk.files, p.desired[i].path)
    modifies disk, tracker
    ensures tracker.Tracks(j) && InFlight(base, p, j, disk.files)
    ensures disk.faults >= old(disk.faults) && (ok ==> disk.faults == old(disk.faults))
    ensures disk.faults == old(disk.faults) ==> tracker.Accounts(j, disk.files)
    ensures disk.faults == old(disk.faults) ==> (ok <==> ProceedsTo(base, p, |p.desired|))
    ensures ok ==> forall i :: 0 <= i < |p.desired| ==>
              ImageOf(Lookup(disk.files, Surface(p.desired[i].path))) == Applied(base, p, p.desired[i].path)
    ensures OnlyDesired(p, old(disk.files), disk.files)
  {
    ghost var start := disk.files;
    for n := 0 to |p.desired|
      invariant tracker.Tracks(j) && InFlight(base, p, j, disk.files)
      invariant disk.faults == old(disk.faults) && tracker.Accounts(j, disk.files)
      invariant ProceedsTo(base, p, n) && DesiredUpTo(base, p, start, disk.files, n)
    {
      ok := ApplyNextFile(disk, tracker, base, p, j, start, n);
      if !ok { return; }
    }
    DesiredApplied(base, p, start, disk.files);
    return true;
  }

  lemma DesiredApplied(base: Files, p: Preparation, start: Files, f: Files)
    requires DesiredUpTo(base, p, start, f, |p.desired|)
    ensures forall i :: 0 <= i < |p.desired| ==> ImageOf(Lookup(f, Surface(p.desired[i].path))) == Applied(base, p, p.desired[i].path)
  {
    assert p.desired[..|p.desired|] == p.desired;
    forall i | 0 <= i < |p.desired| ensures ImageOf(Lookup(f, Surface(p.desired[i].path))) == Applied(base, p, p.desired[i].path) {
      assert UpToAt(base, p, f, |p.desired|, p.desired[i].path);
    }
  }

  method ApplyConfig(disk: CodexDisk, tracker: MutationTracker, ghost base: Files, p: Preparation, ghost j: Journal) returns (ok: bool)
    requires PlanTargeted(p, j) && tracker.Tracks(j) && InFlight(base, p, j, disk.files)
    requires tracker.Accounts(j, disk.files)
    modifies disk, tracker
    ensures tracker.Tracks(j) && InFlight(base, p, j, disk.files)
    ensures disk.faults >= old(disk.faults) && (ok ==> disk.faults == old(disk.faults))
    ensures disk.faults == old(disk.faults) ==> tracker.Accounts(j, disk.files)
    ensures disk.faults == old(disk.faults) ==> (ok <==> (p.config.changed ==> Matches(old(disk.files), Config, p.config.before)))
    ensures ok && p.config.changed ==> Matches(disk.files, Config, Present(Bytes(p.config.next), p.config.mode))
    ensures forall other :: other != Config || !p.config.changed ==> Lookup(disk.files, Surface(other)) == Lookup(old(disk.files), Surface(other))
  {
    if !p.config.changed { return true; }
    var current := Capture(disk, Config);
    if current.Fail? || current.value != p.config.before { return false; }
    ok := WriteRecorded(disk, tracker, base, p, j, Config, Bytes(p.config.next), p.config.mode);
  }

  /** The steps of the plans find what they were planned for. */
  ghost predicate PlansApply(base: Files, p: Preparation) {
    ProceedsTo(base, p, |p.desired|) && (p.config.changed ==> Matches(base, Config, p.config.before))
  }

  /** Removals, then desired files, then the config line. */
  method ApplyPlans(disk: CodexDisk, tracker: MutationTracker, ghost base: Files, p: Preparation, ghost j: Journal) returns (ok: bool)
    requires PlanTargeted(p, j) && SeparateTargets(p) && tracker.Tracks(j) && InFlight(base, p, j, disk.files)
    requires tracker.Accounts(j, disk.files)
    requires SameSurfaces(base, disk.files)
    modifies disk, tracker
    ensures tracker.Tracks(j) && InFlight(base, p, j, disk.files)
    ensures disk.faults >= old(disk.faults) && (ok ==> disk.faults == old(disk.faults))
    ensures disk.faults == old(disk.faults) ==> tracker.Accounts(j, disk.files)
    ensures disk.faults == old(disk.faults) ==> (ok <==> PlansApply(base, p))
    ensures ok ==> FilesLanded(base, p, disk.files)
    ensures ok && !p.config.changed && ConfigApart(p) ==> Pending(base, disk.files, Config)
  {
    SameRemovable(base, disk.files, p);
    ok := ApplyObsoleteRemovals(disk, tracker, base, p, j);
    if !ok { return; }
    ok := ApplyDesiredFiles(disk, tracker, base, p, j);
    if !ok { return; }
    ok := ApplyConfig(disk, tracker, base, p, j);
  }

  lemma SameRemovable(base: Files, f: Files, p: Preparation)
    requires SameSurfaces(base, f)
    ensures forall rel :: Removable(f, p, rel) <==> Removable(base, p, rel)
  {
    forall rel ensures Removable(f, p, rel) <==> Removable(base, p, rel) {
      assert Lookup(f, Surface(rel)) == Lookup(base, Surface(rel));
    }
  }

  // ---------------------------------------------------------------- checks before the commit

  ghost predicate HasContent(f: Files, d: DesiredFile) {
    match Lookup(f, Surface(d.path))
    case Some(Regular(content, _)) => content == d.content
    case _ => false
  }

  /** Re-reads every managed file before the state is committed. */
  method ValidateManagedFiles(disk: CodexDisk, p: Preparation) returns (ok: bool)
    modifies disk`faults
    ensures disk.faults >= old(disk.faults) && (ok ==> disk.faults == old(disk.faults))
    ensures disk.faults == old(disk.faults) ==> (ok <==> forall i :: 0 <= i < |p.desired| ==> HasContent(disk.files, p.desired[i]))
    ensures ok ==> forall i :: 0 <= i < |p.desired| ==> HasContent(disk.files, p.desired[i])
  {
    for i := 0 to |p.desired|
      invariant disk.faults == old(disk.faults)
      invariant forall k :: 0 <= k < i ==> HasContent(disk.files, p.desired[k])
    {
      var file := disk.Read(Surface(p.desired[i].path));
      if file.Fail? || file.value.None? || file.value.value.Irregular? || file.value.value.content != p.desired[i].content {
        assert disk.faults == old(disk.faults) ==> !HasContent(disk.files, p.desired[i]);
        return false;
      }
    }
    return true;
  }

  /** The text of config.toml; an absent file reads as empty. */
  function ConfigText(file: Option<File<Content>>): Option<string> {
    match file
    case None => Some("")
    case Some(Regular(Bytes(text), _)) => Some(text)
    case _ => None
  }

  /** The text carries the recorded line and value. */
  ghost predicate Carries(text: Option<string>, record: CodexConfig.Record, kind: CodexConfig.Kind) {
    text.Some? && var found := CodexConfig.Find(CodexConfig.Lines(text.value), 0, kind);
      found.Ok? && found.value.Some? && found.value.value.value == record.value && found.value.value.line == record.line
  }

  ghost predicate ConfigCarries(file: Option<File<Content>>, config: ConfigPlan, kind: CodexConfig.Kind) {
    config.record.Some? ==> Carries(ConfigText(file), config.record.value, kind)
  }

  /** The re-parse of config.toml before the state commit. */
  method ConfigAccepted(disk: CodexDisk, config: ConfigPlan, kind: CodexConfig.Kind) returns (ok: bool)
    modifies disk`faults
    ensures disk.faults >= old(disk.faults) && (ok ==> disk.faults == old(disk.faults))
    ensures disk.faults == old(disk.faults) ==> (ok <==> ConfigCarries(Lookup(disk.files, Surface(Config)), config, kind))
  {
    if config.record.None? { return true; }
    var file := disk.Read(Surface(Config));
    if file.Fail? { return false; }
    var text := ConfigText(file.value);
    if text.None? { return false; }
    var found := CodexConfig.FindTopLevelAssignment(text.value, kind);
    ok := found.Ok? && found.value.Some? && found.value.value.value == config.record.value.value
          && found.value.value.line == config.record.value.line;
  }

  method StateUnchanged(disk: CodexDisk, p: Preparation) returns (ok: bool)
    modifies disk`faults
    ensures disk.faults >= old(disk.faults) && (ok ==> disk.faults == old(disk.faults))
    ensures disk.faults == old(disk.faults) ==> (ok <==> Matches(disk.files, State, p.stateBackup))
    ensures ok ==> Matches(disk.files, State, p.stateBackup)
  {
    var current := Capture(disk, State);
    ok := current.Ok? && current.value == p.stateBackup;
  }

  /** config.toml as the plan leaves it. */
  function ConfigAfter(base: Files, p: Preparation): Option<File<Content>> {
    if p.config.changed then Some(Regular(Bytes(p.config.next), p.config.mode)) else Lookup(base, Surface(Config))
  }

  /** The applied files pass the checks before the state commit. */
  ghost predicate ChecksPass(base: Files, p: Preparation, kind: CodexConfig.Kind) {
    && (forall i :: 0 <= i < |p.desired| ==>
          var image := Applied(base, p, p.desired[i].path); image.Some? && image.value.Present? && image.value.content == p.desired[i].content)
    && ConfigCarries(ConfigAfter(base, p), p.config, kind)
  }

  /** Everything an install checks on the way holds of the disk it starts from. */
  ghost predicate CanInstall(base: Files, p: Preparation, kind: CodexConfig.Kind) {
    && Matches(base, State, p.stateBackup) && (forall rel :: !Unjournallable(base, p, rel))
    && PlansApply(base, p) && ChecksPass(base, p, kind)
  }

  lemma LandedContents(base: Files, p: Preparation, f: Files, i: nat)
    requires FilesLanded(base, p, f) && i < |p.desired|
    ensures HasContent(f, p.desired[i]) <==>
              var image := Applied(base, p, p.desired[i].path); image.Some? && image.value.Present? && image.value.content == p.desired[i].content
  {
  }

  lemma LandedConfig(base: Files, p: Preparation, f: Files)
    requires FilesLanded(base, p, f) && (!p.config.changed ==> Pending(base, f, Config))
    ensures ConfigText(Lookup(f, Surface(Config))) == ConfigText(ConfigAfter(base, p))
  {
  }

  /** The state surface of a transaction in flight is the one the plan started from. */
  lemma StateStays(base: Files, p: Preparation, j: Journal, f: Files)
    requires JournalFor(base, p, j) && InFlight(base, p, j, f)
    ensures ImageOf(Lookup(f, Surface(State))) == ImageOf(Lookup(base, Surface(State)))
  {
    var n :| 0 <= n < |j.surfaces| && j.surfaces[n].path == State;
    assert IsPre(base, j.surfaces[n]) && IsPre(f, j.surfaces[n]);
  }

  /** The plan of the config planner passes the check, on the text it was made for. */
  lemma PlannedConfigCarries(base: Files, p: Preparation, managedText: string, previous: Option<CodexConfig.Record>, preserved: bool, kind: CodexConfig.Kind)
    requires CodexConfig.Reads(kind, CodexConfig.MANAGED_KEY) && ConfigText(Lookup(base, Surface(Config))).Some?
    requires CodexConfig.BuildPlan(managedText, ConfigText(Lookup(base, Surface(Config))).value, previous, CodexConfig.MANAGED_KEY, kind)
             == Ok(CodexConfig.Plan(p.config.next, p.config.changed, p.config.record, preserved))
    ensures ConfigCarries(ConfigAfter(base, p), p.config, kind)
  {
    var data := ConfigText(Lookup(base, Surface(Config))).value;
    CodexConfig.PlanReadsBack(managedText, data, previous, CodexConfig.MANAGED_KEY, kind);
    CodexConfig.ChangedMeansDifferent(managedText, data, previous, CodexConfig.MANAGED_KEY, kind);
  }

  // ---------------------------------------------------------------- the install

  /** One record for every desired file, in their order: its path and the digest of its content. */
  ghost predicate RecordsOf(desired: seq<DesiredFile>, files: seq<(Name, Digest)>) {
    |files| == |desired| && forall i :: 0 <= i < |desired| ==> files[i] == (desired[i].path, desired[i].content)
  }

  /** The state file owns exactly the desired files and the planned config line. */
  ghost predicate Recorded(p: Preparation, f: Files) {
    exists files :: RecordsOf(p.desired, files) && Lookup(f, Surface(State)) == Some(Regular(StateDoc(files, p.config.record), 0x1A4))
  }

  /** What a committed plan means: every desired file has its content, what was obsolete is gone, the config text
      is the planned one, and the state file records it. */
  ghost predicate InForce(p: Preparation, f: Files) {
    && (forall i :: 0 <= i < |p.desired| ==> HasContent(f, p.desired[i]))
    && (forall rel :: rel in p.remove ==> Lookup(f, Surface(rel)).None?)
    && (p.config.changed ==> Lookup(f, Surface(Config)) == Some(Regular(Bytes(p.config.next), p.config.mode)))
    && Recorded(p, f)
  }

  /** No surface outside the plan changed. */
  ghost predicate OnlyPlanned(p: Preparation, before: Files, after: Files) {
    forall rel :: !PlannedSurface(p, rel) ==> Lookup(after, Surface(rel)) == Lookup(before, Surface(rel))
  }

  lemma AttemptedOnlyPlanned(base: Files, p: Preparation, journal: Option<Journal>, stateWritten: bool, f: Files)
    requires Attempted(base, p, journal, stateWritten, f)
    ensures OnlyPlanned(p, base, f)
  {
    forall rel | !PlannedSurface(p, rel) ensures Lookup(f, Surface(rel)) == Lookup(base, Surface(rel)) {
      if journal.Some? { assert forall i :: 0 <= i < |journal.value.surfaces| ==> PlannedSurface(p, journal.value.surfaces[i].path); }
    }
  }

  /** What an install attempt leaves when it returns, or stops anywhere on the way. */
  ghost predicate Attempted(base: Files, p: Preparation, journal: Option<Journal>, stateWritten: bool, f: Files) {
    match journal
    case None => SameSurfaces(base, f) && JournalFile !in f && !stateWritten
    case Some(j) =>
      && JournalFor(base, p, j) && Untouched(j, base, f)
      && (JournalFile in f ==> HasJournal(f, j) && InTransit(base, p, j, f))
      && (if stateWritten then Landed(base, p, f) && ProceedsTo(base, p, |p.desired|)
          else if JournalFile in f then StatePre(j, f)
          else AllPre(j, f))
  }

  /** Wherever its calls fail, an install leaves the old surfaces, or a durable journal of exactly
      this plan with every surface pre, post or as the run just wrote it, or the applied plan; the journal
      disappears after a rollback only when every surface is its preimage again.  Once the state is written
      the plan is in force.  If no call fails, no journal stays, and the install succeeds exactly when all
      it checks holds. */
  method ApplyInstall(disk: CodexDisk, p: Preparation, kind: CodexConfig.Kind)
    returns (ok: bool, ghost journal: Option<Journal>, ghost stateWritten: bool)
    requires SeparateTargets(p) && JournalFile !in disk.files
    modifies disk
    ensures Attempted(old(disk.files), p, journal, stateWritten, disk.files) && OnlyPlanned(p, old(disk.files), disk.files)
    ensures ok ==> stateWritten && JournalFile !in disk.files
    ensures stateWritten ==> InForce(p, disk.files)
    ensures disk.faults >= old(disk.faults)
    ensures disk.faults == old(disk.faults) ==> JournalFile !in disk.files
    ensures disk.faults == old(disk.faults) && ConfigApart(p) ==> (ok <==> CanInstall(old(disk.files), p, kind))
  {
    ghost var base := disk.files;
    journal, stateWritten := None, false;
    ok := StateUnchanged(disk, p);
    if !ok { return; }
    var planned := NewJournal(disk, p);
    if planned.Fail? { return false, None, false; }
    var j := planned.value;
    NothingUnjournallable(base, p, j);
    ok := WriteAtomic(disk, JournalFile, JournalDoc(j), JOURNAL_MODE);
    if !ok { return; }
    journal := Some(j);
    SameSurfacesKeep(j, base, disk.files);
    AllPreInTransit(base, p, j, disk.files);
    ok, stateWritten := ApplyJournalled(disk, base, p, j, kind);
    AttemptedOnlyPlanned(base, p, journal, stateWritten, disk.files);
  }

  lemma NothingUnjournallable(base: Files, p: Preparation, j: Journal)
    requires JournalFor(base, p, j)
    ensures forall rel :: !Unjournallable(base, p, rel)
  {
    forall rel | PlannedSurface(p, rel) ensures ValidSurfacePath(rel) && ImageOf(Lookup(base, Surface(rel))).Some? {
      var n := PlannedIsJournalled(p, j, rel);
      assert IsPre(base, j.surfaces[n]);
    }
  }

  /** Every surface of the plan has its place in the journal. */
  lemma PlannedIsJournalled(p: Preparation, j: Journal, rel: Name) returns (n: nat)
    requires PlanTargeted(p, j) && ValidJournal(j) && PlannedSurface(p, rel)
    ensures n < |j.surfaces| && j.surfaces[n].path == rel
  {
    if rel in p.remove {
      assert Targeted(j, rel, Absent);
    } else if i :| 0 <= i < |p.desired| && p.desired[i].path == rel {
      assert Targeted(j, p.desired[i].path, DesiredPost(p.desired, p.desired[i].path).value);
    }
    n :| n < |j.surfaces| && j.surfaces[n].path == rel;
  }

  lemma AllPreInTransit(base: Files, p: Preparation, j: Journal, f: Files)
    requires ValidJournal(j) && AllPre(j, f)
    ensures InTransit(base, p, j, f) && StatePre(j, f)
  {
  }

  /** The applied files, config and state are as they should be. */
  ghost predicate Checked(p: Preparation, f: Files, kind: CodexConfig.Kind) {
    && (forall i :: 0 <= i < |p.desired| ==> HasContent(f, p.desired[i]))
    && ConfigCarries(Lookup(f, Surface(Config)), p.config, kind) && Matches(f, State, p.stateBackup)
  }

  method CheckApplied(disk: CodexDisk, p: Preparation, kind: CodexConfig.Kind) returns (ok: bool)
    modifies disk`faults
    ensures disk.faults >= old(disk.faults) && (ok ==> disk.faults == old(disk.faults))
    ensures disk.faults == old(disk.faults) ==> (ok <==> Checked(p, disk.files, kind))
  {
    ok := ValidateManagedFiles(disk, p);
    if !ok { return; }
    ok := ConfigAccepted(disk, p.config, kind);
    if !ok { return; }
    ok := StateUnchanged(disk, p);
  }

  lemma ChecksIff(base: Files, p: Preparation, j: Journal, f: Files, kind: CodexConfig.Kind)
    requires JournalFor(base, p, j) && InFlight(base, p, j, f) && FilesLanded(base, p, f) && Matches(base, State, p.stateBackup)
    requires !p.config.changed && ConfigApart(p) ==> Pending(base, f, Config)
    ensures ConfigApart(p) ==> (Checked(p, f, kind) <==> ChecksPass(base, p, kind))
  {
    StateStays(base, p, j, f);
    if ConfigApart(p) {
      LandedConfig(base, p, f);
      forall i | 0 <= i < |p.desired|
        ensures HasContent(f, p.desired[i]) <==>
                  var image := Applied(base, p, p.desired[i].path); image.Some? && image.value.Present? && image.value.content == p.desired[i].content
      {
        LandedContents(base, p, f, i);
      }
    }
  }

  /** Applies the plans and checks the result before the state is committed. */
  method ApplyChecked(disk: CodexDisk, tracker: MutationTracker, ghost base: Files, p: Preparation, ghost j: Journal, kind: CodexConfig.Kind)
    returns (ok: bool)
    requires JournalFor(base, p, j) && SeparateTargets(p) && tracker.Tracks(j) && InFlight(base, p, j, disk.files)
    requires tracker.Accounts(j, disk.files) && SameSurfaces(base, disk.files) && Matches(base, State, p.stateBackup)
    modifies disk, tracker
    ensures tracker.Tracks(j) && InFlight(base, p, j, disk.files) && disk.faults >= old(disk.faults)
    ensures disk.faults == old(disk.faults) ==> tracker.Accounts(j, disk.files)
    ensures ok ==> FilesLanded(base, p, disk.files) && PlansApply(base, p) && disk.faults == old(disk.faults)
    ensures ok ==> forall i :: 0 <= i < |p.desired| ==> HasContent(disk.files, p.desired[i])
    ensures disk.faults == old(disk.faults) && ConfigApart(p) ==> (ok <==> PlansApply(base, p) && ChecksPass(base, p, kind))
  {
    ok := ApplyPlans(disk, tracker, base, p, j);
    if !ok { return; }
    ChecksIff(base, p, j, disk.files, kind);
    ok := CheckApplied(disk, p, kind);
  }

  /** The part of the install that runs under a durable journal. */
  method ApplyJournalled(disk: CodexDisk, ghost base: Files, p: Preparation, j: Journal, kind: CodexConfig.Kind)
    returns (ok: bool, ghost stateWritten: bool)
    requires SeparateTargets(p) && JournalFor(base, p, j) && InFlight(base, p, j, disk.files) && SameSurfaces(base, disk.files)
    requires Matches(base, State, p.stateBackup)
    modifies disk
    ensures Attempted(base, p, Some(j), stateWritten, disk.files)
    ensures stateWritten ==> InForce(p, disk.files)
    ensures ok ==> stateWritten && JournalFile !in disk.files
    ensures disk.faults >= old(disk.faults) && (disk.faults == old(disk.faults) ==> JournalFile !in disk.files)
    ensures disk.faults == old(disk.faults) && ConfigApart(p) ==> (ok <==> PlansApply(base, p) && ChecksPass(base, p, kind))
  {
    stateWritten := false;
    var backups := Backups(j);
    var tracker := new MutationTracker(backups);
    SameSurfacesKeep(j, base, disk.files);
    ok := ApplyChecked(disk, tracker, base, p, j, kind);
    if !ok {
      RollbackAttempt(disk, tracker, base, p, j);
      return;
    }
    ok, stateWritten := CommitState(disk, tracker, base, p, j);
  }

  method CommitState(disk: CodexDisk, tracker: MutationTracker, ghost base: Files, p: Preparation, ghost j: Journal)
    returns (ok: bool, ghost stateWritten: bool)
    requires SeparateTargets(p) && JournalFor(base, p, j) && tracker.Tracks(j) && InFlight(base, p, j, disk.files)
    requires FilesLanded(base, p, disk.files) && ProceedsTo(base, p, |p.desired|)
    requires forall i :: 0 <= i < |p.desired| ==> HasContent(disk.files, p.desired[i])
    modifies disk
    ensures Attempted(base, p, Some(j), stateWritten, disk.files)
    ensures stateWritten ==> InForce(p, disk.files)
    ensures ok ==> stateWritten && JournalFile !in disk.files
    ensures disk.faults >= old(disk.faults) && (!ok ==> disk.faults > old(disk.faults))
  {
    stateWritten := false;
    ghost var before := disk.files;
    ok := WriteAtomic(disk, Surface(State), PlannedState(p), STATE_MODE);
    if !ok {
      SameInFlight(base, p, j, before, disk.files);
      RollbackAttempt(disk, tracker, base, p, j);
      return;
    }
    stateWritten := true;
    StateLands(base, p, j, before, disk.files);
    CommittedIsInForce(base, p, before, disk.files);
    ok := FinishCommitted(disk, base, p, j);
  }

  /** The state is written; the journal may go. */
  method FinishCommitted(disk: CodexDisk, ghost base: Files, ghost p: Preparation, ghost j: Journal) returns (ok: bool)
    requires JournalFor(base, p, j) && Landed(base, p, disk.files) && InForce(p, disk.files) && ProceedsTo(base, p, |p.desired|)
    requires HasJournal(disk.files, j) && InTransit(base, p, j, disk.files) && Untouched(j, base, disk.files)
    modifies disk
    ensures Attempted(base, p, Some(j), true, disk.files) && InForce(p, disk.files)
    ensures ok ==> JournalFile !in disk.files
    ensures disk.faults >= old(disk.faults) && (!ok ==> disk.faults > old(disk.faults))
  {
    ghost var committed := disk.files;
    ok := disk.RemoveIfExists(JournalFile);
    LandedOnSame(base, p, j, committed, disk.files);
    InForceOnSame(p, committed, disk.files);
  }

  lemma CommittedIsInForce(base: Files, p: Preparation, before: Files, after: Files)
    requires SeparateTargets(p) && FilesLanded(base, p, before) && forall i :: 0 <= i < |p.desired| ==> HasContent(before, p.desired[i])
    requires Rewritten(before, after, State, Present(PlannedState(p), STATE_MODE))
    ensures InForce(p, after)
  {
    assert RecordsOf(p.desired, DesiredRecords(p.desired));
    forall rel | rel in p.remove ensures Lookup(after, Surface(rel)).None? {
      assert Matches(before, rel, Absent);
    }
  }

  lemma InForceOnSame(p: Preparation, before: Files, after: Files)
    requires InForce(p, before) && SameSurfaces(before, after)
    ensures InForce(p, after)
  {
    forall i | 0 <= i < |p.desired| ensures HasContent(after, p.desired[i]) {
      assert HasContent(before, p.desired[i]);
    }
    forall rel | rel in p.remove ensures Lookup(after, Surface(rel)).None? {
      assert Lookup(before, Surface(rel)).None?;
    }
  }

  lemma StateLands(base: Files, p: Preparation, j: Journal, before: Files, after: Files)
    requires SeparateTargets(p) && JournalFor(base, p, j) && InFlight(base, p, j, before) && FilesLanded(base, p, before)
    requires Rewritten(before, after, State, Present(PlannedState(p), STATE_MODE))
    ensures Landed(base, p, after) && HasJournal(after, j) && InTransit(base, p, j, after) && Untouched(j, base, after)
  {
    var n :| 0 <= n < |j.surfaces| && j.surfaces[n].path == State;
    StateIsUnique(j, after, n);
    forall i | 0 <= i < |j.surfaces| ensures Known(base, p, after, j.surfaces[i]) {
      assert Known(base, p, before, j.surfaces[i]);
      if j.surfaces[i].path != State {
        assert Lookup(after, Surface(j.surfaces[i].path)) == Lookup(before, Surface(j.surfaces[i].path));
      }
    }
    forall other | forall i :: 0 <= i < |j.surfaces| ==> other != j.surfaces[i].path
      ensures Lookup(after, Surface(other)) == Lookup(base, Surface(other))
    {
      assert Lookup(before, Surface(other)) == Lookup(base, Surface(other));
    }
    forall rel | rel in p.remove ensures Matches(after, rel, Absent) {
      assert Matches(before, rel, Absent);
    }
  }

  lemma LandedOnSame(base: Files, p: Preparation, j: Journal, before: Files, after: Files)
    requires Landed(base, p, before) && Untouched(j, base, before) && InTransit(base, p, j, before) && SameSurfaces(before, after)
    ensures Landed(base, p, after) && Untouched(j, base, after) && InTransit(base, p, j, after)
  {
    SameSurfacesKeep(j, before, after);
    forall rel | rel in p.remove ensures Matches(after, rel, Absent) {
      assert Matches(before, rel, Absent);
    }
    forall i | 0 <= i < |p.desired| ensures ImageOf(Lookup(after, Surface(p.desired[i].path))) == Applied(base, p, p.desired[i].path) {
      assert Lookup(after, Surface(p.desired[i].path)) == Lookup(before, Surface(p.desired[i].path));
    }
    forall i | 0 <= i < |j.surfaces| ensures Known(base, p, after, j.surfaces[i]) {
      assert Known(base, p, before, j.surfaces[i]);
      assert Lookup(after, Surface(j.surfaces[i].path)) == Lookup(before, Surface(j.surfaces[i].path));
    }
  }

  method Backups(j: Journal) returns (backups: map<Name, Image>)
    requires ValidJournal(j)
    ensures BackedUp(j, backups)
  {
    backups := map[];
    for i := 0 to |j.surfaces|
      invariant forall k :: 0 <= k < i ==> j.surfaces[k].path in backups && backups[j.surfaces[k].path] == j.surfaces[k].pre
    {
      backups := backups[j.surfaces[i].path := j.surfaces[i].pre];
    }
  }

  // ---------------------------------------------------------------- crashes and recovery

  /** A crash between state commit and journal removal is recognised as committed exactly when
      the modes were settled; otherwise recovery refuses for good, unless the state did not change. */
  lemma CommittedCrashIff(base: Files, p: Preparation, j: Journal, f: Files)
    requires Attempted(base, p, Some(j), true, f) && JournalFile in f
    ensures Consistent(j, f)
    ensures AllPost(j, f) <==> ModeSettled(base, p)
    ensures Stuck(j, f) <==> !ModeSettled(base, p) && !Matches(base, State, Present(PlannedState(p), STATE_MODE))
  {
    LandedIsPostIff(base, p, j, f);
    ProceedingIsJournalled(base, p);
    ConsistentIff(base, p, j, f);
    var n :| 0 <= n < |j.surfaces| && j.surfaces[n].path == State;
    StateIsUnique(j, f, n);
    assert IsPre(base, j.surfaces[n]);
  }

  /** A crash before the state commit can be undone exactly when the disk holds no foreign write. */
  lemma EarlyCrashIff(base: Files, p: Preparation, j: Journal, f: Files)
    requires Attempted(base, p, Some(j), false, f) && JournalFile in f
    ensures Recoverable(j, f) <==> !exists n: nat :: ForeignWrite(base, p, f, n)
    ensures AllPost(j, f) ==> Matches(base, State, Present(PlannedState(p), STATE_MODE))
  {
    ConsistentIff(base, p, j, f);
    var n :| 0 <= n < |j.surfaces| && j.surfaces[n].path == State;
    StateIsUnique(j, f, n);
    assert IsPre(base, j.surfaces[n]);
  }

  /** The stop left a disk that every recovery refuses. */
  ghost predicate Sticks(base: Files, p: Preparation, stateWritten: bool, crashed: Files) {
    if stateWritten then !ModeSettled(base, p) && !Matches(base, State, Present(PlannedState(p), STATE_MODE))
    else exists n: nat :: ForeignWrite(base, p, crashed, n)
  }

  /** An install that stops anywhere, leaving `crashed`, then any number of recoveries; `calm` is the fault
      count when the last of them started.  With the journal still there, the recoveries go to all post
      exactly when all was post at the stop, and to all pre otherwise, and one without a fault gets there;
      they refuse for good, changing nothing, exactly when the stop left a foreign write, or the state but
      not the modes. */
  method InstallCrashRecover(disk: CodexDisk, p: Preparation, kind: CodexConfig.Kind, attempts: nat)
    returns (done: bool, ghost journal: Option<Journal>, ghost stateWritten: bool, ghost crashed: Files, ghost calm: nat)
    requires SeparateTargets(p) && JournalFile !in disk.files
    modifies disk
    ensures Attempted(old(disk.files), p, journal, stateWritten, crashed)
    ensures done <==> JournalFile !in disk.files
    ensures JournalFile !in crashed ==> disk.files == crashed
    ensures JournalFile in crashed ==> journal.Some? && Untouched(journal.value, old(disk.files), disk.files)
    ensures JournalFile in crashed ==> (!Recoverable(journal.value, crashed) <==> Sticks(old(disk.files), p, stateWritten, crashed))
    ensures JournalFile in crashed && !Recoverable(journal.value, crashed) ==> disk.files == crashed
    ensures JournalFile in crashed && Recoverable(journal.value, crashed) && !done ==>
              HasJournal(disk.files, journal.value) && Recoverable(journal.value, disk.files)
    ensures JournalFile in crashed && done ==>
              if AllPost(journal.value, crashed) then AllPost(journal.value, disk.files) else AllPre(journal.value, disk.files)
    ensures JournalFile in crashed && Recoverable(journal.value, crashed) && attempts > 0 && disk.faults == calm ==> done
    ensures JournalFile in crashed && stateWritten && ModeSettled(old(disk.files), p) ==> AllPost(journal.value, crashed)
    ensures JournalFile in crashed && !stateWritten && AllPost(journal.value, crashed) ==>
              Matches(old(disk.files), State, Present(PlannedState(p), STATE_MODE))
  {
    ghost var base := disk.files;
    done, journal, stateWritten := ApplyInstall(disk, p, kind);
    crashed, calm := disk.files, disk.faults;
    if JournalFile !in disk.files { return true, journal, stateWritten, crashed, calm; }
    ghost var j := journal.value;
    if stateWritten {
      CommittedCrashIff(base, p, j, crashed);
    } else {
      EarlyCrashIff(base, p, j, crashed);
    }
    done, calm := RecoverRepeatedly(disk, j, attempts);
    if Recoverable(j, crashed) { UntouchedComposes(j, base, crashed, disk.files); }
  }

  /** Any number of recoveries of one journal, as long as it is there. */
  method RecoverRepeatedly(disk: CodexDisk, ghost j: Journal, attempts: nat) returns (done: bool, ghost calm: nat)
    requires HasJournal(disk.files, j) && ValidJournal(j)
    modifies disk
    ensures done <==> JournalFile !in disk.files
    ensures !Recoverable(j, old(disk.files)) ==> disk.files == old(disk.files)
    ensures Recoverable(j, old(disk.files)) ==> Recovered(j, old(disk.files), disk.files)
    ensures Recoverable(j, old(disk.files)) && attempts > 0 && disk.faults == calm ==> done
  {
    done, calm := false, disk.faults;
    SameSurfacesKeep(j, disk.files, disk.files);
    for n := 0 to attempts
      invariant !done && HasJournal(disk.files, j)
      invariant !Recoverable(j, old(disk.files)) ==> disk.files == old(disk.files)
      invariant Recoverable(j, old(disk.files)) ==> Recovered(j, old(disk.files), disk.files)
      invariant Recoverable(j, old(disk.files)) && n > 0 ==> disk.faults > calm
    {
      ghost var before := disk.files;
      calm := disk.faults;
      var _ := Recover(disk, j);
      if Recoverable(j, old(disk.files)) { RecoveredComposes(j, old(disk.files), before, disk.files); }
      if JournalFile !in disk.files { return true, calm; }
    }
  }

  lemma RecoveredComposes(j: Journal, a: Files, b: Files, c: Files)
    requires Recovered(j, a, b) && JournalFile in b && Recovered(j, b, c)
    ensures Recovered(j, a, c)
  {
    UntouchedComposes(j, a, b, c);
  }

  lemma UntouchedComposes(j: Journal, a: Files, b: Files, c: Files)
    requires Untouched(j, a, b) && Untouched(j, b, c)
    ensures Untouched(j, a, c)
  {
    forall rel | forall i :: 0 <= i < |j.surfaces| ==> rel != j.surfaces[i].path
      ensures Lookup(c, Surface(rel)) == Lookup(a, Surface(rel))
    {
      assert Lookup(b, Surface(rel)) == Lookup(a, Surface(rel));
    }
  }

  /** When whatever a run writes is journalled and the modes are settled, no stop is ever refused. */
  lemma NothingSticks(base: Files, p: Preparation, stateWritten: bool, crashed: Files)
    requires WritesJournalled(base, p) && ModeSettled(base, p)
    ensures !Sticks(base, p, stateWritten, crashed)
  {
  }

  // ---------------------------------------------------------------- stops between the writes

  function AfterEntries(base: Files, p: Preparation, f: Files, n: nat): Files
    requires n <= |p.desired|
  {
    if n == 0 then f
    else
      var d, g := p.desired[n - 1], AfterEntries(base, p, f, n - 1);
      if Installed(base, d) then g else g[Surface(d.path) := Regular(d.content, d.mode)]
  }

  function AfterRemovals(base: Files, p: Preparation, j: Journal): Files {
    (base - set i | 0 <= i < |p.remove| :: Surface(p.remove[i]))[JournalFile := Regular(JournalDoc(j), JOURNAL_MODE)]
  }

  /** The disk of an install stopped once its journal is written, the obsolete files are removed and the
      first n desired files are applied. */
  function StoppedDisk(base: Files, p: Preparation, j: Journal, n: nat): Files
    requires n <= |p.desired|
  {
    AfterEntries(base, p, AfterRemovals(base, p, j), n)
  }

  lemma EntryApplied(base: Files, p: Preparation, before: Files, after: Files, n: nat)
    requires n < |p.desired| && ProceedsAt(base, p, n) && UpToAt(base, p, before, n, p.desired[n].path)
    requires var d := p.desired[n]; after == if Installed(base, d) then before else before[Surface(d.path) := Regular(d.content, d.mode)]
    ensures UpToAt(base, p, after, n + 1, p.desired[n].path) && OnlyChanged(before, after, p.desired[n].path)
  {
    FirstWriteStep(base, p.desired, n, p.desired[n].path);
  }

  lemma NothingAppliedYet(base: Files, p: Preparation, j: Journal)
    requires SeparateTargets(p)
    ensures DesiredUpTo(base, p, AfterRemovals(base, p, j), AfterRemovals(base, p, j), 0)
  {
    forall i | 0 <= i < |p.desired| ensures UpToAt(base, p, AfterRemovals(base, p, j), 0, p.desired[i].path) {}
  }

  /** It is the disk that the loop over the desired files has after n turns. */
  lemma {:induction false} StoppedUpTo(base: Files, p: Preparation, j: Journal, n: nat)
    requires SeparateTargets(p) && ProceedsTo(base, p, n)
    ensures DesiredUpTo(base, p, AfterRemovals(base, p, j), StoppedDisk(base, p, j, n), n)
    ensures HasJournal(StoppedDisk(base, p, j, n), j)
  {
    var start := AfterRemovals(base, p, j);
    if n == 0 {
      NothingAppliedYet(base, p, j);
    } else {
      ProceedsNext(base, p, n - 1);
      StoppedUpTo(base, p, j, n - 1);
      StoppedNext(base, p, start, StoppedDisk(base, p, j, n - 1), StoppedDisk(base, p, j, n), n - 1);
    }
  }

  lemma StoppedNext(base: Files, p: Preparation, start: Files, before: Files, after: Files, n: nat)
    requires n < |p.desired| && ProceedsAt(base, p, n) && DesiredUpTo(base, p, start, before, n)
    requires var d := p.desired[n]; after == if Installed(base, d) then before else before[Surface(d.path) := Regular(d.content, d.mode)]
    ensures DesiredUpTo(base, p, start, after, n + 1)
  {
    assert UpToAt(base, p, before, n, p.desired[n].path);
    EntryApplied(base, p, before, after, n);
    DesiredNext(base, p, start, before, after, n);
  }

  /** What the first entries wrote is a write a run reaches. */
  lemma {:induction false} FirstWriteReached(base: Files, p: Preparation, n: nat, rel: Name) returns (m: nat)
    requires ProceedsTo(base, p, n) && FirstWrite(base, p.desired[..n], rel).Some?
    ensures m < n && Reached(base, p, m) && p.desired[m].path == rel && FirstWrite(base, p.desired[..n], rel) == Some(ImageFor(p.desired[m]))
  {
    FirstWriteStep(base, p.desired, n - 1, rel);
    if FirstWrite(base, p.desired[..n - 1], rel).Some? {
      m := FirstWriteReached(base, p, n - 1, rel);
    } else {
      m := n - 1;
    }
  }

  lemma StoppedElsewhere(base: Files, p: Preparation, j: Journal, n: nat, rel: Name)
    requires SeparateTargets(p) && ProceedsTo(base, p, n) && forall i :: 0 <= i < |p.desired| ==> rel != p.desired[i].path
    ensures Lookup(StoppedDisk(base, p, j, n), Surface(rel)) == if rel in p.remove then None else Lookup(base, Surface(rel))
  {
    StoppedUpTo(base, p, j, n);
    assert Lookup(StoppedDisk(base, p, j, n), Surface(rel)) == Lookup(AfterRemovals(base, p, j), Surface(rel));
  }

  lemma StoppedSurfaceKnown(base: Files, p: Preparation, j: Journal, n: nat, s: JournalSurface)
    requires SeparateTargets(p) && ProceedsTo(base, p, n) && JournalFor(base, p, j) && s in j.surfaces
    ensures Known(base, p, StoppedDisk(base, p, j, n), s) && (s.path == State ==> IsPre(StoppedDisk(base, p, j, n), s))
  {
    var f := StoppedDisk(base, p, j, n);
    var k :| 0 <= k < |j.surfaces| && j.surfaces[k] == s;
    assert IsPre(base, s);
    if i :| 0 <= i < |p.desired| && p.desired[i].path == s.path {
      StoppedUpTo(base, p, j, n);
      assert UpToAt(base, p, f, n, p.desired[i].path);
      if FirstWrite(base, p.desired[..n], s.path).Some? {
        var m := FirstWriteReached(base, p, n, s.path);
        assert MayWrite(base, p, s.path, ImageFor(p.desired[m]));
      }
    } else {
      StoppedElsewhere(base, p, j, n, s.path);
      assert s.path in p.remove ==> Targeted(j, s.path, Absent);
    }
  }

  /** Every such disk fits the install stopped there, before the state was written. */
  lemma StoppedFits(base: Files, p: Preparation, j: Journal, n: nat)
    requires SeparateTargets(p) && ProceedsTo(base, p, n) && JournalFor(base, p, j)
    ensures Attempted(base, p, Some(j), false, StoppedDisk(base, p, j, n))
  {
    var f := StoppedDisk(base, p, j, n);
    StoppedUpTo(base, p, j, n);
    forall i | 0 <= i < |j.surfaces|
      ensures Known(base, p, f, j.surfaces[i]) && (j.surfaces[i].path == State ==> IsPre(f, j.surfaces[i]))
    {
      StoppedSurfaceKnown(base, p, j, n, j.surfaces[i]);
    }
    forall rel | forall i :: 0 <= i < |j.surfaces| ==> rel != j.surfaces[i].path
      ensures Lookup(f, Surface(rel)) == Lookup(base, Surface(rel))
    {
      assert rel in p.remove ==> Targeted(j, rel, Absent);
      assert forall i :: 0 <= i < |p.desired| ==> Targeted(j, p.desired[i].path, DesiredPost(p.desired, p.desired[i].path).value);
      StoppedElsewhere(base, p, j, n, rel);
    }
  }

  /** It holds the write of exactly the entries reached so far. */
  lemma StoppedHolds(base: Files, p: Preparation, j: Journal, n: nat, m: nat)
    requires SeparateTargets(p) && ProceedsTo(base, p, n) && Reached(base, p, m)
    ensures Matches(StoppedDisk(base, p, j, n), p.desired[m].path, ImageFor(p.desired[m])) <==> m < n
  {
    var f, rel := StoppedDisk(base, p, j, n), p.desired[m].path;
    StoppedUpTo(base, p, j, n);
    assert UpToAt(base, p, f, n, rel) && ProceedsAt(base, p, m);
    if m < n {
      FirstWriteStep(base, p.desired, m, rel);
      FirstWriteStays(base, p.desired, m + 1, n, rel);
    } else if FirstWrite(base, p.desired[..n], rel).Some? {
      FirstWriteStays(base, p.desired, n, m, rel);
    }
  }

  /** The exact condition on the plan: an install stopped anywhere among its file steps can be recovered
      exactly when whatever a run writes is the journalled postimage; and a run that gets to another write
      leaves, right after it, a disk that fits the stopped install and that every recovery refuses. */
  lemma StopsRecoverIff(base: Files, p: Preparation, j: Journal)
    requires SeparateTargets(p) && JournalFor(base, p, j)
    ensures (forall n: nat :: ProceedsTo(base, p, n) ==> Recoverable(j, StoppedDisk(base, p, j, n))) <==> WritesJournalled(base, p)
    ensures forall n: nat :: ProceedsTo(base, p, n) ==> Attempted(base, p, Some(j), false, StoppedDisk(base, p, j, n))
    ensures forall n: nat :: Reached(base, p, n) && DesiredPost(p.desired, p.desired[n].path) != Some(ImageFor(p.desired[n])) ==>
              !Recoverable(j, StoppedDisk(base, p, j, n + 1))
  {
    forall n: nat | ProceedsTo(base, p, n)
      ensures Attempted(base, p, Some(j), false, StoppedDisk(base, p, j, n))
      ensures WritesJournalled(base, p) ==> Recoverable(j, StoppedDisk(base, p, j, n))
    {
      StoppedFits(base, p, j, n);
      StoppedUpTo(base, p, j, n);
      EarlyCrashIff(base, p, j, StoppedDisk(base, p, j, n));
    }
    forall n: nat | Reached(base, p, n) && DesiredPost(p.desired, p.desired[n].path) != Some(ImageFor(p.desired[n]))
      ensures ProceedsTo(base, p, n + 1) && !Recoverable(j, StoppedDisk(base, p, j, n + 1))
    {
      StoppedFits(base, p, j, n + 1);
      StoppedUpTo(base, p, j, n + 1);
      StoppedHolds(base, p, j, n + 1, n);
      assert ForeignWrite(base, p, StoppedDisk(base, p, j, n + 1), n);
      EarlyCrashIff(base, p, j, StoppedDisk(base, p, j, n + 1));
    }
  }

  /** A plan that names every target once writes only what is journalled. */
  lemma DistinctIsJournalled(base: Files, p: Preparation)
    requires forall i, k :: 0 <= i < k < |p.desired| ==> p.desired[i].path != p.desired[k].path
    ensures WritesJournalled(base, p)
  {
    forall n: nat | Reached(base, p, n) ensures DesiredPost(p.desired, p.desired[n].path) == Some(ImageFor(p.desired[n])) {
      var k := LastDesired(p.desired, p.desired[n].path);
    }
  }

  /** A first install whose source tree names one path twice, with different contents, does get to such a write. */
  lemma RepeatedTargetSticks(rel: Name, x: string, y: string, mode: nat) returns (p: Preparation, j: Journal)
    requires rel.Managed? && ValidSurfacePath(rel) && x != y
    ensures p.desired == [DesiredFile(rel, Bytes(x), mode), DesiredFile(rel, Bytes(y), mode)]
    ensures SeparateTargets(p) && JournalFor(map[], p, j) && !WritesJournalled(map[], p)
    ensures !Recoverable(j, StoppedDisk(map[], p, j, 1))
  {
    p := Preparation([DesiredFile(rel, Bytes(x), mode), DesiredFile(rel, Bytes(y), mode)], [],
      ConfigPlan(false, Absent, "", 0, None), None, Absent);
    j := Journal([JournalSurface(State, Absent, Present(PlannedState(p), STATE_MODE)), JournalSurface(rel, Absent, Present(Bytes(y), mode))]);
    assert p.desired[0].path == rel && p.desired[1].path == rel;
    assert p.desired[..1] == [p.desired[0]] && p.desired[..1][..0] == [];
    assert Journalled(map[], p, j.surfaces[0], State) && Journalled(map[], p, j.surfaces[1], rel);
    JournalFits(map[], p, [State, rel], j.surfaces);
    assert ProceedsAt(map[], p, 0) && Reached(map[], p, 0);
    StopsRecoverIff(map[], p, j);
  }

  // ---------------------------------------------------------------- the stop after the state commit

  /** The disk of an install stopped between the state commit and the removal of the journal. */
  function CommittedDisk(base: Files, p: Preparation, j: Journal): Files {
    WithConfig(base, p, j)[Surface(State) := Regular(PlannedState(p), STATE_MODE)]
  }

  function WithConfig(base: Files, p: Preparation, j: Journal): Files {
    var f := StoppedDisk(base, p, j, |p.desired|);
    if p.config.changed then f[Surface(Config) := Regular(Bytes(p.config.next), p.config.mode)] else f
  }

  lemma WithConfigLanded(base: Files, p: Preparation, j: Journal)
    requires SeparateTargets(p) && JournalFor(base, p, j) && ProceedsTo(base, p, |p.desired|)
    ensures InFlight(base, p, j, WithConfig(base, p, j)) && FilesLanded(base, p, WithConfig(base, p, j))
  {
    var f := StoppedDisk(base, p, j, |p.desired|);
    StoppedFits(base, p, j, |p.desired|);
    StoppedUpTo(base, p, j, |p.desired|);
    DesiredApplied(base, p, AfterRemovals(base, p, j), f);
    if p.config.changed {
      assert Targeted(j, Config, Present(Bytes(p.config.next), p.config.mode));
      RewriteInFlight(base, p, j, f, WithConfig(base, p, j), Config, Present(Bytes(p.config.next), p.config.mode));
    }
    forall rel | rel in p.remove ensures Matches(WithConfig(base, p, j), rel, Absent) {
      StoppedElsewhere(base, p, j, |p.desired|, rel);
    }
  }

  /** For every plan whose steps apply, that disk fits the install stopped there, and recovery refuses it for
      good exactly when the modes were not settled and the state changed. */
  lemma CommittedFits(base: Files, p: Preparation, j: Journal)
    requires SeparateTargets(p) && JournalFor(base, p, j) && PlansApply(base, p)
    ensures Attempted(base, p, Some(j), true, CommittedDisk(base, p, j)) && HasJournal(CommittedDisk(base, p, j), j)
    ensures Stuck(j, CommittedDisk(base, p, j)) <==>
              !ModeSettled(base, p) && !Matches(base, State, Present(PlannedState(p), STATE_MODE))
  {
    WithConfigLanded(base, p, j);
    StateLands(base, p, j, WithConfig(base, p, j), CommittedDisk(base, p, j));
    CommittedCrashIff(base, p, j, CommittedDisk(base, p, j));
  }

  /** One owned file with its content unchanged and a new mode, and one new file. */
  function ModeChangingPlan(kept: Name, added: Name, x: string, y: string, mode: nat): Preparation {
    Preparation([DesiredFile(kept, Bytes(x), mode), DesiredFile(added, Bytes(y), mode)], [],
      ConfigPlan(false, Absent, "", 0, None), Some(map[kept := Bytes(x)]), Present(StateDoc([(kept, Bytes(x))], None), STATE_MODE))
  }

  function ModeChangingJournal(kept: Name, added: Name, x: string, y: string, before: nat, mode: nat): Journal {
    var p := ModeChangingPlan(kept, added, x, y, mode);
    Journal([JournalSurface(State, p.stateBackup, Present(PlannedState(p), STATE_MODE)),
             JournalSurface(kept, Present(Bytes(x), before), Present(Bytes(x), mode)),
             JournalSurface(added, Absent, Present(Bytes(y), mode))])
  }

  function ModeChangingBase(kept: Name, x: string, before: nat): Files {
    map[Surface(State) := Regular(StateDoc([(kept, Bytes(x))], None), STATE_MODE), Surface(kept) := Regular(Bytes(x), before)]
  }

  predicate ModeChange(kept: Name, added: Name, before: nat, mode: nat) {
    kept.Managed? && added.Managed? && kept != added && ValidSurfacePath(kept) && ValidSurfacePath(added) && before != mode
  }

  lemma ModeChangePosts(kept: Name, added: Name, x: string, y: string, before: nat, mode: nat)
    requires ModeChange(kept, added, before, mode)
    ensures var p := ModeChangingPlan(kept, added, x, y, mode);
            && DesiredPost(p.desired, added) == Some(Present(Bytes(y), mode))
            && DesiredPost(p.desired, kept) == Some(Present(Bytes(x), mode)) && DesiredPost(p.desired, State).None?
  {
    var p := ModeChangingPlan(kept, added, x, y, mode);
    assert p.desired[..1] == [p.desired[0]] && p.desired[..1][..0] == [];
    assert DesiredPost(p.desired, kept) == DesiredPost(p.desired[..1], kept);
  }

  lemma ModeChangeJournalled(kept: Name, added: Name, x: string, y: string, before: nat, mode: nat)
    requires ModeChange(kept, added, before, mode)
    ensures SeparateTargets(ModeChangingPlan(kept, added, x, y, mode))
    ensures JournalFor(ModeChangingBase(kept, x, before), ModeChangingPlan(kept, added, x, y, mode),
                       ModeChangingJournal(kept, added, x, y, before, mode))
  {
    var base, p, j := ModeChangingBase(kept, x, before), ModeChangingPlan(kept, added, x, y, mode),
      ModeChangingJournal(kept, added, x, y, before, mode);
    ModeChangePosts(kept, added, x, y, before, mode);
    var paths := [State, kept, added];
    forall rel ensures rel in paths <==> PlannedSurface(p, rel) {
      assert p.desired[0].path == kept && p.desired[1].path == added;
    }
    assert Journalled(base, p, j.surfaces[0], paths[0]);
    assert Journalled(base, p, j.surfaces[1], paths[1]);
    assert Journalled(base, p, j.surfaces[2], paths[2]);
    JournalFits(base, p, paths, j.surfaces);
  }

  /** The condition fails for real installs: when the mode of one unchanged file differs from its source and
      another file is new, the disk right after the state commit can be neither undone nor completed. */
  lemma ModeMismatchSticks(kept: Name, added: Name, x: string, y: string, before: nat, mode: nat)
    requires ModeChange(kept, added, before, mode)
    ensures var base, p, j := ModeChangingBase(kept, x, before), ModeChangingPlan(kept, added, x, y, mode),
              ModeChangingJournal(kept, added, x, y, before, mode);
            && SeparateTargets(p) && JournalFor(base, p, j) && PlansApply(base, p) && WritesJournalled(base, p)
            && Stuck(j, CommittedDisk(base, p, j))
  {
    var base, p, j := ModeChangingBase(kept, x, before), ModeChangingPlan(kept, added, x, y, mode),
      ModeChangingJournal(kept, added, x, y, before, mode);
    ModeChangeJournalled(kept, added, x, y, before, mode);
    ModeChangePosts(kept, added, x, y, before, mode);
    ModeChangeProceeds(kept, added, x, y, before, mode);
    ProceedingIsJournalled(base, p);
    assert p.desired[0].path == kept;
    assert DesiredRecords(p.desired)[1] == (added, Bytes(y));
    assert |StateDoc([(kept, Bytes(x))], None).files| != |PlannedState(p).files|;
    CommittedFits(base, p, j);
  }

  lemma ModeChangeProceeds(kept: Name, added: Name, x: string, y: string, before: nat, mode: nat)
    requires ModeChange(kept, added, before, mode)
    ensures var base, p := ModeChangingBase(kept, x, before), ModeChangingPlan(kept, added, x, y, mode);
            PlansApply(base, p) && Applied(base, p, kept) == Some(Present(Bytes(x), before))
  {
    var base, p := ModeChangingBase(kept, x, before), ModeChangingPlan(kept, added, x, y, mode);
    assert p.desired[..0] == [] && p.desired[..2] == p.desired;
    FirstWriteStep(base, p.desired, 0, kept);
    FirstWriteStep(base, p.desired, 0, added);
    FirstWriteStep(base, p.desired, 1, kept);
    assert Installed(base, p.desired[0]);
    assert ProceedsAt(base, p, 0) && ProceedsAt(base, p, 1);
  }
}
