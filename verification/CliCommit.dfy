/** The commit phase of a CLI install and the whole install command. */
module CliCommit {
  import opened Results
  import opened FaultyDisk
  import opened CliJournal
  import opened CliRecovery
  import opened CliInstall

  /** A durable, recoverable journal of the transaction that started from `base`. */
  ghost predicate Durable(base: Files, j: Journal, f: Files) {
    && Recoverable(j, f) && Untouched(j, base, f)
    && JournalFile in f && f[JournalFile].Regular? && f[JournalFile].content == JournalDoc(j)
  }

  method SaveJournal(disk: CliDisk, ghost base: Files, j: Journal) returns (ok: bool)
    requires Armed(j, disk.files) && TempsAdded(base, disk.files)
    modifies disk
    ensures disk.faults >= old(disk.faults)
    ensures ok ==> Armed(j, disk.files) && Durable(base, j, disk.files) && disk.faults == old(disk.faults)
    ensures !ok ==> Scratch(old(disk.files), disk.files) && disk.faults > old(disk.faults)
  {
    var id: nat := *;
    ghost var armed := disk.files;
    ok := disk.WriteTemp(JournalTemp(id), JournalDoc(j), PRIVATE);
    if !ok { return; }
    ok := disk.Rename(JournalTemp(id), JournalFile);
    if !ok {
      RemoveTemp(disk, JournalTemp(id));
      return;
    }
    assert disk.files == armed[JournalFile := Regular(JournalDoc(j), PRIVATE)];
    JournalKeepsArmed(j, armed, Regular(JournalDoc(j), PRIVATE));
    forall p | !Temp(p) && p != JournalFile ensures Lookup(disk.files, p) == Lookup(base, p) {
      assert p in base || p !in armed;
    }
  }

  lemma JournalKeepsArmed(j: Journal, f: Files, doc: File<Content>)
    requires Armed(j, f)
    ensures Armed(j, f[JournalFile := doc])
  {
    var f' := f[JournalFile := doc];
    forall i | 0 <= i < |j.binaries| ensures SoundBinary(j, f', j.binaries[i]) && ArmedBinary(j.binaries[i], f') && IsPre(f', j.binaries[i]) {
      var b := j.binaries[i];
      assert ValidBinary(b) && StagedBinary(j, b) && SoundBinary(j, f, b) && ArmedBinary(b, f) && IsPre(f, b);
    }
  }

  /** Progress of the commit: the first n binaries are postimages, the others are still armed. */
  ghost predicate Committing(j: Journal, f: Files, n: nat) {
    && n <= |j.binaries| && Recoverable(j, f) && StatePre(j, f) && j.stateTemp in f
    && (forall i :: 0 <= i < n ==> IsPost(f, j.binaries[i]))
    && (forall i :: n <= i < |j.binaries| ==> IsPre(f, j.binaries[i]) && ArmedBinary(j.binaries[i], f))
  }

  lemma CommitNext(base: Files, j: Journal, f: Files, n: nat)
    requires Durable(base, j, f) && Committing(j, f, n) && n < |j.binaries|
    ensures j.binaries[n].replacement in f && j.binaries[n].replacement != j.binaries[n].target
    ensures var f' := Installed(f, j.binaries[n]);
            Durable(base, j, f') && Committing(j, f', n + 1)
  {
    var b := j.binaries[n];
    assert ArmedBinary(b, f) && ValidBinary(b);
    InstallKeeps(j, f, n);
    var f' := Installed(f, b);
    forall i | n + 1 <= i < |j.binaries| ensures IsPre(f', j.binaries[i]) && ArmedBinary(j.binaries[i], f') {
      TempsDiffer(j, n, i);
      TempsDiffer(j, i, n);
      assert ValidBinary(j.binaries[i]) && StagedBinary(j, j.binaries[i]) && ArmedBinary(j.binaries[i], f);
    }
    UntouchedComposes(j, base, f, f');
  }

  lemma UntouchedComposes(j: Journal, a: Files, b: Files, c: Files)
    requires Untouched(j, a, b) && Untouched(j, b, c)
    ensures Untouched(j, a, c)
  {
    forall p | !Temp(p) && p != JournalFile && p != StateFile && (forall i :: 0 <= i < |j.binaries| ==> p != j.binaries[i].target)
      ensures Lookup(c, p) == Lookup(a, p)
    {
      assert Lookup(b, p) == Lookup(a, p) && Lookup(c, p) == Lookup(b, p);
    }
  }

  /** Undoes the first n renames, last to first, going on after a failure. */
  method Rollback(disk: CliDisk, ghost base: Files, j: Journal, n: nat)
    requires Durable(base, j, disk.files) && StatePre(j, disk.files) && n <= |j.binaries|
    requires forall i :: 0 <= i < n ==> IsPost(disk.files, j.binaries[i])
    modifies disk
    ensures Durable(base, j, disk.files) && StatePre(j, disk.files) && disk.faults >= old(disk.faults)
    ensures disk.faults == old(disk.faults) ==> forall k :: 0 <= k < n ==> IsPre(disk.files, j.binaries[k])
    ensures forall k :: n <= k < |j.binaries| ==>
              Lookup(disk.files, j.binaries[k].target) == Lookup(old(disk.files), j.binaries[k].target)
  {
    var i := n;
    while i > 0
      invariant 0 <= i <= n && disk.faults >= old(disk.faults)
      invariant disk.faults == old(disk.faults) ==> forall k :: i <= k < n ==> IsPre(disk.files, j.binaries[k])
      invariant forall k :: n <= k < |j.binaries| ==>
                  Lookup(disk.files, j.binaries[k].target) == Lookup(old(disk.files), j.binaries[k].target)
      invariant Durable(base, j, disk.files) && StatePre(j, disk.files)
      invariant forall k :: 0 <= k < i ==> IsPost(disk.files, j.binaries[k])
    {
      i := i - 1;
      RestoreKeeps(j, disk.files, i);
      UntouchedComposes(j, base, disk.files, Restored(disk.files, j.binaries[i]));
      var _ := RestorePreimage(disk, j, i);
    }
  }

  method CommitActions(disk: CliDisk, ghost base: Files, j: Journal) returns (ok: bool)
    requires Durable(base, j, disk.files) && Armed(j, disk.files)
    modifies disk
    ensures Durable(base, j, disk.files) && StatePre(j, disk.files) && disk.faults >= old(disk.faults)
    ensures ok ==> Committing(j, disk.files, |j.binaries|) && disk.faults == old(disk.faults)
    ensures !ok ==> disk.faults > old(disk.faults)
  {
    for n := 0 to |j.binaries|
      invariant Durable(base, j, disk.files) && Committing(j, disk.files, n) && disk.faults == old(disk.faults)
    {
      CommitNext(base, j, disk.files, n);
      ok := disk.Rename(j.binaries[n].replacement, j.binaries[n].target);
      if !ok {
        Rollback(disk, base, j, n);
        return;
      }
    }
    return true;
  }

  lemma StateCommits(base: Files, j: Journal, f: Files)
    requires Durable(base, j, f) && Committing(j, f, |j.binaries|)
    ensures j.stateTemp in f
    ensures var f' := f[StateFile := f[j.stateTemp]] - {j.stateTemp};
            Durable(base, j, f') && AllPost(j, f')
  {
    var f' := f[StateFile := f[j.stateTemp]] - {j.stateTemp};
    assert Matches(f, j.stateTemp, j.statePost);
    forall i | 0 <= i < |j.binaries| ensures SoundBinary(j, f', j.binaries[i]) && IsPost(f', j.binaries[i]) {
      var b := j.binaries[i];
      assert ValidBinary(b) && StagedBinary(j, b) && SoundBinary(j, f, b) && IsPost(f, b);
    }
  }

  /** What an apply attempt leaves when it returns, or when it stops anywhere on the way. */
  ghost predicate Attempted(base: Files, actions: seq<Action>, next: InstallState, stateRenamed: bool, f: Files) {
    if JournalFile in f then
      && f[JournalFile].Regular? && f[JournalFile].content.JournalDoc?
      && var j := f[JournalFile].content.journal;
         && Durable(base, j, f) && JournalFor(base, actions, next, j)
         && (if stateRenamed then AllPost(j, f) else StatePre(j, f))
    else if stateRenamed then
      InstalledAs(base, actions, next, f)
    else
      SameInstallation(base, f)
  }

  /** The plan is in force: new state, every changed binary replaced, nothing else touched. */
  ghost predicate InstalledAs(base: Files, actions: seq<Action>, next: InstallState, f: Files) {
    && Matches(f, StateFile, Present(StateDoc(next), PRIVATE))
    && (forall a :: a in Changed(actions) ==> Matches(f, Binary(a.name), Present(a.digest, EXECUTABLE)))
    && forall p :: !Temp(p) && p != JournalFile && p != StateFile && (forall a :: a in Changed(actions) ==> p != Binary(a.name)) ==>
         Lookup(f, p) == Lookup(base, p)
  }

  /** Once the journal is gone, uniformly pre is the old installation and uniformly post the new one. */
  lemma ConcludedMeans(base: Files, actions: seq<Action>, next: InstallState, j: Journal, post: bool, f: Files)
    requires JournalFor(base, actions, next, j) && Untouched(j, base, f)
    requires if post then AllPost(j, f) else AllPre(j, f)
    requires forall i :: 0 <= i < |j.binaries| ==> ValidBinary(j.binaries[i])
    ensures if post then InstalledAs(base, actions, next, f) else SameInstallation(base, f)
  {
    if post {
      forall a | a in Changed(actions) ensures Matches(f, Binary(a.name), Present(a.digest, EXECUTABLE)) {
        var i :| 0 <= i < |j.binaries| && Changed(actions)[i] == a;
        assert PlannedBinary(j.binaries[i], a) && IsPost(f, j.binaries[i]);
      }
      forall p | !Temp(p) && p != JournalFile && p != StateFile && (forall a :: a in Changed(actions) ==> p != Binary(a.name))
        ensures Lookup(f, p) == Lookup(base, p)
      {
        forall i | 0 <= i < |j.binaries| ensures p != j.binaries[i].target {
          assert PlannedBinary(j.binaries[i], Changed(actions)[i]) && Changed(actions)[i] in Changed(actions);
        }
      }
    } else {
      forall p | !Temp(p) && p != JournalFile ensures Lookup(f, p) == Lookup(base, p) {
        if i :| 0 <= i < |j.binaries| && p == j.binaries[i].target {
          assert IsPre(f, j.binaries[i]) && IsPre(base, j.binaries[i]);
        }
      }
    }
  }

  /** After a failed commit: cleans up when everything is back, otherwise leaves the journal. */
  method FinishFailed(disk: CliDisk, ghost base: Files, ghost actions: seq<Action>, ghost next: InstallState, j: Journal)
    requires Durable(base, j, disk.files) && StatePre(j, disk.files) && JournalFor(base, actions, next, j)
    modifies disk
    ensures Attempted(base, actions, next, false, disk.files) && disk.faults >= old(disk.faults)
  {
    assert forall i :: 0 <= i < |j.binaries| ==> ValidBinary(j.binaries[i]);
    var o := Observe(disk, j);
    if o.Fail? || !o.value.statePre { return; }
    for i := 0 to |j.binaries|
      invariant forall k :: 0 <= k < i ==> IsPre(disk.files, j.binaries[k])
    {
      if !o.value.binaries[i].pre { return; }
    }
    var ok := ValidateEvidence(disk, j, o.value);
    if !ok { return; }
    ghost var uniform := disk.files;
    ok := Cleanup(disk, j);
    SameThenUntouched(j, base, uniform, disk.files);
    if ok { ConcludedMeans(base, actions, next, j, false, disk.files); }
  }

  lemma SameThenUntouched(j: Journal, base: Files, f: Files, f': Files)
    requires Untouched(j, base, f) && SameInstallation(f, f')
    ensures Untouched(j, base, f')
  {
    forall p | !Temp(p) && p != JournalFile && p != StateFile && (forall i :: 0 <= i < |j.binaries| ==> p != j.binaries[i].target)
      ensures Lookup(f', p) == Lookup(base, p)
    {
      assert Lookup(f', p) == Lookup(f, p);
    }
  }

  method FinishCommitted(disk: CliDisk, ghost base: Files, ghost actions: seq<Action>, ghost next: InstallState, j: Journal) returns (ok: bool)
    requires Durable(base, j, disk.files) && AllPost(j, disk.files) && JournalFor(base, actions, next, j)
    modifies disk
    ensures Attempted(base, actions, next, true, disk.files) && disk.faults >= old(disk.faults)
    ensures ok ==> JournalFile !in disk.files && disk.faults == old(disk.faults)
    ensures !ok ==> disk.faults > old(disk.faults)
  {
    assert forall i :: 0 <= i < |j.binaries| ==> ValidBinary(j.binaries[i]) && SoundBinary(j, disk.files, j.binaries[i]);
    var o := Observe(disk, j);
    if o.Fail? || !o.value.statePost { return false; }
    for i := 0 to |j.binaries| {
      if !o.value.binaries[i].post { return false; }
    }
    RecoverableHasEvidence(j, disk.files, o.value);
    ok := ValidateEvidence(disk, j, o.value);
    if !ok { return; }
    ghost var uniform := disk.files;
    ok := Cleanup(disk, j);
    SameThenUntouched(j, base, uniform, disk.files);
    if ok { ConcludedMeans(base, actions, next, j, true, disk.files); }
  }

  // ---------------------------------------------------------------- the whole install

  /** Applies a plan.  Wherever its calls fail, the old installation is intact, or the new one is
      in force, or a durable journal of exactly this plan is left; once the state file was renamed
      the outcome is the new installation. */
  method ApplyInstall(disk: CliDisk, ghost build: Build, ghost state: InstallState, actions: seq<Action>, next: InstallState)
    returns (ok: bool, ghost stateRenamed: bool)
    requires Planned(build, state, disk.files, actions, next) && StateOf(Lookup(disk.files, StateFile)) == Some(state)
    requires JournalFile !in disk.files
    modifies disk
    ensures Attempted(old(disk.files), actions, next, stateRenamed, disk.files)
    ensures ok ==> stateRenamed && JournalFile !in disk.files
    ensures !ok ==> disk.faults > old(disk.faults) || UnusableState(old(disk.files))
    ensures disk.faults >= old(disk.faults)
  {
    ghost var base := disk.files;
    stateRenamed := false;
    var changed := ChangedActions(actions);
    var id: nat := *;
    var stateTemp := StateTemp(id);
    ok := disk.WriteTemp(stateTemp, StateDoc(next), PRIVATE);
    if !ok { return; }
    if changed == [] {
      ok := disk.Rename(stateTemp, StateFile);
      if ok { stateRenamed := true; } else { RemoveTemp(disk, stateTemp); }
      return;
    }
    var journal := PrepareJournal(disk, base, build, state, actions, next, stateTemp, changed);
    if journal.Fail? {
      RemoveTemp(disk, stateTemp);
      return false, false;
    }
    ok, stateRenamed := CommitJournal(disk, base, actions, next, journal.value);
  }

  /** Stages every changed binary and makes the journal durable; a failure removes the staged files. */
  method PrepareJournal(disk: CliDisk, ghost base: Files, ghost build: Build, ghost state: InstallState, ghost actions: seq<Action>,
                        next: InstallState, stateTemp: Path, changed: seq<Action>) returns (r: Result<Journal>)
    requires Planned(build, state, base, actions, next) && StateOf(Lookup(base, StateFile)) == Some(state)
    requires changed == Changed(actions) != [] && JournalFile !in base && TempsAdded(base, disk.files)
    requires stateTemp.StateTemp? && Matches(disk.files, stateTemp, Present(StateDoc(next), PRIVATE))
    modifies disk
    ensures disk.faults >= old(disk.faults)
    ensures r.Ok? ==> Armed(r.value, disk.files) && Durable(base, r.value, disk.files)
    ensures r.Ok? ==> JournalFor(base, actions, next, r.value) && disk.faults == old(disk.faults)
    ensures r.Fail? ==> Scratch(old(disk.files), disk.files) && (disk.faults > old(disk.faults) || UnusableState(base))
  {
    ForChanged(build, state, base, disk.files, actions, next);
    var staged := StageActions(disk, changed);
    if staged.Fail? { return Fail; }
    TempsAddedComposes(base, old(disk.files), disk.files);
    r := JournalStaged(disk, base, build, state, actions, next, stateTemp, staged.value);
    if r.Fail? { CleanupStaged(disk, staged.value); }
  }

  method JournalStaged(disk: CliDisk, ghost base: Files, ghost build: Build, ghost state: InstallState, ghost actions: seq<Action>,
                       next: InstallState, stateTemp: Path, staged: seq<StagedAction>) returns (r: Result<Journal>)
    requires Planned(build, state, base, actions, next) && StateOf(Lookup(base, StateFile)) == Some(state)
    requires TempsAdded(base, disk.files)
    requires stateTemp.StateTemp? && Matches(disk.files, stateTemp, Present(StateDoc(next), PRIVATE))
    requires Changed(actions) != [] && |staged| == |Changed(actions)|
    requires forall i :: 0 <= i < |staged| ==> staged[i].action == Changed(actions)[i] && Ready(disk.files, staged[i])
    modifies disk
    ensures disk.faults >= old(disk.faults)
    ensures r.Ok? ==> Armed(r.value, disk.files) && Durable(base, r.value, disk.files)
    ensures r.Ok? ==> JournalFor(base, actions, next, r.value) && disk.faults == old(disk.faults)
    ensures r.Fail? ==> Scratch(old(disk.files), disk.files) && (disk.faults > old(disk.faults) || UnusableState(base))
  {
    r := NewJournal(disk, base, build, state, actions, next, stateTemp, staged);
    if r.Fail? { return; }
    var ok := SaveJournal(disk, base, r.value);
    if !ok { r := Fail; }
  }

  /** A state file whose permission bits are all clear cannot be journalled. */
  predicate UnusableState(f: Files) {
    StateFile in f && f[StateFile].Regular? && f[StateFile].mode == 0
  }

  method CommitJournal(disk: CliDisk, ghost base: Files, ghost actions: seq<Action>, ghost next: InstallState, j: Journal)
    returns (ok: bool, ghost stateRenamed: bool)
    requires Armed(j, disk.files) && Durable(base, j, disk.files) && JournalFor(base, actions, next, j)
    modifies disk
    ensures Attempted(base, actions, next, stateRenamed, disk.files) && disk.faults >= old(disk.faults)
    ensures ok ==> stateRenamed && JournalFile !in disk.files
    ensures !ok ==> disk.faults > old(disk.faults)
  {
    stateRenamed := false;
    ok := CommitActions(disk, base, j);
    if !ok {
      FinishFailed(disk, base, actions, next, j);
      return;
    }
    StateCommits(base, j, disk.files);
    ok := disk.Rename(j.stateTemp, StateFile);
    if !ok {
      Rollback(disk, base, j, |j.binaries|);
      FinishFailed(disk, base, actions, next, j);
      return;
    }
    stateRenamed := true;
    ok := FinishCommitted(disk, base, actions, next, j);
  }

  lemma ForChanged(build: Build, state: InstallState, base: Files, f: Files, actions: seq<Action>, next: InstallState)
    requires Planned(build, state, base, actions, next) && TempsAdded(base, f)
    ensures forall i :: 0 <= i < |Changed(actions)| && Changed(actions)[i].hadTarget ==>
              Lookup(f, Binary(Changed(actions)[i].name)).Some? && f[Binary(Changed(actions)[i].name)].Regular?
              && f[Binary(Changed(actions)[i].name)].mode == EXECUTABLE
  {
    forall i | 0 <= i < |Changed(actions)| && Changed(actions)[i].hadTarget
      ensures Lookup(f, Binary(Changed(actions)[i].name)).Some? && f[Binary(Changed(actions)[i].name)].Regular?
              && f[Binary(Changed(actions)[i].name)].mode == EXECUTABLE
    {
      PlannedPreimage(build, state, base, f, actions, next, Changed(actions)[i]);
    }
  }

  lemma TempsAddedComposes(a: Files, b: Files, c: Files)
    requires TempsAdded(a, b) && TempsAdded(b, c)
    ensures TempsAdded(a, c)
  {
  }

  method LoadState(disk: CliDisk) returns (r: Result<InstallState>)
    modifies disk`faults
    ensures r.Ok? ==> StateOf(Lookup(disk.files, StateFile)) == Some(r.value) && disk.faults == old(disk.faults)
    ensures r.Fail? ==> disk.faults > old(disk.faults) || StateOf(Lookup(disk.files, StateFile)).None?
    ensures disk.faults >= old(disk.faults)
  {
    var file := disk.Read(StateFile);
    if file.Fail? { return Fail; }
    var state := StateOf(file.value);
    r := if state.Some? then Ok(state.value) else Fail;
  }


  /** The plan an attempt worked from; None when it stopped before there was one. */
  datatype Attempt = NoPlan | PlanMade(actions: seq<Action>, next: InstallState)

  ghost predicate Settled(base: Files, attempt: Attempt, stateRenamed: bool, f: Files) {
    match attempt
    case NoPlan => f == base && !stateRenamed
    case PlanMade(actions, next) => Attempted(base, actions, next, stateRenamed, f)
  }

  ghost predicate CanPlan(build: Build, f: Files) {
    && !UnusableState(f) && StateOf(Lookup(f, StateFile)).Some?
    && forall name :: name in MANAGED_NAMES ==> Plannable(build, StateOf(Lookup(f, StateFile)).value, f, name)
  }

  /** Every managed binary is the one in the build directory. */
  ghost predicate Current(build: Build, f: Files) {
    forall name :: name in MANAGED_NAMES ==>
      && name in build && build[name].Regular?
      && Binary(name) in f && f[Binary(name)].Regular? && f[Binary(name)].content == build[name].content
  }

  method InstallUnlocked(disk: CliDisk, build: Build) returns (ok: bool, ghost attempt: Attempt, ghost stateRenamed: bool)
    requires JournalFile !in disk.files
    modifies disk
    ensures Settled(old(disk.files), attempt, stateRenamed, disk.files)
    ensures ok ==> stateRenamed && JournalFile !in disk.files && Current(build, disk.files) && Recorded(build, disk.files)
    ensures ok ==> Executables(build)
    ensures disk.faults == old(disk.faults) && CanPlan(build, old(disk.files)) ==> ok
    ensures ok && FreshOrOwned(old(disk.files)) ==> BuildOwned(build, disk.files)
    ensures disk.faults >= old(disk.faults)
  {
    attempt, stateRenamed := NoPlan, false;
    var state := LoadState(disk);
    if state.Fail? { return false, NoPlan, false; }
    var plan := PlanInstall(disk, build, state.value);
    if plan.Fail? { return false, NoPlan, false; }
    var actions, next := plan.value.0, plan.value.1;
    attempt := PlanMade(actions, next);
    ghost var base := disk.files;
    ok, stateRenamed := ApplyInstall(disk, build, state.value, actions, next);
    if ok {
      InstalledIsCurrent(build, state.value, base, actions, next, disk.files);
      PlannedIsRecorded(build, state.value, base, actions, next);
      PlannedIsExecutable(build, state.value, base, actions, next);
      if FreshOrOwned(base) {
        FreshOrOwnedBecomesOwned(build, state.value, base, actions, next, disk.files);
      }
    }
  }

  lemma InstalledIsCurrent(build: Build, state: InstallState, base: Files, actions: seq<Action>, next: InstallState, f: Files)
    requires Planned(build, state, base, actions, next) && InstalledAs(base, actions, next, f)
    ensures Current(build, f)
  {
    ManagedNamesDiffer();
    forall name | name in MANAGED_NAMES
      ensures name in build && build[name].Regular?
      ensures Binary(name) in f && f[Binary(name)].Regular? && f[Binary(name)].content == build[name].content
    {
      var i :| 0 <= i < |MANAGED_NAMES| && MANAGED_NAMES[i] == name;
      assert actions[i].name == name && PlannedAction(build, state, base, actions[i]);
      if actions[i].change {
        assert actions[i] in Changed(actions);
      } else {
        assert forall a :: a in Changed(actions) ==> a.name != name;
        assert Lookup(f, Binary(name)) == Lookup(base, Binary(name));
      }
    }
  }

  lemma SettledIsSound(base: Files, attempt: Attempt, stateRenamed: bool, f: Files)
    requires JournalFile !in base && Settled(base, attempt, stateRenamed, f)
    ensures Sound(f)
  {
  }

  /** The ownership state names every managed binary of the build, and owns none with another digest. */
  ghost predicate Recorded(build: Build, f: Files) {
    exists next :: Matches(f, StateFile, Present(StateDoc(next), PRIVATE)) && Records(build, next)
  }

  ghost predicate Records(build: Build, next: InstallState) {
    forall name :: name in MANAGED_NAMES ==>
      && name in build && build[name].Regular? && name in next.expected && next.expected[name] == build[name].content
      && (name in next.binaries ==> next.binaries[name] == build[name].content)
  }

  lemma PlannedIsRecorded(build: Build, state: InstallState, base: Files, actions: seq<Action>, next: InstallState)
    requires Planned(build, state, base, actions, next)
    ensures Records(build, next)
  {
    forall name | name in MANAGED_NAMES
      ensures name in build && build[name].Regular? && name in next.expected && next.expected[name] == build[name].content
      ensures name in next.binaries ==> next.binaries[name] == build[name].content
    {
      var i :| 0 <= i < |MANAGED_NAMES| && MANAGED_NAMES[i] == name;
      assert actions[i].name == name && PlannedAction(build, state, base, actions[i]);
    }
  }

  // ---------------------------------------------------------------- what an install needs and leaves

  /** The build offers a regular file with an execute bit under every managed name. */
  ghost predicate Executables(build: Build) {
    forall name :: name in MANAGED_NAMES ==>
      && name in build && build[name].Regular?
      && (build[name].mode % 2 == 1 || build[name].mode / 8 % 2 == 1 || build[name].mode / 64 % 2 == 1)
  }

  lemma PlannedIsExecutable(build: Build, state: InstallState, base: Files, actions: seq<Action>, next: InstallState)
    requires Planned(build, state, base, actions, next)
    ensures Executables(build)
  {
    forall name | name in MANAGED_NAMES ensures name in build && RegularExecutable(build[name]) {
      var i :| 0 <= i < |MANAGED_NAMES| && MANAGED_NAMES[i] == name;
      assert actions[i].name == name && PlannedAction(build, state, base, actions[i]);
    }
  }

  /** The installed file under this name, if any, is the recorded one; or nothing is recorded for it and it is an
      executable with the build's content. */
  ghost predicate Takes(build: Build, f: Files, owned: map<string, Digest>, name: string) {
    Binary(name) in f ==>
      if name in owned then f[Binary(name)] == Regular(owned[name], 0x1ED)
      else && f[Binary(name)].Regular? && name in build && build[name].Regular? && f[Binary(name)].content == build[name].content
           && (f[Binary(name)].mode % 2 == 1 || f[Binary(name)].mode / 8 % 2 == 1 || f[Binary(name)].mode / 64 % 2 == 1)
  }

  /** What an install needs, read off the disk: executables in the build, no state file or one that is sound and has a
      permission bit, and no foreign file in a target's place. */
  lemma CanPlanIff(build: Build, f: Files)
    ensures CanPlan(build, f) <==>
              && Executables(build)
              && if StateFile !in f then forall name :: name in MANAGED_NAMES ==> Takes(build, f, map[], name)
                 else
                   && f[StateFile].Regular? && f[StateFile].mode != 0 && f[StateFile].content.StateDoc?
                   && (forall name :: name in f[StateFile].content.state.binaries ==> name in MANAGED_NAMES)
                   && (forall name :: name in f[StateFile].content.state.expected ==> name in MANAGED_NAMES)
                   && forall name :: name in MANAGED_NAMES ==> Takes(build, f, f[StateFile].content.state.binaries, name)
  {
    var state := StateOf(Lookup(f, StateFile));
    if state.Some? {
      forall name | name in MANAGED_NAMES
        ensures Plannable(build, state.value, f, name) <==>
                  name in build && RegularExecutable(build[name]) && Takes(build, f, state.value.binaries, name)
      {
        assert Owned(state.value, name).Some? <==> name in state.value.binaries;
      }
    }
  }

  /** Nothing is installed: no ownership state and no managed binary. */
  ghost predicate Bare(f: Files) {
    StateFile !in f && forall name :: name in MANAGED_NAMES ==> Binary(name) !in f
  }

  /** The ownership state owns exactly the managed binaries, and they are on the disk as recorded. */
  ghost predicate AllOwned(f: Files, owned: map<string, Digest>, expected: map<string, Digest>) {
    && StateFile in f && f[StateFile] == Regular(StateDoc(InstallState(owned, expected)), 0x180)
    && (forall name :: name in owned <==> name in MANAGED_NAMES) && (forall name :: name in expected ==> name in MANAGED_NAMES)
    && forall name :: name in owned ==> Binary(name) in f && f[Binary(name)] == Regular(owned[name], 0x1ED)
  }

  /** A disk the installs so far have kept to themselves. */
  ghost predicate FreshOrOwned(f: Files) {
    Bare(f) || exists owned, expected :: AllOwned(f, owned, expected)
  }

  /** The build's binaries are installed, executable, and owned. */
  ghost predicate BuildOwned(build: Build, f: Files) {
    exists owned :: AllOwned(f, owned, owned) && forall name :: name in owned ==> name in build && build[name].Regular? && owned[name] == build[name].content
  }

  /** A bare disk takes any build, and so does one on which everything is owned and untouched. */
  lemma FreshOrOwnedCanPlan(build: Build, f: Files)
    requires Executables(build) && FreshOrOwned(f)
    ensures CanPlan(build, f)
  {
    forall name | name in MANAGED_NAMES ensures StateOf(Lookup(f, StateFile)).Some? && Plannable(build, StateOf(Lookup(f, StateFile)).value, f, name) {
      assert RegularExecutable(build[name]);
      if !Bare(f) {
        var owned, expected :| AllOwned(f, owned, expected);
        assert name in owned;
      }
    }
    assert MANAGED_NAMES[0] in MANAGED_NAMES;
  }

  /** The build's binary of this name is on the disk, executable, and owned with its digest. */
  ghost predicate OwnedName(build: Build, next: InstallState, f: Files, name: string) {
    && name in build && build[name].Regular?
    && name in next.binaries && next.binaries[name] == build[name].content
    && name in next.expected && next.expected[name] == build[name].content
    && Binary(name) in f && f[Binary(name)] == Regular(build[name].content, 0x1ED)
  }

  /** From such a disk a successful install leaves exactly the build, all of it owned. */
  lemma FreshOrOwnedBecomesOwned(build: Build, state: InstallState, base: Files, actions: seq<Action>, next: InstallState, f: Files)
    requires Planned(build, state, base, actions, next) && StateOf(Lookup(base, StateFile)) == Some(state) && InstalledAs(base, actions, next, f)
    requires OnlyManagedChange(state, next) && FreshOrOwned(base)
    ensures BuildOwned(build, f)
  {
    ManagedNamesDiffer();
    forall i | 0 <= i < |actions| ensures OwnedName(build, next, f, actions[i].name) {
      OwnedAction(build, state, base, actions, next, f, i);
    }
    forall name | name in MANAGED_NAMES ensures OwnedName(build, next, f, name) {
      var i :| 0 <= i < |MANAGED_NAMES| && MANAGED_NAMES[i] == name;
      assert actions[i].name == name;
    }
    OwnedNamesAreAll(build, state, next, f);
  }

  lemma OwnedNamesAreAll(build: Build, state: InstallState, next: InstallState, f: Files)
    requires forall name :: name in MANAGED_NAMES ==> OwnedName(build, next, f, name)
    requires OnlyManagedChange(state, next) && (forall name :: name in state.binaries ==> name in MANAGED_NAMES)
    requires StateFile in f && f[StateFile] == Regular(StateDoc(next), 0x180)
    ensures BuildOwned(build, f)
  {
    assert next.binaries == next.expected by {
      forall name ensures name in next.binaries <==> name in MANAGED_NAMES { if name in MANAGED_NAMES { assert OwnedName(build, next, f, name); } }
      forall name ensures name in next.expected <==> name in MANAGED_NAMES { if name in MANAGED_NAMES { assert OwnedName(build, next, f, name); } }
      forall name | name in next.binaries ensures next.binaries[name] == next.expected[name] { assert OwnedName(build, next, f, name); }
    }
    forall name | name in next.binaries ensures OwnedName(build, next, f, name) {}
    assert AllOwned(f, next.binaries, next.binaries);
  }

  lemma OwnedAction(build: Build, state: InstallState, base: Files, actions: seq<Action>, next: InstallState, f: Files, i: nat)
    requires Planned(build, state, base, actions, next) && StateOf(Lookup(base, StateFile)) == Some(state) && InstalledAs(base, actions, next, f)
    requires FreshOrOwned(base) && i < |actions|
    requires forall i, k :: 0 <= i < k < |MANAGED_NAMES| ==> MANAGED_NAMES[i] != MANAGED_NAMES[k]
    ensures OwnedName(build, next, f, actions[i].name)
  {
    var a := actions[i];
    assert PlannedAction(build, state, base, a) && a.name == MANAGED_NAMES[i] && a.name in MANAGED_NAMES;
    if a.change {
      assert a in Changed(actions);
    } else {
      assert forall c :: c in Changed(actions) ==> c.name != a.name;
      assert Lookup(f, Binary(a.name)) == Lookup(base, Binary(a.name));
    }
  }

  /** The install command: resolve what an earlier process left, then install.  Every run, wherever
      it stops, leaves a sound disk for the next one; a successful run leaves the build and its ownership
      state in force, and a run succeeds when no call fails and the recovered disk can take the build.
      On a bare disk, and on any that installs made from one, every executable build can be installed. */
  method Install(disk: CliDisk, build: Build) returns (ok: bool, ghost recovered: Files)
    requires Sound(disk.files)
    modifies disk
    ensures Sound(disk.files)
    ensures ok ==> JournalFile !in disk.files && Current(build, disk.files) && Recorded(build, disk.files) && Executables(build)
    ensures JournalFile !in old(disk.files) ==> recovered == old(disk.files)
    ensures JournalFile in old(disk.files) ==> Recovered(old(disk.files)[JournalFile].content.journal, old(disk.files), recovered)
    ensures disk.faults == old(disk.faults) && CanPlan(build, recovered) ==> ok
    ensures disk.faults == old(disk.faults) && Executables(build) && FreshOrOwned(recovered) ==> ok
    ensures ok && FreshOrOwned(recovered) ==> BuildOwned(build, disk.files) && FreshOrOwned(disk.files)
  {
    ok := Recover(disk);
    recovered := disk.files;
    if !ok { return; }
    ghost var attempt, stateRenamed;
    ok, attempt, stateRenamed := InstallUnlocked(disk, build);
    SettledIsSound(recovered, attempt, stateRenamed, disk.files);
    if Executables(build) && FreshOrOwned(recovered) {
      FreshOrOwnedCanPlan(build, recovered);
    }
  }

  /** The planned ownership state is already the recorded one, byte for byte. */
  ghost predicate StateAlready(f: Files, next: InstallState) {
    Matches(f, StateFile, Present(StateDoc(next), PRIVATE))
  }

  /** The journal's postimages are the plan in force. */
  lemma AllPostIffInstalled(base: Files, actions: seq<Action>, next: InstallState, j: Journal, f: Files)
    requires JournalFor(base, actions, next, j) && Untouched(j, base, f)
    requires forall i :: 0 <= i < |j.binaries| ==> ValidBinary(j.binaries[i])
    ensures AllPost(j, f) <==> InstalledAs(base, actions, next, f)
  {
    if AllPost(j, f) { ConcludedMeans(base, actions, next, j, true, f); }
    if InstalledAs(base, actions, next, f) {
      forall i | 0 <= i < |j.binaries| ensures IsPost(f, j.binaries[i]) {
        assert Changed(actions)[i] in Changed(actions) && PlannedBinary(j.binaries[i], Changed(actions)[i]);
      }
    }
  }

  /** Crash atomicity: an install that stops anywhere, leaving `crashed`, then any number of interrupted
      recoveries, then a completed one.  The new installation is in force exactly when it was complete
      where the install stopped: that is so once the state file was renamed, and before that only if the plan
      leaves the ownership state as it was.  Otherwise the old one is back untouched.  Without a plan
      nothing changed.  `calm` is the fault count when the last recovery started; one without a fault
      completes. */
  method InstallCrashRecover(disk: CliDisk, build: Build, attempts: nat)
    returns (done: bool, ghost attempt: Attempt, ghost stateRenamed: bool, ghost crashed: Files, ghost calm: nat)
    requires JournalFile !in disk.files
    modifies disk
    ensures done <==> JournalFile !in disk.files
    ensures attempts > 0 && disk.faults == calm ==> done
    ensures attempt.PlanMade? && stateRenamed ==> InstalledAs(old(disk.files), attempt.actions, attempt.next, crashed)
    ensures attempt.PlanMade? && !stateRenamed && InstalledAs(old(disk.files), attempt.actions, attempt.next, crashed) ==>
              StateAlready(old(disk.files), attempt.next)
    ensures done ==> match attempt
      case NoPlan => disk.files == old(disk.files)
      case PlanMade(actions, next) =>
        if InstalledAs(old(disk.files), actions, next, crashed) then InstalledAs(old(disk.files), actions, next, disk.files)
        else SameInstallation(old(disk.files), disk.files)
  {
    ghost var base := disk.files;
    done, attempt, stateRenamed := InstallUnlocked(disk, build);
    crashed, calm := disk.files, disk.faults;
    SettledIsSound(base, attempt, stateRenamed, crashed);
    if JournalFile !in disk.files { return true, attempt, stateRenamed, crashed, calm; }
    ghost var j := crashed[JournalFile].content.journal;
    AllPostIffInstalled(base, attempt.actions, attempt.next, j, crashed);
    done, calm := RecoverUntilDone(disk, attempts);
    if done {
      UntouchedComposes(j, base, crashed, disk.files);
      ConcludedMeans(base, attempt.actions, attempt.next, j, AllPost(j, crashed), disk.files);
    }
  }
}
