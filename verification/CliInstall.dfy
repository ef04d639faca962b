/** Planning and applying a CLI install as a crash-safe transaction. */
module CliInstall {
  import opened Results
  import opened FaultyDisk
  import opened CliJournal
  import opened CliRecovery

  datatype Status = Restored_ | Unchanged | Upgraded | Installed_ | UnchangedUnowned

  datatype Action = Action(name: string, digest: Digest, status: Status, change: bool, owned: bool, hadTarget: bool)

  /** The build directory: one candidate file per managed name, never changed by the installer. */
  type Build = map<string, File<Content>>

  predicate ExecutableBits(mode: nat) {
    mode % 2 == 1 || (mode / 8) % 2 == 1 || (mode / 64) % 2 == 1
  }

  predicate RegularExecutable(file: File<Content>) {
    file.Regular? && ExecutableBits(file.mode)
  }

  // ---------------------------------------------------------------- planning

  /** An existing target may be taken over: it is what the installer recorded, or, when nothing is
      recorded, an executable with the content to be installed. */
  predicate Intact(source: Digest, target: File<Content>, owned: Option<Digest>) {
    if owned.Some? then target == Regular(owned.value, EXECUTABLE)
    else RegularExecutable(target) && target.content == source
  }

  /** None is a collision: the target is not what the installer put there. */
  function PlanBinary(name: string, source: Digest, target: Option<File<Content>>, owned: Option<Digest>): (r: Option<Action>)
    ensures r.Some? ==> r.value.name == name && r.value.digest == source && (r.value.hadTarget <==> target.Some?)
    ensures r.Some? <==> target.None? || Intact(source, target.value, owned)
    ensures r.Some? && target.Some? ==> (r.value.change <==> owned.Some? && owned.value != source)
    ensures r.Some? && !r.value.change ==> target.Some? && target.value.Regular? && target.value.content == source
    ensures r.Some? ==> (r.value.owned <==> target.None? || owned.Some?)
  {
    match owned
    case Some(digest) =>
      if target.None? then Some(Action(name, source, Restored_, true, true, false))
      else if target.value != Regular(digest, EXECUTABLE) then None
      else if digest == source then Some(Action(name, source, Unchanged, false, true, true))
      else Some(Action(name, source, Upgraded, true, true, true))
    case None =>
      if target.None? then Some(Action(name, source, Installed_, true, true, false))
      else if !RegularExecutable(target.value) || target.value.content != source then None
      else Some(Action(name, source, UnchangedUnowned, false, false, true))
  }

  function Owned(state: InstallState, name: string): Option<Digest> {
    if name in state.binaries then Some(state.binaries[name]) else None
  }

  /** Records (or forgets) the ownership of one binary. */
  function Record(owned: map<string, Digest>, a: Action): map<string, Digest> {
    if a.owned then owned[a.name := a.digest] else owned - {a.name}
  }

  ghost predicate PlannedAction(build: Build, state: InstallState, f: Files, a: Action) {
    && a.name in build && RegularExecutable(build[a.name]) && build[a.name].content == a.digest
    && PlanBinary(a.name, a.digest, Lookup(f, Binary(a.name)), Owned(state, a.name)) == Some(a)
  }

  /** One action per managed name, in order, and the ownership they add up to. */
  ghost predicate Planned(build: Build, state: InstallState, f: Files, actions: seq<Action>, next: InstallState) {
    && |actions| == |MANAGED_NAMES|
    && (forall i :: 0 <= i < |actions| ==> actions[i].name == MANAGED_NAMES[i] && PlannedAction(build, state, f, actions[i]))
    && (forall i :: 0 <= i < |actions| ==>
          next.expected.Keys >= {actions[i].name} && next.expected[actions[i].name] == actions[i].digest)
    && (forall i :: 0 <= i < |actions| ==>
          if actions[i].owned then actions[i].name in next.binaries && next.binaries[actions[i].name] == actions[i].digest
          else actions[i].name !in next.binaries)
  }

  /** Nothing is recorded for any other name that was not recorded before. */
  ghost predicate OnlyManagedChange(state: InstallState, next: InstallState) {
    && (forall name :: name !in MANAGED_NAMES && name in next.binaries ==> name in state.binaries)
    && (forall name :: name in next.expected ==> name in MANAGED_NAMES)
  }

  lemma RecordKeepsOthers(state: InstallState, binaries: map<string, Digest>, expected: map<string, Digest>, a: Action)
    requires OnlyManagedChange(state, InstallState(binaries, expected)) && a.name in MANAGED_NAMES
    ensures OnlyManagedChange(state, InstallState(Record(binaries, a), expected[a.name := a.digest]))
  {
  }

  method PlanInstall(disk: CliDisk, build: Build, state: InstallState) returns (r: Result<(seq<Action>, InstallState)>)
    modifies disk`faults
    ensures disk.faults >= old(disk.faults)
    ensures r.Ok? ==> disk.faults == old(disk.faults) && Planned(build, state, disk.files, r.value.0, r.value.1)
    ensures r.Ok? ==> OnlyManagedChange(state, r.value.1)
    ensures r.Fail? ==> disk.faults > old(disk.faults) || exists name :: name in MANAGED_NAMES && !Plannable(build, state, disk.files, name)
  {
    ManagedNamesDiffer();
    var actions: seq<Action> := [];
    var binaries, expected := state.binaries, map[];
    for i := 0 to |MANAGED_NAMES|
      invariant |actions| == i && disk.faults == old(disk.faults)
      invariant forall k :: 0 <= k < i ==>
                  && actions[k].name == MANAGED_NAMES[k] && PlannedAction(build, state, disk.files, actions[k])
                  && actions[k].name in expected && expected[actions[k].name] == actions[k].digest
                  && (if actions[k].owned then actions[k].name in binaries && binaries[actions[k].name] == actions[k].digest
                      else actions[k].name !in binaries)
      invariant OnlyManagedChange(state, InstallState(binaries, expected))
    {
      var name := MANAGED_NAMES[i];
      if name !in build || !RegularExecutable(build[name]) {
        assert !Plannable(build, state, disk.files, name);
        return Fail;
      }
      var target := disk.Read(Binary(name));
      if target.Fail? { return Fail; }
      var planned := PlanBinary(name, build[name].content, target.value, Owned(state, name));
      if planned.None? {
        assert !Plannable(build, state, disk.files, name);
        return Fail;
      }
      RecordKeepsOthers(state, binaries, expected, planned.value);
      binaries := Record(binaries, planned.value);
      expected := expected[name := planned.value.digest];
      actions := actions + [planned.value];
    }
    return Ok((actions, InstallState(binaries, expected)));
  }

  /** The source is a regular executable and the target is free, owned and unchanged, or identical. */
  ghost predicate Plannable(build: Build, state: InstallState, f: Files, name: string) {
    && name in build && RegularExecutable(build[name])
    && PlanBinary(name, build[name].content, Lookup(f, Binary(name)), Owned(state, name)).Some?
  }

  lemma ManagedNamesDiffer()
    ensures forall i, k :: 0 <= i < k < |MANAGED_NAMES| ==> MANAGED_NAMES[i] != MANAGED_NAMES[k]
  {
    assert MANAGED_NAMES[0][0] == 'g' && MANAGED_NAMES[4][0] == 'c' && MANAGED_NAMES[5][0] == 'h';
    assert MANAGED_NAMES[0][4] == 'w' && MANAGED_NAMES[1][4] == 'p' && MANAGED_NAMES[2][4] == 'p' && MANAGED_NAMES[3][4] == 'c';
    assert MANAGED_NAMES[1][5] == 'a' && MANAGED_NAMES[2][5] == 'u';
  }

  /** Replacing an existing binary is an upgrade: its target is the previously owned file, the
      digest recorded for it changes, and so the ownership state changes. */
  lemma ReplacingChangesState(build: Build, state: InstallState, f: Files, actions: seq<Action>, next: InstallState, i: nat)
    requires Planned(build, state, f, actions, next) && i < |actions|
    requires actions[i].change && actions[i].hadTarget
    ensures actions[i].name in state.binaries
    ensures Lookup(f, Binary(actions[i].name)) == Some(Regular(state.binaries[actions[i].name], EXECUTABLE))
    ensures state.binaries[actions[i].name] != actions[i].digest && next != state
  {
    assert PlannedAction(build, state, f, actions[i]);
  }

  // ---------------------------------------------------------------- staging

  datatype StagedAction = StagedAction(action: Action, replacement: Path, backup: Option<Path>)

  function Changed(actions: seq<Action>): (changed: seq<Action>)
    ensures forall a :: a in changed <==> a in actions && a.change
  {
    if actions == [] then []
    else
      var front, last := actions[..|actions| - 1], actions[|actions| - 1];
      assert actions == front + [last];
      if last.change then Changed(front) + [last] else Changed(front)
  }

  method ChangedActions(actions: seq<Action>) returns (changed: seq<Action>)
    ensures changed == Changed(actions)
  {
    changed := [];
    for i := 0 to |actions|
      invariant changed == Changed(actions[..i])
    {
      assert actions[..i + 1][..i] == actions[..i];
      if actions[i].change { changed := changed + [actions[i]]; }
    }
    assert actions[..|actions|] == actions;
  }

  /** Only temporary files were added or removed. */
  ghost predicate Scratch(before: Files, after: Files) {
    SameInstallation(before, after) && Lookup(after, JournalFile) == Lookup(before, JournalFile)
  }

  /** Nothing that existed was changed, and what is new is temporary. */
  ghost predicate TempsAdded(before: Files, after: Files) {
    && (forall p :: p in before ==> p in after && after[p] == before[p])
    && (forall p :: p in after && p !in before ==> Temp(p))
  }

  method StageBinary(disk: CliDisk, content: Content, tag: string) returns (r: Result<Path>)
    modifies disk
    ensures TempsAdded(old(disk.files), disk.files)
    ensures r.Ok? ==> r.value.BinaryTemp? && r.value.tag == tag && r.value !in old(disk.files)
    ensures r.Ok? ==> Matches(disk.files, r.value, Present(content, EXECUTABLE)) && disk.faults == old(disk.faults)
    ensures r.Fail? ==> disk.faults > old(disk.faults)
  {
    var id: nat := *;
    var ok := disk.WriteTemp(BinaryTemp(tag, id), content, EXECUTABLE);
    r := if ok then Ok(BinaryTemp(tag, id)) else Fail;
  }

  method RemoveTemp(disk: CliDisk, p: Path)
    requires Temp(p)
    modifies disk
    ensures Scratch(old(disk.files), disk.files)
    ensures disk.faults >= old(disk.faults)
  {
    var _ := disk.RemoveIfExists(p);
  }

  method CleanupStaged(disk: CliDisk, staged: seq<StagedAction>)
    requires forall i :: 0 <= i < |staged| ==> Temp(staged[i].replacement) && (staged[i].backup.Some? ==> Temp(staged[i].backup.value))
    modifies disk
    ensures Scratch(old(disk.files), disk.files)
    ensures disk.faults >= old(disk.faults)
  {
    for i := 0 to |staged|
      invariant Scratch(old(disk.files), disk.files) && disk.faults >= old(disk.faults)
    {
      RemoveTemp(disk, staged[i].replacement);
      if staged[i].backup.Some? { RemoveTemp(disk, staged[i].backup.value); }
    }
  }

  /** The temporary files of a staged action are complete: the new binary and, if there is an old
      one, an identical copy of it. */
  ghost predicate Ready(f: Files, s: StagedAction) {
    && s.replacement.BinaryTemp? && s.replacement.tag == s.action.name
    && Matches(f, s.replacement, Present(s.action.digest, EXECUTABLE))
    && (s.action.hadTarget <==> s.backup.Some?)
    && (s.backup.Some? ==>
          && s.backup.value.BinaryTemp? && s.backup.value.tag == s.action.name + BACKUP_SUFFIX
          && Lookup(f, s.backup.value) == Lookup(f, Binary(s.action.name)))
  }

  method StageAction(disk: CliDisk, a: Action) returns (r: Result<StagedAction>)
    requires a.hadTarget ==> Lookup(disk.files, Binary(a.name)).Some? && disk.files[Binary(a.name)].Regular? && disk.files[Binary(a.name)].mode == EXECUTABLE
    modifies disk
    ensures r.Ok? ==> r.value.action == a && Ready(disk.files, r.value)
    ensures r.Ok? ==> TempsAdded(old(disk.files), disk.files) && disk.faults == old(disk.faults)
    ensures r.Fail? ==> Scratch(old(disk.files), disk.files) && disk.faults > old(disk.faults)
  {
    var replacement := StageBinary(disk, a.digest, a.name);
    if replacement.Fail? { return Fail; }
    if !a.hadTarget { return Ok(StagedAction(a, replacement.value, None)); }
    var target := disk.Read(Binary(a.name));
    if target.Fail? || target.value.None? || target.value.value.Irregular? {
      RemoveTemp(disk, replacement.value);
      return Fail;
    }
    var backup := StageBinary(disk, target.value.value.content, a.name + BACKUP_SUFFIX);
    if backup.Fail? {
      RemoveTemp(disk, replacement.value);
      return Fail;
    }
    return Ok(StagedAction(a, replacement.value, Some(backup.value)));
  }

  method StageActions(disk: CliDisk, changed: seq<Action>) returns (r: Result<seq<StagedAction>>)
    requires forall i :: 0 <= i < |changed| && changed[i].hadTarget ==>
               Lookup(disk.files, Binary(changed[i].name)).Some? && disk.files[Binary(changed[i].name)].Regular?
               && disk.files[Binary(changed[i].name)].mode == EXECUTABLE
    modifies disk
    ensures r.Ok? ==> |r.value| == |changed|
    ensures r.Ok? ==> forall i :: 0 <= i < |changed| ==> r.value[i].action == changed[i] && Ready(disk.files, r.value[i])
    ensures r.Ok? ==> TempsAdded(old(disk.files), disk.files) && disk.faults == old(disk.faults)
    ensures r.Fail? ==> Scratch(old(disk.files), disk.files) && disk.faults > old(disk.faults)
  {
    var staged: seq<StagedAction> := [];
    for i := 0 to |changed|
      invariant |staged| == i && disk.faults == old(disk.faults) && TempsAdded(old(disk.files), disk.files)
      invariant forall k :: 0 <= k < i ==> staged[k].action == changed[k] && Ready(disk.files, staged[k])
    {
      var current := StageAction(disk, changed[i]);
      if current.Fail? {
        CleanupStaged(disk, staged);
        return Fail;
      }
      staged := staged + [current.value];
    }
    return Ok(staged);
  }

  // ---------------------------------------------------------------- the journal

  /** The ownership state a state file stands for; None when it cannot be trusted. */
  function StateOf(file: Option<File<Content>>): Option<InstallState> {
    match file
    case None => Some(InstallState(map[], map[]))
    case Some(Irregular) => None
    case Some(Regular(content, _)) =>
      if content.StateDoc? && ValidState(content.state) then Some(content.state) else None
  }

  predicate ValidState(state: InstallState) {
    && (forall name :: name in state.binaries ==> name in MANAGED_NAMES)
    && (forall name :: name in state.expected ==> name in MANAGED_NAMES)
  }

  predicate PlannedBinary(b: JournalBinary, a: Action) {
    b.name == a.name && b.target == Binary(a.name) && b.post == Present(a.digest, EXECUTABLE)
  }

  /** The journal describes exactly the planned change of the installation `base`. */
  ghost predicate JournalFor(base: Files, actions: seq<Action>, next: InstallState, j: Journal) {
    && AllPre(j, base)
    && j.statePost == Present(StateDoc(next), PRIVATE)
    && |j.binaries| == |Changed(actions)|
    && forall i :: 0 <= i < |j.binaries| ==> PlannedBinary(j.binaries[i], Changed(actions)[i])
  }

  /** Nothing is committed yet and every temporary file is in place. */
  ghost predicate Armed(j: Journal, f: Files) {
    && Recoverable(j, f) && AllPre(j, f) && j.stateTemp in f
    && forall i :: 0 <= i < |j.binaries| ==> ArmedBinary(j.binaries[i], f)
  }

  ghost predicate ArmedBinary(b: JournalBinary, f: Files) {
    b.replacement in f && (b.backup.Some? ==> b.backup.value in f)
  }

  /** The target still is what the plan saw. */
  ghost predicate TargetKnown(base: Files, f: Files, a: Action) {
    && Lookup(f, Binary(a.name)) == Lookup(base, Binary(a.name))
    && (if a.hadTarget then Snapshot(Lookup(base, Binary(a.name))).Some? && Lookup(base, Binary(a.name)).Some?
        else Lookup(base, Binary(a.name)).None?)
  }

  method NewJournalBinary(disk: CliDisk, ghost base: Files, s: StagedAction) returns (r: Result<JournalBinary>)
    requires Ready(disk.files, s) && TargetKnown(base, disk.files, s.action)
    modifies disk`faults
    ensures disk.faults >= old(disk.faults)
    ensures r.Ok? ==> JournalledBinary(base, disk.files, r.value, s.action) && disk.faults == old(disk.faults)
    ensures r.Fail? ==> disk.faults > old(disk.faults)
  {
    var target := disk.Read(Binary(s.action.name));
    if target.Fail? { return Fail; }
    var pre := Snapshot(target.value);
    if pre.None? { return Fail; }
    var replacement := disk.Read(s.replacement);
    if replacement.Fail? { return Fail; }
    var post := Snapshot(replacement.value);
    if post.None? { return Fail; }
    if post.value != Present(s.action.digest, EXECUTABLE) { return Fail; }
    if s.action.hadTarget != pre.value.Present? { return Fail; }
    if pre.value.Present? {
      var backup := disk.Read(s.backup.value);
      if backup.Fail? { return Fail; }
      if Snapshot(backup.value) != pre { return Fail; }
    }
    return Ok(JournalBinary(s.action.name, Binary(s.action.name), s.replacement, s.backup, pre.value, post.value));
  }

  method NewJournalBinaries(disk: CliDisk, ghost base: Files, staged: seq<StagedAction>) returns (r: Result<seq<JournalBinary>>)
    requires forall i :: 0 <= i < |staged| ==> Ready(disk.files, staged[i]) && TargetKnown(base, disk.files, staged[i].action)
    modifies disk`faults
    ensures disk.faults >= old(disk.faults)
    ensures r.Ok? ==> |r.value| == |staged| && disk.faults == old(disk.faults)
    ensures r.Ok? ==> forall i :: 0 <= i < |r.value| ==> JournalledBinary(base, disk.files, r.value[i], staged[i].action)
    ensures r.Fail? ==> disk.faults > old(disk.faults)
  {
    var binaries: seq<JournalBinary> := [];
    for i := 0 to |staged|
      invariant |binaries| == i && disk.faults == old(disk.faults)
      invariant forall k :: 0 <= k < i ==> JournalledBinary(base, disk.files, binaries[k], staged[k].action)
    {
      var b := NewJournalBinary(disk, base, staged[i]);
      if b.Fail? { return Fail; }
      binaries := binaries + [b.value];
    }
    return Ok(binaries);
  }

  /** The journal of a staged plan; without failing calls it is refused only for a state file
      without any permission bit. */
  method NewJournal(disk: CliDisk, ghost base: Files, ghost build: Build, ghost state: InstallState, ghost actions: seq<Action>,
                    next: InstallState, stateTemp: Path, staged: seq<StagedAction>) returns (r: Result<Journal>)
    requires Planned(build, state, base, actions, next) && StateOf(Lookup(base, StateFile)) == Some(state)
    requires TempsAdded(base, disk.files)
    requires stateTemp.StateTemp? && Matches(disk.files, stateTemp, Present(StateDoc(next), PRIVATE))
    requires Changed(actions) != [] && |staged| == |Changed(actions)|
    requires forall i :: 0 <= i < |staged| ==> staged[i].action == Changed(actions)[i] && Ready(disk.files, staged[i])
    modifies disk`faults
    ensures disk.faults >= old(disk.faults)
    ensures r.Ok? ==> Armed(r.value, disk.files) && JournalFor(base, actions, next, r.value) && disk.faults == old(disk.faults)
    ensures r.Fail? ==> disk.faults > old(disk.faults) || (StateFile in base && base[StateFile].Regular? && base[StateFile].mode == 0)
  {
    var stateFile := disk.Read(StateFile);
    if stateFile.Fail? { return Fail; }
    assert Lookup(disk.files, StateFile) == Lookup(base, StateFile) by {
      assert StateFile in base || StateFile !in disk.files;
    }
    var statePre := Snapshot(stateFile.value);
    if statePre.None? { return Fail; }
    forall i | 0 <= i < |staged| ensures TargetKnown(base, disk.files, staged[i].action) {
      PlannedPreimage(build, state, base, disk.files, actions, next, staged[i].action);
    }
    var binaries := NewJournalBinaries(disk, base, staged);
    if binaries.Fail? { return Fail; }
    var j := Journal(stateTemp, statePre.value, Present(StateDoc(next), PRIVATE), binaries.value);
    StagedJournal(base, disk.files, build, state, actions, next, j);
    if !ValidJournal(j) { return Fail; }
    JournalledIsArmed(base, disk.files, actions, j);
    return Ok(j);
  }

  lemma JournalledIsArmed(base: Files, f: Files, actions: seq<Action>, j: Journal)
    requires Staged(j) && TempsAdded(base, f) && |j.binaries| == |Changed(actions)|
    requires StatePre(j, f) && StatePre(j, base) && Matches(f, j.stateTemp, j.statePost)
    requires forall i :: 0 <= i < |j.binaries| ==> JournalledBinary(base, f, j.binaries[i], Changed(actions)[i])
    ensures Armed(j, f) && AllPre(j, base)
  {
    forall i | 0 <= i < |j.binaries| ensures SoundBinary(j, f, j.binaries[i]) {
      assert JournalledBinary(base, f, j.binaries[i], Changed(actions)[i]) && StagedBinary(j, j.binaries[i]);
    }
  }

  ghost predicate JournalledBinary(base: Files, f: Files, b: JournalBinary, a: Action) {
    && PlannedBinary(b, a) && IsPre(f, b) && IsPre(base, b) && ArmedBinary(b, f)
    && b.replacement.BinaryTemp? && b.replacement.tag == b.name
    && (b.backup.Some? ==> b.backup.value.BinaryTemp? && b.backup.value.tag == b.name + BACKUP_SUFFIX)
    && (b.backup.Some? <==> b.pre.Present?) && (a.hadTarget <==> b.pre.Present?)
    && Matches(f, b.replacement, b.post)
    && (b.backup.Some? ==> Matches(f, b.backup.value, b.pre))
  }

  lemma PlannedPreimage(build: Build, state: InstallState, base: Files, f: Files, actions: seq<Action>, next: InstallState, a: Action)
    requires Planned(build, state, base, actions, next) && TempsAdded(base, f) && a in Changed(actions)
    ensures a.name in MANAGED_NAMES && Lookup(f, Binary(a.name)) == Lookup(base, Binary(a.name))
    ensures a.hadTarget ==> a.name in state.binaries && state.binaries[a.name] != a.digest && next != state
    ensures Lookup(base, Binary(a.name)) == if a.hadTarget then Some(Regular(state.binaries[a.name], EXECUTABLE)) else None
  {
    var i :| 0 <= i < |actions| && actions[i] == a;
    assert PlannedAction(build, state, base, actions[i]);
    if a.hadTarget { ReplacingChangesState(build, state, base, actions, next, i); }
    assert Binary(a.name) in base || Binary(a.name) !in f;
  }

  lemma {:induction false} ChangedIsInjective(actions: seq<Action>, i: nat, k: nat)
    requires forall m, n :: 0 <= m < n < |actions| ==> actions[m].name != actions[n].name
    requires i < k < |Changed(actions)|
    ensures Changed(actions)[i].name != Changed(actions)[k].name
  {
    var front, last := actions[..|actions| - 1], actions[|actions| - 1];
    if k < |Changed(front)| {
      ChangedIsInjective(front, i, k);
    } else {
      assert Changed(front)[i] in front;
      var m :| 0 <= m < |front| && front[m] == Changed(front)[i];
      assert actions[m] == front[m];
    }
  }

  lemma JournalledIsStaged(base: Files, f: Files, j: Journal, b: JournalBinary, a: Action)
    requires JournalledBinary(base, f, b, a) && a.name in MANAGED_NAMES
    requires Snapshot(Lookup(base, Binary(a.name))) == Some(b.pre)
    requires a.hadTarget ==> j.statePre != j.statePost && b.pre.digest != a.digest && b.pre.mode == EXECUTABLE
    ensures ValidBinary(b) && StagedBinary(j, b)
  {
    assert (b.name + BACKUP_SUFFIX + "-")[..|b.name| + 1] == b.name + "-";
  }

  lemma StagedJournal(base: Files, f: Files, build: Build, state: InstallState, actions: seq<Action>, next: InstallState, j: Journal)
    requires Planned(build, state, base, actions, next) && StateOf(Lookup(base, StateFile)) == Some(state)
    requires TempsAdded(base, f) && j.stateTemp.StateTemp? && Snapshot(Lookup(base, StateFile)) == Some(j.statePre)
    requires j.statePost == Present(StateDoc(next), PRIVATE)
    requires |j.binaries| == |Changed(actions)| > 0
    requires forall i :: 0 <= i < |j.binaries| ==> JournalledBinary(base, f, j.binaries[i], Changed(actions)[i])
    ensures ValidJournal(j) <==> ValidImage(j.statePre)
    ensures ValidJournal(j) ==> Staged(j)
  {
    forall i | 0 <= i < |j.binaries| ensures ValidBinary(j.binaries[i]) && StagedBinary(j, j.binaries[i]) {
      var a := Changed(actions)[i];
      PlannedPreimage(build, state, base, f, actions, next, a);
      JournalledIsStaged(base, f, j, j.binaries[i], a);
    }
    ManagedNamesDiffer();
    forall i, k | 0 <= i < k < |j.binaries| ensures j.binaries[i].name != j.binaries[k].name {
      ChangedIsInjective(actions, i, k);
    }
  }
}
