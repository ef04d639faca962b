/** Preparing a Codex install from the disk, and what a later install finds where an earlier one succeeded. */
module CodexPlan {
  import opened Results
  import opened FaultyDisk
  import opened CodexJournal
  import opened CodexInstall
  import opened CodexCommit
  import CodexConfig

  const NEW_CONFIG_MODE: nat := 0x1A4 // octal 644

  // ---------------------------------------------------------------- the state file

  /** The records of a state file name every path once, by a clean relative path, and its config record has a value. */
  ghost predicate ValidState(files: seq<(Name, Digest)>, config: Option<CodexConfig.Record>) {
    && (forall i :: 0 <= i < |files| ==> CleanRelative(RelativePath(files[i].0)))
    && (forall i, k :: 0 <= i < k < |files| ==> files[i].0 != files[k].0)
    && (config.Some? ==> config.value.value != "")
  }

  function StateFile(f: Files): Option<File<Content>> {
    Lookup(f, Surface(State))
  }

  /** There is no state file, or one that an install accepts. */
  ghost predicate Readable(f: Files) {
    match StateFile(f)
    case None => true
    case Some(Regular(StateDoc(files, config), _)) => ValidState(files, config)
    case _ => false
  }

  ghost predicate Named(files: seq<(Name, Digest)>, rel: Name) {
    exists i :: 0 <= i < |files| && files[i].0 == rel
  }

  /** The map holds exactly these records. */
  ghost predicate Owns(owned: map<Name, Digest>, files: seq<(Name, Digest)>) {
    && (forall i :: 0 <= i < |files| ==> files[i].0 in owned && owned[files[i].0] == files[i].1)
    && forall rel :: rel in owned ==> Named(files, rel)
  }

  /** What the state file records. */
  ghost predicate StateRead(f: Files, owned: Option<map<Name, Digest>>, config: Option<CodexConfig.Record>) {
    match StateFile(f)
    case None => owned.None? && config.None?
    case Some(Regular(StateDoc(files, recorded), _)) => owned.Some? && Owns(owned.value, files) && config == recorded
    case _ => false
  }

  lemma OwnsNext(owned: map<Name, Digest>, files: seq<(Name, Digest)>, i: nat)
    requires i < |files| && Owns(owned, files[..i])
    ensures files[i].0 in owned <==> exists k :: 0 <= k < i && files[k].0 == files[i].0
    ensures files[i].0 !in owned ==> Owns(owned[files[i].0 := files[i].1], files[..i + 1])
  {
    var rel := files[i].0;
    assert files[..i + 1] == files[..i] + [files[i]];
    if rel in owned {
      var k :| 0 <= k < |files[..i]| && files[..i][k].0 == rel;
      assert files[k].0 == rel;
    }
    if k :| 0 <= k < i && files[k].0 == rel { assert files[..i][k].0 == rel; }
    if rel !in owned {
      var next := owned[rel := files[i].1];
      forall other | other in next ensures Named(files[..i + 1], other) {
        if other == rel {
          assert files[..i + 1][i].0 == rel;
        } else {
          var k :| 0 <= k < |files[..i]| && files[..i][k].0 == other;
          assert files[..i + 1][k].0 == other;
        }
      }
    }
  }

  /** The file records by path; a path that is not clean or is named twice makes the whole state invalid. */
  method DecodeRecords(files: seq<(Name, Digest)>) returns (r: Result<map<Name, Digest>>)
    ensures r.Ok? <==> ValidState(files, None)
    ensures r.Ok? ==> Owns(r.value, files)
  {
    var owned: map<Name, Digest> := map[];
    for i := 0 to |files|
      invariant Owns(owned, files[..i])
      invariant forall k :: 0 <= k < i ==> CleanRelative(RelativePath(files[k].0))
      invariant forall k, l :: 0 <= k < l < i ==> files[k].0 != files[l].0
    {
      OwnsNext(owned, files, i);
      if !CleanRelative(RelativePath(files[i].0)) || files[i].0 in owned { return Fail; }
      owned := owned[files[i].0 := files[i].1];
    }
    assert files[..|files|] == files;
    return Ok(owned);
  }

  datatype Loaded = Loaded(owned: Option<map<Name, Digest>>, config: Option<CodexConfig.Record>, backup: Image)

  /** Reads and checks the state file; an absent one is the empty state. */
  method LoadState(disk: CodexDisk) returns (r: Result<Loaded>)
    modifies disk`faults
    ensures disk.faults >= old(disk.faults)
    ensures r.Ok? ==> Readable(disk.files) && StateRead(disk.files, r.value.owned, r.value.config)
    ensures r.Ok? ==> Matches(disk.files, State, r.value.backup) && disk.faults == old(disk.faults)
    ensures r.Fail? ==> disk.faults > old(disk.faults) || !Readable(disk.files)
  {
    var backup := Capture(disk, State);
    if backup.Fail? { return Fail; }
    if backup.value.Absent? { return Ok(Loaded(None, None, Absent)); }
    var content := backup.value.content;
    if !content.StateDoc? || (content.config.Some? && content.config.value.value == "") { return Fail; }
    var owned := DecodeRecords(content.files);
    if owned.Fail? { return Fail; }
    return Ok(Loaded(Some(owned.value), content.config, backup.value));
  }

  // ---------------------------------------------------------------- the file plan

  /** The state file records this path with this digest. */
  ghost predicate RecordedAs(f: Files, rel: Name, digest: Digest) {
    match StateFile(f)
    case Some(Regular(StateDoc(files, _), _)) => (rel, digest) in files
    case _ => false
  }

  /** The path is recorded with what is installed there, or neither recorded nor there. */
  ghost predicate Free(f: Files, rel: Name) {
    match InstalledAt(f, rel)
    case None => forall digest :: !RecordedAs(f, rel, digest)
    case Some(Irregular) => false
    case Some(Regular(content, _)) => RecordedAs(f, rel, content)
  }

  function InstalledAt(f: Files, rel: Name): Option<File<Content>> {
    Lookup(f, Surface(rel))
  }

  lemma OwnedAsRecorded(f: Files, owned: Option<map<Name, Digest>>, config: Option<CodexConfig.Record>, rel: Name, digest: Digest)
    requires Readable(f) && StateRead(f, owned, config)
    ensures owned.Some? && rel in owned.value && owned.value[rel] == digest <==> RecordedAs(f, rel, digest)
  {
    if owned.Some? {
      var files := StateFile(f).value.content.files;
      if rel in owned.value {
        var i :| 0 <= i < |files| && files[i].0 == rel;
        assert owned.value[files[i].0] == files[i].1;
        assert owned.value[rel] == digest <==> files[i] == (rel, digest);
        if k :| 0 <= k < |files| && files[k] == (rel, digest) { assert i == k; }
      }
    }
  }

  /** The ownership rule of the plan, read off the state file. */
  lemma OwnershipIsFree(f: Files, owned: Option<map<Name, Digest>>, config: Option<CodexConfig.Record>, rel: Name)
    requires Readable(f) && StateRead(f, owned, config)
    ensures OwnershipHolds(InstalledAt(f, rel), rel, owned) <==> Free(f, rel)
  {
    match InstalledAt(f, rel)
    case None =>
      forall digest ensures owned.Some? && rel in owned.value && owned.value[rel] == digest <==> RecordedAs(f, rel, digest) {
        OwnedAsRecorded(f, owned, config, rel, digest);
      }
      assert owned.Some? && rel in owned.value ==> RecordedAs(f, rel, owned.value[rel]);
    case Some(Irregular) =>
    case Some(Regular(content, _)) => OwnedAsRecorded(f, owned, config, rel, content);
  }

  /** A recorded file no source asks for any more, still as it was installed. */
  ghost predicate Obsolete(f: Files, desired: seq<DesiredFile>, rel: Name) {
    && (forall i :: 0 <= i < |desired| ==> desired[i].path != rel)
    && match InstalledAt(f, rel)
       case Some(Regular(content, _)) => RecordedAs(f, rel, content)
       case _ => false
  }

  predicate Mentions(desired: seq<DesiredFile>, rel: Name) {
    exists i :: 0 <= i < |desired| && desired[i].path == rel
  }

  /** Refuses a desired path that is not the installer's to write. */
  method RequireOwnership(disk: CodexDisk, desired: seq<DesiredFile>, owned: Option<map<Name, Digest>>, ghost config: Option<CodexConfig.Record>)
    returns (ok: bool)
    requires Readable(disk.files) && StateRead(disk.files, owned, config)
    modifies disk`faults
    ensures disk.faults >= old(disk.faults) && (ok ==> disk.faults == old(disk.faults))
    ensures ok ==> forall i :: 0 <= i < |desired| ==> CleanRelative(RelativePath(desired[i].path)) && Free(disk.files, desired[i].path)
    ensures !ok ==> disk.faults > old(disk.faults)
                    || exists i :: 0 <= i < |desired| && !(CleanRelative(RelativePath(desired[i].path)) && Free(disk.files, desired[i].path))
  {
    for i := 0 to |desired|
      invariant disk.faults == old(disk.faults)
      invariant forall k :: 0 <= k < i ==> CleanRelative(RelativePath(desired[k].path))
    {
      if !CleanRelative(RelativePath(desired[i].path)) { return false; }
    }
    for i := 0 to |desired|
      invariant disk.faults == old(disk.faults)
      invariant forall k :: 0 <= k < i ==> Free(disk.files, desired[k].path)
    {
      var file := disk.Read(Surface(desired[i].path));
      if file.Fail? { return false; }
      OwnershipIsFree(disk.files, owned, config, desired[i].path);
      if !OwnershipHolds(file.value, desired[i].path, owned) {
        assert !Free(disk.files, desired[i].path);
        return false;
      }
    }
    return true;
  }

  /** The recorded files to remove, sorted; one that cannot be read is preserved like one that was modified. */
  method PlanObsolete(disk: CodexDisk, desired: seq<DesiredFile>, owned: Option<map<Name, Digest>>, ghost config: Option<CodexConfig.Record>)
    returns (remove: seq<Name>)
    requires Readable(disk.files) && StateRead(disk.files, owned, config)
    modifies disk`faults
    ensures disk.faults >= old(disk.faults)
    ensures forall rel :: rel in remove ==> Obsolete(disk.files, desired, rel)
    ensures disk.faults == old(disk.faults) ==> forall rel :: Obsolete(disk.files, desired, rel) ==> rel in remove
    ensures forall i, k :: 0 <= i < |remove| && 0 <= k < |remove| && i != k ==> remove[i] != remove[k]
  {
    if owned.None? {
      forall rel ensures !Obsolete(disk.files, desired, rel) {}
      return [];
    }
    var todo, chosen: set<Name> := owned.value.Keys, {};
    while todo != {}
      invariant todo <= owned.value.Keys && disk.faults >= old(disk.faults)
      invariant forall rel :: rel in chosen ==> Obsolete(disk.files, desired, rel)
      invariant disk.faults == old(disk.faults) ==>
                  forall rel :: rel in owned.value && rel !in todo && Obsolete(disk.files, desired, rel) ==> rel in chosen
      decreases todo
    {
      var rel :| rel in todo;
      todo := todo - {rel};
      if Mentions(desired, rel) { continue; }
      var file := disk.Read(Surface(rel));
      OwnedAsRecorded(disk.files, owned, config, rel, owned.value[rel]);
      ObsoleteIff(disk.files, desired, owned, config, rel);
      if file.Ok? && file.value.Some? && file.value.value.Regular? && file.value.value.content == owned.value[rel] {
        chosen := chosen + {rel};
      }
    }
    forall rel | Obsolete(disk.files, desired, rel) ensures rel in owned.value {
      OwnedAsRecorded(disk.files, owned, config, rel, InstalledAt(disk.files, rel).value.content);
    }
    remove := SortedPaths(chosen);
  }

  lemma ObsoleteIff(f: Files, desired: seq<DesiredFile>, owned: Option<map<Name, Digest>>, config: Option<CodexConfig.Record>, rel: Name)
    requires Readable(f) && StateRead(f, owned, config) && owned.Some? && rel in owned.value && !Mentions(desired, rel)
    ensures Obsolete(f, desired, rel) <==>
              InstalledAt(f, rel).Some? && InstalledAt(f, rel).value.Regular? && InstalledAt(f, rel).value.content == owned.value[rel]
  {
    if InstalledAt(f, rel).Some? && InstalledAt(f, rel).value.Regular? {
      OwnedAsRecorded(f, owned, config, rel, InstalledAt(f, rel).value.content);
    }
  }

  // ---------------------------------------------------------------- the config plan

  /** The record of the config line in the state file. */
  ghost function RecordedConfig(f: Files): Option<CodexConfig.Record> {
    match StateFile(f)
    case Some(Regular(StateDoc(_, config), _)) => config
    case _ => None
  }

  function ConfigFile(f: Files): Option<File<Content>> {
    Lookup(f, Surface(Config))
  }

  ghost predicate ConfigPlannable(f: Files, managedText: string, kind: CodexConfig.Kind) {
    && ConfigText(ConfigFile(f)).Some?
    && CodexConfig.BuildPlan(managedText, ConfigText(ConfigFile(f)).value, RecordedConfig(f), CodexConfig.MANAGED_KEY, kind).Ok?
  }

  ghost predicate ConfigPlanned(f: Files, managedText: string, kind: CodexConfig.Kind, config: ConfigPlan) {
    && ConfigPlannable(f, managedText, kind)
    && (var plan := CodexConfig.BuildPlan(managedText, ConfigText(ConfigFile(f)).value, RecordedConfig(f), CodexConfig.MANAGED_KEY, kind).value;
        config.next == plan.next && config.changed == plan.changed && config.record == plan.record)
    && Matches(f, Config, config.before)
    && config.mode == if ConfigFile(f).Some? then ConfigFile(f).value.mode else 0x1A4
  }

  method BuildConfig(disk: CodexDisk, managedText: string, previous: Option<CodexConfig.Record>, kind: CodexConfig.Kind) returns (r: Result<ConfigPlan>)
    requires previous == RecordedConfig(disk.files)
    modifies disk`faults
    ensures disk.faults >= old(disk.faults)
    ensures r.Ok? ==> ConfigPlanned(disk.files, managedText, kind, r.value) && disk.faults == old(disk.faults)
    ensures r.Fail? ==> disk.faults > old(disk.faults) || !ConfigPlannable(disk.files, managedText, kind)
  {
    var file := disk.Read(Surface(Config));
    if file.Fail? { return Fail; }
    var text := ConfigText(file.value);
    if text.None? { return Fail; }
    var plan := CodexConfig.BuildConfigPlan(managedText, text.value, previous, CodexConfig.MANAGED_KEY, kind);
    if plan.Fail? { return Fail; }
    var before, mode := ImageOf(file.value).value, if file.value.Some? then file.value.value.mode else NEW_CONFIG_MODE;
    return Ok(ConfigPlan(plan.value.changed, before, plan.value.next, mode, plan.value.record));
  }

  // ---------------------------------------------------------------- the preparation

  /** What preparing needs of the disk. */
  ghost predicate CanPrepare(f: Files, desired: seq<DesiredFile>, managedText: string, kind: CodexConfig.Kind) {
    && Readable(f)
    && (forall i :: 0 <= i < |desired| ==> CleanRelative(RelativePath(desired[i].path)) && Free(f, desired[i].path))
    && ConfigPlannable(f, managedText, kind)
  }

  /** A preparation made from this disk. */
  ghost predicate Prepared(f: Files, desired: seq<DesiredFile>, managedText: string, kind: CodexConfig.Kind, p: Preparation) {
    && CanPrepare(f, desired, managedText, kind)
    && p.desired == desired && Matches(f, State, p.stateBackup) && StateRead(f, p.state, RecordedConfig(f))
    && (forall rel :: rel in p.remove ==> Obsolete(f, desired, rel))
    && ConfigPlanned(f, managedText, kind, p.config)
  }

  method PrepareInstall(disk: CodexDisk, desired: seq<DesiredFile>, managedText: string, kind: CodexConfig.Kind) returns (r: Result<Preparation>)
    modifies disk`faults
    ensures disk.faults >= old(disk.faults)
    ensures r.Ok? ==> Prepared(disk.files, desired, managedText, kind, r.value)
    ensures r.Ok? && disk.faults == old(disk.faults) ==> forall rel :: Obsolete(disk.files, desired, rel) ==> rel in r.value.remove
    ensures r.Fail? ==> disk.faults > old(disk.faults) || !CanPrepare(disk.files, desired, managedText, kind)
  {
    var loaded := LoadState(disk);
    if loaded.Fail? { return Fail; }
    var state := loaded.value;
    var ok := RequireOwnership(disk, desired, state.owned, state.config);
    if !ok { return Fail; }
    var remove := PlanObsolete(disk, desired, state.owned, state.config);
    var config := BuildConfig(disk, managedText, state.config, kind);
    if config.Fail? { return Fail; }
    return Ok(Preparation(desired, remove, config.value, state.owned, state.backup));
  }
}
