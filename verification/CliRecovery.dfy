/** Observation, validation, restore, cleanup and recovery of an interrupted CLI install. */
module CliRecovery {
  import opened Results
  import opened FaultyDisk
  import opened CliJournal

  type CliDisk = Disk<Path, Content>

  datatype BinaryObservation = BinaryObservation(pre: bool, post: bool)

  datatype Observation = Observation(statePre: bool, statePost: bool, binaries: seq<BinaryObservation>)

  ghost predicate Observes(j: Journal, f: Files, o: Observation) {
    && (o.statePre <==> StatePre(j, f)) && (o.statePost <==> StatePost(j, f))
    && |o.binaries| == |j.binaries|
    && forall i :: 0 <= i < |j.binaries| ==>
         (o.binaries[i].pre <==> IsPre(f, j.binaries[i])) && (o.binaries[i].post <==> IsPost(f, j.binaries[i]))
  }

  method MatchesOnDisk(disk: CliDisk, p: Path, image: Image) returns (r: Result<bool>)
    modifies disk`faults
    ensures r.Ok? ==> (r.value <==> Matches(disk.files, p, image)) && disk.faults == old(disk.faults)
    ensures r.Fail? ==> disk.faults > old(disk.faults)
  {
    var file := disk.Read(p);
    match file
    case Ok(f) => r := Ok(FileMatches(f, image));
    case Fail => r := Fail;
  }

  /** Fails on a read error, or when some target is neither its preimage nor its postimage. */
  method Observe(disk: CliDisk, j: Journal) returns (r: Result<Observation>)
    modifies disk`faults
    ensures r.Ok? ==> Observes(j, disk.files, r.value) && disk.faults == old(disk.faults)
    ensures r.Ok? ==> forall i :: 0 <= i < |j.binaries| ==> IsPre(disk.files, j.binaries[i]) || IsPost(disk.files, j.binaries[i])
    ensures r.Fail? && disk.faults == old(disk.faults) ==>
              exists i :: 0 <= i < |j.binaries| && !IsPre(disk.files, j.binaries[i]) && !IsPost(disk.files, j.binaries[i])
    ensures disk.faults >= old(disk.faults)
  {
    var statePre := MatchesOnDisk(disk, StateFile, j.statePre);
    if statePre.Fail? { return Fail; }
    var statePost := MatchesOnDisk(disk, StateFile, j.statePost);
    if statePost.Fail? { return Fail; }
    var binaries: seq<BinaryObservation> := [];
    for i := 0 to |j.binaries|
      invariant |binaries| == i && disk.faults == old(disk.faults)
      invariant forall k :: 0 <= k < i ==>
                  (binaries[k].pre <==> IsPre(disk.files, j.binaries[k])) && (binaries[k].post <==> IsPost(disk.files, j.binaries[k]))
      invariant forall k :: 0 <= k < i ==> IsPre(disk.files, j.binaries[k]) || IsPost(disk.files, j.binaries[k])
    {
      var pre := MatchesOnDisk(disk, j.binaries[i].target, j.binaries[i].pre);
      if pre.Fail? { return Fail; }
      var post := MatchesOnDisk(disk, j.binaries[i].target, j.binaries[i].post);
      if post.Fail? { return Fail; }
      if !pre.value && !post.value {
        assert !IsPre(disk.files, j.binaries[i]) && !IsPost(disk.files, j.binaries[i]);
        return Fail;
      }
      binaries := binaries + [BinaryObservation(pre.value, post.value)];
    }
    return Ok(Observation(statePre.value, statePost.value, binaries));
  }

  // ---------------------------------------------------------------- evidence

  ghost predicate BinaryEvidence(f: Files, b: JournalBinary, o: BinaryObservation, statePre: bool) {
    && OptionalEvidence(f, b.replacement, b.post)
    && (b.backup.Some? ==>
          && OptionalEvidence(f, b.backup.value, b.pre)
          && (o.post && statePre ==> b.backup.value in f))
  }

  ghost predicate Evidence(j: Journal, f: Files, o: Observation)
    requires |o.binaries| == |j.binaries|
  {
    && OptionalEvidence(f, j.stateTemp, j.statePost)
    && forall i :: 0 <= i < |j.binaries| ==> BinaryEvidence(f, j.binaries[i], o.binaries[i], o.statePre)
  }

  method EvidenceExists(disk: CliDisk, p: Path, image: Image) returns (r: Result<bool>)
    modifies disk`faults
    ensures r.Ok? ==> (r.value <==> p in disk.files) && OptionalEvidence(disk.files, p, image) && disk.faults == old(disk.faults)
    ensures r.Fail? ==> disk.faults > old(disk.faults) || !OptionalEvidence(disk.files, p, image)
    ensures disk.faults >= old(disk.faults)
  {
    var info := disk.Read(p);
    if info.Fail? { return Fail; }
    if info.value.None? { return Ok(false); }
    var matches_ := MatchesOnDisk(disk, p, image);
    if matches_.Fail? || !matches_.value { return Fail; }
    return Ok(true);
  }

  method ValidateBinaryEvidence(disk: CliDisk, b: JournalBinary, o: BinaryObservation, statePre: bool) returns (ok: bool)
    requires b.pre.Present? <==> b.backup.Some?
    modifies disk`faults
    ensures ok ==> BinaryEvidence(disk.files, b, o, statePre) && disk.faults == old(disk.faults)
    ensures !ok ==> disk.faults > old(disk.faults) || !BinaryEvidence(disk.files, b, o, statePre)
    ensures disk.faults >= old(disk.faults)
  {
    var replacement := EvidenceExists(disk, b.replacement, b.post);
    if replacement.Fail? { return false; }
    if b.pre.Absent? { return true; }
    var backup := EvidenceExists(disk, b.backup.value, b.pre);
    if backup.Fail? { return false; }
    return !(o.post && statePre && !backup.value);
  }

  method ValidateEvidence(disk: CliDisk, j: Journal, o: Observation) returns (ok: bool)
    requires |o.binaries| == |j.binaries|
    requires forall i :: 0 <= i < |j.binaries| ==> (j.binaries[i].pre.Present? <==> j.binaries[i].backup.Some?)
    modifies disk`faults
    ensures ok ==> Evidence(j, disk.files, o) && disk.faults == old(disk.faults)
    ensures !ok ==> disk.faults > old(disk.faults) || !Evidence(j, disk.files, o)
    ensures disk.faults >= old(disk.faults)
  {
    var temp := EvidenceExists(disk, j.stateTemp, j.statePost);
    if temp.Fail? { return false; }
    for i := 0 to |j.binaries|
      invariant disk.faults == old(disk.faults)
      invariant forall k :: 0 <= k < i ==> BinaryEvidence(disk.files, j.binaries[k], o.binaries[k], o.statePre)
    {
      ok := ValidateBinaryEvidence(disk, j.binaries[i], o.binaries[i], o.statePre);
      if !ok { return; }
    }
    return true;
  }

  lemma RecoverableHasEvidence(j: Journal, f: Files, o: Observation)
    requires Recoverable(j, f) && Observes(j, f, o)
    ensures Evidence(j, f, o)
  {
    forall i | 0 <= i < |j.binaries| ensures BinaryEvidence(f, j.binaries[i], o.binaries[i], o.statePre) {
      assert SoundBinary(j, f, j.binaries[i]);
    }
  }

  // ---------------------------------------------------------------- cleanup

  /** The journal is gone and the installation is uniformly before or uniformly after. */
  ghost predicate Concluded(j: Journal, post: bool, f: Files) {
    JournalFile !in f && if post then AllPost(j, f) else AllPre(j, f)
  }

  ghost predicate BinaryTempsGone(f: Files, b: JournalBinary) {
    b.replacement !in f && (b.backup.Some? ==> b.backup.value !in f)
  }

  method CleanupBinaryEvidence(disk: CliDisk, j: Journal, b: JournalBinary) returns (ok: bool)
    requires Recoverable(j, disk.files) && (AllPre(j, disk.files) || AllPost(j, disk.files))
    requires b in j.binaries
    modifies disk
    ensures Recoverable(j, disk.files) && SameInstallation(old(disk.files), disk.files)
    ensures Lookup(disk.files, JournalFile) == Lookup(old(disk.files), JournalFile)
    ensures AllPre(j, old(disk.files)) <==> AllPre(j, disk.files)
    ensures AllPost(j, old(disk.files)) <==> AllPost(j, disk.files)
    ensures disk.files.Keys <= old(disk.files.Keys)
    ensures ok ==> BinaryTempsGone(disk.files, b)
    ensures ok ==> disk.faults == old(disk.faults)
    ensures !ok ==> disk.faults > old(disk.faults)
  {
    assert ValidBinary(b);
    CleanupKeeps(j, disk.files, b.replacement);
    ok := disk.RemoveIfExists(b.replacement);
    if !ok { return; }
    if b.backup.Some? {
      CleanupKeeps(j, disk.files, b.backup.value);
      ok := disk.RemoveIfExists(b.backup.value);
    }
  }

  /** Deletes every temporary file of the journal and then the journal; a failure on the way
      leaves a recoverable journal with the same outcome. */
  method Cleanup(disk: CliDisk, j: Journal) returns (ok: bool)
    requires Recoverable(j, disk.files) && (AllPre(j, disk.files) || AllPost(j, disk.files))
    modifies disk
    ensures SameInstallation(old(disk.files), disk.files)
    ensures AllPre(j, old(disk.files)) <==> AllPre(j, disk.files)
    ensures AllPost(j, old(disk.files)) <==> AllPost(j, disk.files)
    ensures ok ==> JournalFile !in disk.files && disk.faults == old(disk.faults)
    ensures ok ==> j.stateTemp !in disk.files && forall i :: 0 <= i < |j.binaries| ==> BinaryTempsGone(disk.files, j.binaries[i])
    ensures !ok ==> disk.faults > old(disk.faults) && Recoverable(j, disk.files)
    ensures !ok ==> Lookup(disk.files, JournalFile) == Lookup(old(disk.files), JournalFile)
  {
    for i := 0 to |j.binaries|
      invariant Recoverable(j, disk.files) && SameInstallation(old(disk.files), disk.files)
      invariant Lookup(disk.files, JournalFile) == Lookup(old(disk.files), JournalFile)
      invariant AllPre(j, old(disk.files)) <==> AllPre(j, disk.files)
      invariant AllPost(j, old(disk.files)) <==> AllPost(j, disk.files)
      invariant disk.faults == old(disk.faults)
      invariant forall k :: 0 <= k < i ==> BinaryTempsGone(disk.files, j.binaries[k])
    {
      ok := CleanupBinaryEvidence(disk, j, j.binaries[i]);
      if !ok { return; }
    }
    CleanupKeeps(j, disk.files, j.stateTemp);
    ok := disk.RemoveIfExists(j.stateTemp);
    if !ok { return; }
    ok := disk.RemoveIfExists(JournalFile);
  }

  // ---------------------------------------------------------------- restore

  method RestorePreimage(disk: CliDisk, j: Journal, i: nat) returns (ok: bool)
    requires Recoverable(j, disk.files) && StatePre(j, disk.files) && i < |j.binaries| && IsPost(disk.files, j.binaries[i])
    modifies disk
    ensures ok ==> disk.files == Restored(old(disk.files), j.binaries[i]) && disk.faults == old(disk.faults)
    ensures !ok ==> disk.files == old(disk.files) && disk.faults > old(disk.faults)
  {
    var b := j.binaries[i];
    RestoreKeeps(j, disk.files, i);
    assert ValidBinary(b);
    if b.pre.Absent? {
      ok := disk.RemoveIfExists(b.target);
    } else {
      ok := disk.Rename(b.backup.value, b.target);
    }
  }

  /** Puts back, last to first, every binary that was observed as a postimage. */
  method RestorePreimages(disk: CliDisk, j: Journal, o: Observation) returns (ok: bool)
    requires Recoverable(j, disk.files) && StatePre(j, disk.files) && Observes(j, disk.files, o)
    modifies disk
    ensures Recoverable(j, disk.files) && StatePre(j, disk.files)
    ensures Untouched(j, old(disk.files), disk.files)
    ensures Lookup(disk.files, JournalFile) == Lookup(old(disk.files), JournalFile)
    ensures !AllPost(j, old(disk.files)) ==> !AllPost(j, disk.files)
    ensures ok ==> AllPre(j, disk.files) && disk.faults == old(disk.faults)
    ensures !ok ==> disk.faults > old(disk.faults)
  {
    var i := |j.binaries|;
    while i > 0
      invariant 0 <= i <= |j.binaries| && disk.faults == old(disk.faults)
      invariant Recoverable(j, disk.files) && StatePre(j, disk.files)
      invariant Untouched(j, old(disk.files), disk.files)
      invariant Lookup(disk.files, JournalFile) == Lookup(old(disk.files), JournalFile)
      invariant !AllPost(j, old(disk.files)) ==> !AllPost(j, disk.files)
      invariant forall k :: i <= k < |j.binaries| ==> IsPre(disk.files, j.binaries[k])
      invariant forall k :: 0 <= k < i ==>
                  Lookup(disk.files, j.binaries[k].target) == Lookup(old(disk.files), j.binaries[k].target)
    {
      i := i - 1;
      assert SoundBinary(j, disk.files, j.binaries[i]);
      if o.binaries[i].post {
        RestoreKeeps(j, disk.files, i);
        ok := RestorePreimage(disk, j, i);
        if !ok { return; }
      }
    }
    return true;
  }

  // ---------------------------------------------------------------- recovery

  /** What a recovery of journal j leaves behind, however often its calls fail: nothing outside
      the transaction changes; the journal disappears only once the installation is uniformly
      post (if the transaction was committed) or pre; until then the decision does not change. */
  ghost predicate Recovered(j: Journal, before: Files, after: Files) {
    && Untouched(j, before, after)
    && (JournalFile in after ==>
          && Lookup(after, JournalFile) == Lookup(before, JournalFile)
          && Recoverable(j, after) && (AllPost(j, after) <==> AllPost(j, before)))
    && (JournalFile !in after ==> Concluded(j, AllPost(j, before), after))
  }

  method RollbackRecovered(disk: CliDisk, j: Journal, o: Observation) returns (ok: bool)
    requires Recoverable(j, disk.files) && StatePre(j, disk.files) && Observes(j, disk.files, o)
    requires !AllPost(j, disk.files) && JournalFile in disk.files
    modifies disk
    ensures Recovered(j, old(disk.files), disk.files)
    ensures ok ==> JournalFile !in disk.files && disk.faults == old(disk.faults)
    ensures !ok ==> disk.faults > old(disk.faults)
  {
    ok := RestorePreimages(disk, j, o);
    if !ok { return; }
    var verified := Observe(disk, j);
    if verified.Fail? { return false; }
    if !verified.value.statePre { return false; }
    for i := 0 to |j.binaries|
    {
      if !verified.value.binaries[i].pre { return false; }
    }
    ok := Cleanup(disk, j);
  }

  method LoadJournal(disk: CliDisk) returns (r: Result<Option<Journal>>)
    requires Sound(disk.files)
    modifies disk`faults
    ensures r.Ok? ==> disk.faults == old(disk.faults)
    ensures r.Fail? ==> disk.faults > old(disk.faults)
    ensures r.Ok? ==> (r.value.None? <==> JournalFile !in disk.files)
    ensures r.Ok? && r.value.Some? ==>
              JournalFile in disk.files && disk.files[JournalFile].Regular? && disk.files[JournalFile].content == JournalDoc(r.value.value)
              && Recoverable(r.value.value, disk.files)
  {
    var file := disk.Read(JournalFile);
    if file.Fail? { return Fail; }
    if file.value.None? { return Ok(None); }
    if file.value.value.Irregular? || !file.value.value.content.JournalDoc? { return Fail; }
    var j := file.value.value.content.journal;
    if !ValidJournal(j) { return Fail; }
    return Ok(Some(j));
  }

  /** Recovery of whatever an interrupted install left behind.  It decides by what it observes,
      keeps the decision across any number of interruptions, and succeeds when no call fails. */
  method Recover(disk: CliDisk) returns (ok: bool)
    requires Sound(disk.files)
    modifies disk
    ensures Sound(disk.files)
    ensures JournalFile !in old(disk.files) ==> disk.files == old(disk.files)
    ensures JournalFile in old(disk.files) ==> Recovered(old(disk.files)[JournalFile].content.journal, old(disk.files), disk.files)
    ensures ok ==> JournalFile !in disk.files
    ensures disk.faults == old(disk.faults) ==> ok
    ensures disk.faults >= old(disk.faults)
  {
    var loaded := LoadJournal(disk);
    if loaded.Fail? { return false; }
    if loaded.value.None? { return true; }
    var j := loaded.value.value;
    var observed := Observe(disk, j);
    assert forall i :: 0 <= i < |j.binaries| ==> SoundBinary(j, disk.files, j.binaries[i]);
    if observed.Fail? { return false; }
    var o := observed.value;
    RecoverableHasEvidence(j, disk.files, o);
    ok := ValidateEvidence(disk, j, o);
    if !ok { return; }
    if o.statePost {
      var allPost := true;
      for i := 0 to |j.binaries|
        invariant allPost <==> forall k :: 0 <= k < i ==> IsPost(disk.files, j.binaries[k])
      {
        allPost := allPost && o.binaries[i].post;
      }
      if allPost {
        ok := Cleanup(disk, j);
      } else if o.statePre {
        ok := RollbackRecovered(disk, j, o);
      } else {
        ok := false;
      }
      return;
    }
    if !o.statePre { return false; }
    ok := RollbackRecovered(disk, j, o);
  }

  /** Recoveries compose: a chain of interrupted ones still reaches the first one's decision. */
  lemma RecoveredComposes(j: Journal, a: Files, b: Files, c: Files)
    requires Recovered(j, a, b) && JournalFile in b && Recovered(j, b, c)
    ensures Recovered(j, a, c)
  {
    forall p | !Temp(p) && p != JournalFile && p != StateFile && (forall i :: 0 <= i < |j.binaries| ==> p != j.binaries[i].target)
      ensures Lookup(c, p) == Lookup(a, p)
    {
      assert Lookup(b, p) == Lookup(a, p) && Lookup(c, p) == Lookup(b, p);
    }
  }

  /** Any number of recoveries, interrupted or not, until one completes: the installation is then
      uniformly post if it was committed when the first one started, and uniformly pre otherwise.
      `calm` is the fault count when the last one started; one without a fault completes. */
  method RecoverUntilDone(disk: CliDisk, attempts: nat) returns (ok: bool, ghost calm: nat)
    requires Sound(disk.files) && JournalFile in disk.files
    modifies disk
    ensures Recovered(old(disk.files)[JournalFile].content.journal, old(disk.files), disk.files)
    ensures ok ==> Concluded(old(disk.files)[JournalFile].content.journal,
                             AllPost(old(disk.files)[JournalFile].content.journal, old(disk.files)), disk.files)
    ensures ok <==> JournalFile !in disk.files
    ensures attempts > 0 && disk.faults == calm ==> ok
  {
    ghost var j := disk.files[JournalFile].content.journal;
    ok, calm := false, disk.faults;
    for n := 0 to attempts
      invariant !ok && Sound(disk.files) && JournalFile in disk.files
      invariant Recovered(j, old(disk.files), disk.files)
      invariant n > 0 ==> disk.faults > calm
    {
      ghost var before := disk.files;
      calm := disk.faults;
      ok := Recover(disk);
      RecoveredComposes(j, old(disk.files), before, disk.files);
      if JournalFile !in disk.files { return true, calm; }
    }
  }
}
