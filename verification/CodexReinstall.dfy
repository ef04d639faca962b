/** Codex installs one after another: what the preparation read from the disk makes of an install, and what
    the next preparation finds where one succeeded. */
module CodexReinstall {
  import opened Results
  import opened FaultyDisk
  import opened CodexJournal
  import opened CodexInstall
  import opened CodexCommit
  import opened CodexPlan
  import CodexConfig

  // ---------------------------------------------------------------- what is prepared can be applied

  /** The destinations the source tree is collected to: below the managed roots. */
  ghost predicate Targets(desired: seq<DesiredFile>) {
    forall i :: 0 <= i < |desired| ==> desired[i].path.Managed? && ValidSurfacePath(desired[i].path)
  }

  ghost predicate Distinct(desired: seq<DesiredFile>) {
    forall i, k :: 0 <= i < k < |desired| ==> desired[i].path != desired[k].path
  }

  /** The state file records such destinations only, as every install leaves it. */
  ghost predicate RecordsTargets(f: Files) {
    forall rel, digest :: RecordedAs(f, rel, digest) ==> rel.Managed? && ValidSurfacePath(rel)
  }

  /** A destination is named more than once only over the content that is installed there. */
  ghost predicate RepeatsInstalled(f: Files, desired: seq<DesiredFile>) {
    forall i, k :: 0 <= i < k < |desired| && desired[i].path == desired[k].path ==> Installed(f, desired[i]) && Installed(f, desired[k])
  }

  lemma PreparedIsSeparate(f: Files, desired: seq<DesiredFile>, managedText: string, kind: CodexConfig.Kind, p: Preparation)
    requires Prepared(f, desired, managedText, kind, p) && Targets(desired) && RecordsTargets(f)
    ensures SeparateTargets(p) && ConfigApart(p) && forall rel :: !Unjournallable(f, p, rel)
  {
    forall rel | rel in p.remove ensures rel.Managed? && ValidSurfacePath(rel) && ImageOf(Lookup(f, Surface(rel))).Some? {
      assert Obsolete(f, desired, rel) && RecordedAs(f, rel, InstalledAt(f, rel).value.content);
    }
    forall i | 0 <= i < |desired| ensures desired[i].path !in p.remove && ImageOf(Lookup(f, Surface(desired[i].path))).Some? {
      assert Free(f, desired[i].path);
      assert desired[i].path in p.remove ==> Obsolete(f, desired, desired[i].path);
    }
  }

  /** What the first entries write comes from one of them that is not installed. */
  lemma {:induction false} FirstWriteFrom(base: Files, desired: seq<DesiredFile>, rel: Name) returns (m: nat)
    requires FirstWrite(base, desired, rel).Some?
    ensures m < |desired| && desired[m].path == rel && !Installed(base, desired[m]) && FirstWrite(base, desired, rel) == Some(ImageFor(desired[m]))
  {
    var n := |desired| - 1;
    if FirstWrite(base, desired[..n], rel).Some? {
      m := FirstWriteFrom(base, desired[..n], rel);
    } else {
      m := n;
    }
  }

  lemma {:induction false} NoFirstWrite(base: Files, desired: seq<DesiredFile>, rel: Name, i: nat)
    requires FirstWrite(base, desired, rel).None? && i < |desired| && desired[i].path == rel
    ensures Installed(base, desired[i])
  {
    if i < |desired| - 1 { NoFirstWrite(base, desired[..|desired| - 1], rel, i); }
  }

  lemma PreparedProceeds(f: Files, desired: seq<DesiredFile>, managedText: string, kind: CodexConfig.Kind, p: Preparation)
    requires Prepared(f, desired, managedText, kind, p)
    ensures forall rel :: rel in p.remove ==> Removable(f, p, rel)
    ensures forall i :: 0 <= i < |desired| ==> OwnershipHolds(Lookup(f, Surface(desired[i].path)), desired[i].path, p.state)
  {
    forall rel | rel in p.remove ensures Removable(f, p, rel) {
      assert Obsolete(f, desired, rel);
      OwnedAsRecorded(f, p.state, RecordedConfig(f), rel, InstalledAt(f, rel).value.content);
    }
    forall i | 0 <= i < |desired| ensures OwnershipHolds(Lookup(f, Surface(desired[i].path)), desired[i].path, p.state) {
      assert Free(f, desired[i].path);
      OwnershipIsFree(f, p.state, RecordedConfig(f), desired[i].path);
    }
  }

  /** Entry i of a list whose repeats are installed ends with its own content. */
  lemma SettledEntry(f: Files, p: Preparation, i: nat)
    requires RepeatsInstalled(f, p.desired) && i < |p.desired|
    ensures FirstWrite(f, p.desired[..i], p.desired[i].path).None?
    ensures var image := Applied(f, p, p.desired[i].path); image.Some? && image.value.Present? && image.value.content == p.desired[i].content
  {
    var rel := p.desired[i].path;
    if FirstWrite(f, p.desired[..i], rel).Some? {
      var m := FirstWriteFrom(f, p.desired[..i], rel);
      assert false;
    }
    if FirstWrite(f, p.desired, rel).Some? {
      var m := FirstWriteFrom(f, p.desired, rel);
      assert m == i;
    } else {
      NoFirstWrite(f, p.desired, rel, i);
    }
  }

  /** An applied list whose contents all check out repeats a destination only over what is installed. */
  lemma CheckedRepeats(f: Files, p: Preparation, i: nat, k: nat)
    requires ProceedsTo(f, p, |p.desired|) && i < k < |p.desired| && p.desired[i].path == p.desired[k].path
    requires forall n :: 0 <= n < |p.desired| ==>
               var image := Applied(f, p, p.desired[n].path); image.Some? && image.value.Present? && image.value.content == p.desired[n].content
    ensures Installed(f, p.desired[i]) && Installed(f, p.desired[k])
  {
    var rel := p.desired[i].path;
    assert ProceedsAt(f, p, k);
    assert p.desired[..k][i] == p.desired[i];
    NoFirstWrite(f, p.desired[..k], rel, i);
    if FirstWrite(f, p.desired, rel).Some? {
      var m := FirstWriteFrom(f, p.desired, rel);
      assert false;
    }
    NoFirstWrite(f, p.desired, rel, k);
  }

  /** Installing what was just prepared meets no refusal, unless some destination is named twice over another content. */
  lemma PreparedInstallsIff(f: Files, desired: seq<DesiredFile>, managedText: string, kind: CodexConfig.Kind, p: Preparation)
    requires Prepared(f, desired, managedText, kind, p) && Targets(desired) && RecordsTargets(f)
    requires CodexConfig.Reads(kind, CodexConfig.MANAGED_KEY)
    ensures CanInstall(f, p, kind) <==> RepeatsInstalled(f, desired)
  {
    PreparedIsSeparate(f, desired, managedText, kind, p);
    PreparedProceeds(f, desired, managedText, kind, p);
    PreparedConfigCarries(f, desired, managedText, kind, p);
    if RepeatsInstalled(f, desired) {
      forall i | 0 <= i < |desired|
        ensures ProceedsAt(f, p, i)
        ensures var image := Applied(f, p, desired[i].path); image.Some? && image.value.Present? && image.value.content == desired[i].content
      {
        SettledEntry(f, p, i);
      }
    }
    if CanInstall(f, p, kind) {
      forall i, k | 0 <= i < k < |desired| && desired[i].path == desired[k].path ensures Installed(f, desired[i]) && Installed(f, desired[k]) {
        CheckedRepeats(f, p, i, k);
      }
    }
  }

  lemma PreparedConfigCarries(f: Files, desired: seq<DesiredFile>, managedText: string, kind: CodexConfig.Kind, p: Preparation)
    requires Prepared(f, desired, managedText, kind, p) && CodexConfig.Reads(kind, CodexConfig.MANAGED_KEY)
    ensures ConfigCarries(ConfigAfter(f, p), p.config, kind)
  {
    var plan := CodexConfig.BuildPlan(managedText, ConfigText(ConfigFile(f)).value, RecordedConfig(f), CodexConfig.MANAGED_KEY, kind).value;
    assert plan == CodexConfig.Plan(p.config.next, p.config.changed, p.config.record, plan.preserved);
    PlannedConfigCarries(f, p, managedText, RecordedConfig(f), plan.preserved, kind);
  }

  // ---------------------------------------------------------------- what an install leaves

  /** The sources are installed and owned: the state file records exactly the desired files, each of which has its
      content, and the config record the text of config.toml agrees with. */
  ghost predicate InstalledFrom(f: Files, desired: seq<DesiredFile>, managedText: string, kind: CodexConfig.Kind) {
    && (exists files :: RecordsOf(desired, files) && StateFile(f) == Some(Regular(StateDoc(files, RecordedConfig(f)), 0x1A4)))
    && (forall i :: 0 <= i < |desired| ==> HasContent(f, desired[i]))
    && ConfigText(ConfigFile(f)).Some?
    && (var text := ConfigText(ConfigFile(f)).value;
        CodexConfig.BuildPlan(managedText, text, RecordedConfig(f), CodexConfig.MANAGED_KEY, kind)
        == Ok(CodexConfig.Plan(text, false, RecordedConfig(f), false)))
  }

  lemma InForceIsInstalled(base: Files, desired: seq<DesiredFile>, managedText: string, kind: CodexConfig.Kind, p: Preparation, f: Files)
    requires Prepared(base, desired, managedText, kind, p) && Targets(desired) && RecordsTargets(base)
    requires InForce(p, f) && OnlyPlanned(p, base, f) && CodexConfig.Reads(kind, CodexConfig.MANAGED_KEY)
    ensures InstalledFrom(f, desired, managedText, kind)
  {
    PreparedIsSeparate(base, desired, managedText, kind, p);
    var data := ConfigText(ConfigFile(base)).value;
    CodexConfig.PlanIsIdempotent(managedText, data, RecordedConfig(base), CodexConfig.MANAGED_KEY, kind);
    CodexConfig.ChangedMeansDifferent(managedText, data, RecordedConfig(base), CodexConfig.MANAGED_KEY, kind);
    if !p.config.changed {
      assert !PlannedSurface(p, Config);
      assert Lookup(f, Surface(Config)) == Lookup(base, Surface(Config));
    }
    assert ConfigText(ConfigFile(f)) == Some(p.config.next) && RecordedConfig(f) == p.config.record;
  }

  lemma RecordedByInstall(f: Files, desired: seq<DesiredFile>, managedText: string, kind: CodexConfig.Kind, rel: Name, digest: Digest)
    requires InstalledFrom(f, desired, managedText, kind)
    ensures RecordedAs(f, rel, digest) <==> exists i :: 0 <= i < |desired| && desired[i].path == rel && desired[i].content == digest
  {
    var files := StateFile(f).value.content.files;
    assert RecordsOf(desired, files);
    if (rel, digest) in files {
      var i :| 0 <= i < |files| && files[i] == (rel, digest);
      assert desired[i].path == rel;
    }
    if i :| 0 <= i < |desired| && desired[i].path == rel && desired[i].content == digest {
      assert files[i] == (rel, digest);
    }
  }

  /** A successful install leaves a state file that the next one accepts exactly when its sources named every
      destination once. */
  lemma InstalledIsReadableIff(f: Files, desired: seq<DesiredFile>, managedText: string, kind: CodexConfig.Kind)
    requires InstalledFrom(f, desired, managedText, kind) && Targets(desired)
    ensures Readable(f) <==> Distinct(desired)
    ensures RecordsTargets(f)
  {
    var files, text := StateFile(f).value.content.files, ConfigText(ConfigFile(f)).value;
    assert RecordsOf(desired, files);
    CodexConfig.FoundInRange(CodexConfig.Lines(managedText), 0, kind);
    forall i | 0 <= i < |files| ensures CleanRelative(RelativePath(files[i].0)) { assert files[i].0 == desired[i].path; }
    forall i, k | 0 <= i < k < |files| ensures files[i].0 != files[k].0 <==> desired[i].path != desired[k].path {}
    forall rel, digest | RecordedAs(f, rel, digest) ensures rel.Managed? && ValidSurfacePath(rel) {
      RecordedByInstall(f, desired, managedText, kind, rel, digest);
    }
  }

  // ---------------------------------------------------------------- the next install

  /** Where an install succeeded, its destinations are owned, and every other one is free exactly when nothing is there. */
  lemma FreeAfterInstall(f: Files, desired: seq<DesiredFile>, managedText: string, kind: CodexConfig.Kind, rel: Name)
    requires InstalledFrom(f, desired, managedText, kind)
    ensures Free(f, rel) <==> Mentions(desired, rel) || InstalledAt(f, rel).None?
  {
    forall digest ensures RecordedAs(f, rel, digest) <==> exists i :: 0 <= i < |desired| && desired[i].path == rel && desired[i].content == digest {
      RecordedByInstall(f, desired, managedText, kind, rel, digest);
    }
    if i :| 0 <= i < |desired| && desired[i].path == rel { assert HasContent(f, desired[i]); }
  }

  /** The next sources, whatever they are, can be prepared exactly when each of their destinations is clean, and
      owned or not there, and the config line can be planned: an update, an addition or a removal is never taken
      for the user's change. */
  lemma UpdateCanPrepareIff(f: Files, desired: seq<DesiredFile>, managedText: string, kind: CodexConfig.Kind,
                            next: seq<DesiredFile>, nextManaged: string)
    requires InstalledFrom(f, desired, managedText, kind) && Targets(desired) && Distinct(desired) && Targets(next)
    ensures CanPrepare(f, next, nextManaged, kind) <==>
              && (forall i :: 0 <= i < |next| ==> Mentions(desired, next[i].path) || InstalledAt(f, next[i].path).None?)
              && ConfigPlannable(f, nextManaged, kind)
    ensures forall rel :: Obsolete(f, next, rel) <==> Mentions(desired, rel) && !Mentions(next, rel)
  {
    InstalledIsReadableIff(f, desired, managedText, kind);
    forall i | 0 <= i < |next| ensures Free(f, next[i].path) <==> Mentions(desired, next[i].path) || InstalledAt(f, next[i].path).None? {
      FreeAfterInstall(f, desired, managedText, kind, next[i].path);
    }
    forall rel ensures Obsolete(f, next, rel) <==> Mentions(desired, rel) && !Mentions(next, rel) {
      ObsoleteAfterInstall(f, desired, managedText, kind, next, rel);
    }
  }

  lemma ObsoleteAfterInstall(f: Files, desired: seq<DesiredFile>, managedText: string, kind: CodexConfig.Kind, next: seq<DesiredFile>, rel: Name)
    requires InstalledFrom(f, desired, managedText, kind) && Distinct(desired)
    ensures Obsolete(f, next, rel) <==> Mentions(desired, rel) && !Mentions(next, rel)
  {
    if i :| 0 <= i < |desired| && desired[i].path == rel {
      assert HasContent(f, desired[i]);
      RecordedByInstall(f, desired, managedText, kind, rel, desired[i].content);
    } else if InstalledAt(f, rel).Some? && InstalledAt(f, rel).value.Regular? {
      RecordedByInstall(f, desired, managedText, kind, rel, InstalledAt(f, rel).value.content);
    }
  }

  lemma SecondCanPrepare(f: Files, desired: seq<DesiredFile>, managedText: string, kind: CodexConfig.Kind)
    requires InstalledFrom(f, desired, managedText, kind) && Targets(desired) && Distinct(desired)
    ensures CanPrepare(f, desired, managedText, kind) && RepeatsInstalled(f, desired)
  {
    UpdateCanPrepareIff(f, desired, managedText, kind, desired, managedText);
    forall i | 0 <= i < |desired| ensures Mentions(desired, desired[i].path) { assert desired[i].path == desired[i].path; }
  }

  /** A second preparation from the same sources is accepted and finds nothing to do: no file to write or remove, no
      config change, the same record. */
  lemma SecondPlanIsIdle(f: Files, desired: seq<DesiredFile>, managedText: string, kind: CodexConfig.Kind, p: Preparation)
    requires InstalledFrom(f, desired, managedText, kind) && Targets(desired) && Distinct(desired)
    requires Prepared(f, desired, managedText, kind, p)
    ensures (forall rel :: rel !in p.remove) && !p.config.changed && p.config.record == RecordedConfig(f)
    ensures forall i :: 0 <= i < |desired| ==> Installed(f, p.desired[i])
  {
    UpdateCanPrepareIff(f, desired, managedText, kind, desired, managedText);
    forall i | 0 <= i < |desired| ensures Installed(f, desired[i]) { assert HasContent(f, desired[i]); }
    assert forall rel :: rel in p.remove ==> Obsolete(f, desired, rel);
  }

  /** Files the sources do not mention: the obsolete ones are gone, all others are as they were. */
  ghost predicate OthersSettled(before: Files, desired: seq<DesiredFile>, after: Files) {
    forall rel: Name :: rel.Managed? && !Mentions(desired, rel) ==>
      Lookup(after, Surface(rel)) == if Obsolete(before, desired, rel) then None else Lookup(before, Surface(rel))
  }

  /** Installing from the disk: prepare, then apply.  If no call fails it succeeds exactly when the sources can be
      prepared and repeat no destination over another content.  A success leaves the sources installed and owned,
      and a state file that the next install accepts exactly when they named every destination once.  Where they were
      installed already it changes nothing. */
  method InstallFromDisk(disk: CodexDisk, desired: seq<DesiredFile>, managedText: string, kind: CodexConfig.Kind) returns (ok: bool)
    requires JournalFile !in disk.files && Targets(desired) && RecordsTargets(disk.files)
    requires CodexConfig.Reads(kind, CodexConfig.MANAGED_KEY)
    modifies disk
    ensures disk.faults == old(disk.faults) ==>
              (ok <==> CanPrepare(old(disk.files), desired, managedText, kind) && RepeatsInstalled(old(disk.files), desired))
    ensures !CanPrepare(old(disk.files), desired, managedText, kind) ==> !ok && disk.files == old(disk.files)
    ensures ok ==> JournalFile !in disk.files && InstalledFrom(disk.files, desired, managedText, kind)
    ensures ok ==> RecordsTargets(disk.files) && (Readable(disk.files) <==> Distinct(desired))
    ensures ok && disk.faults == old(disk.faults) ==> OthersSettled(old(disk.files), desired, disk.files)
    ensures disk.faults >= old(disk.faults)
    ensures InstalledFrom(old(disk.files), desired, managedText, kind) && Distinct(desired) ==>
              && (JournalFile !in disk.files ==> SameSurfaces(old(disk.files), disk.files))
              && (disk.faults == old(disk.faults) ==> ok)
  {
    ghost var base := disk.files;
    ghost var idle := InstalledFrom(base, desired, managedText, kind) && Distinct(desired);
    if idle { SecondCanPrepare(base, desired, managedText, kind); }
    var prepared := PrepareInstall(disk, desired, managedText, kind);
    if prepared.Fail? { return false; }
    ghost var complete := disk.faults == old(disk.faults);
    ok := InstallPrepared(disk, desired, managedText, kind, prepared.value, complete);
    if ok { InstalledIsReadableIff(disk.files, desired, managedText, kind); }
  }

  /** Applying what was just prepared; `complete` says that every obsolete file was found. */
  method InstallPrepared(disk: CodexDisk, ghost desired: seq<DesiredFile>, ghost managedText: string, kind: CodexConfig.Kind,
                         p: Preparation, ghost complete: bool) returns (ok: bool)
    requires JournalFile !in disk.files && Targets(desired) && RecordsTargets(disk.files)
    requires CodexConfig.Reads(kind, CodexConfig.MANAGED_KEY) && Prepared(disk.files, desired, managedText, kind, p)
    requires complete ==> forall rel :: Obsolete(disk.files, desired, rel) ==> rel in p.remove
    modifies disk
    ensures disk.faults >= old(disk.faults)
    ensures disk.faults == old(disk.faults) ==> (ok <==> RepeatsInstalled(old(disk.files), desired))
    ensures ok ==> JournalFile !in disk.files && InstalledFrom(disk.files, desired, managedText, kind)
    ensures ok && complete ==> OthersSettled(old(disk.files), desired, disk.files)
    ensures InstalledFrom(old(disk.files), desired, managedText, kind) && Distinct(desired) && JournalFile !in disk.files ==>
              SameSurfaces(old(disk.files), disk.files)
  {
    ghost var base := disk.files;
    PreparedIsSeparate(base, desired, managedText, kind, p);
    PreparedInstallsIff(base, desired, managedText, kind, p);
    ghost var journal, stateWritten;
    ok, journal, stateWritten := ApplyInstall(disk, p, kind);
    if ok {
      InForceIsInstalled(base, desired, managedText, kind, p, disk.files);
      if complete { OthersAreSettled(base, desired, managedText, kind, p, disk.files); }
    }
    if InstalledFrom(base, desired, managedText, kind) && Distinct(desired) && JournalFile !in disk.files {
      SecondPlanIsIdle(base, desired, managedText, kind, p);
      IdleChangesNothing(base, p, journal, stateWritten, disk.files);
    }
  }

  lemma OthersAreSettled(base: Files, desired: seq<DesiredFile>, managedText: string, kind: CodexConfig.Kind, p: Preparation, f: Files)
    requires Prepared(base, desired, managedText, kind, p) && InForce(p, f) && OnlyPlanned(p, base, f)
    requires forall rel :: Obsolete(base, desired, rel) ==> rel in p.remove
    ensures OthersSettled(base, desired, f)
  {
    forall rel: Name | rel.Managed? && !Mentions(desired, rel)
      ensures Lookup(f, Surface(rel)) == if Obsolete(base, desired, rel) then None else Lookup(base, Surface(rel))
    {
      assert PlannedSurface(p, rel) <==> rel in p.remove;
    }
  }

  /** An idle plan leaves every surface as it was. */
  lemma IdleChangesNothing(base: Files, p: Preparation, journal: Option<Journal>, stateWritten: bool, f: Files)
    requires Attempted(base, p, journal, stateWritten, f) && JournalFile !in f && OnlyPlanned(p, base, f)
    requires (forall rel :: rel !in p.remove) && !p.config.changed && (forall i :: 0 <= i < |p.desired| ==> Installed(base, p.desired[i]))
    requires exists files :: RecordsOf(p.desired, files) && StateFile(base) == Some(Regular(StateDoc(files, p.config.record), 0x1A4))
    ensures SameSurfaces(base, f)
  {
    forall rel | PlannedSurface(p, rel) ensures Lookup(f, Surface(rel)) == Lookup(base, Surface(rel)) {
      if stateWritten {
        IdleLanded(base, p, f, rel);
      } else if journal.Some? {
        IdleUndone(base, p, journal.value, f, rel);
      }
    }
  }

  lemma IdleUndone(base: Files, p: Preparation, j: Journal, f: Files, rel: Name)
    requires JournalFor(base, p, j) && AllPre(j, f) && PlannedSurface(p, rel)
    ensures Lookup(f, Surface(rel)) == Lookup(base, Surface(rel))
  {
    var n := PlannedIsJournalled(p, j, rel);
    assert IsPre(f, j.surfaces[n]) && IsPre(base, j.surfaces[n]);
  }

  lemma IdleLanded(base: Files, p: Preparation, f: Files, rel: Name)
    requires Landed(base, p, f) && PlannedSurface(p, rel)
    requires (forall rel :: rel !in p.remove) && !p.config.changed && (forall i :: 0 <= i < |p.desired| ==> Installed(base, p.desired[i]))
    requires exists files :: RecordsOf(p.desired, files) && StateFile(base) == Some(Regular(StateDoc(files, p.config.record), 0x1A4))
    ensures Lookup(f, Surface(rel)) == Lookup(base, Surface(rel))
  {
    if i :| 0 <= i < |p.desired| && p.desired[i].path == rel {
      if FirstWrite(base, p.desired, rel).Some? {
        var m := FirstWriteFrom(base, p.desired, rel);
        assert false;
      }
    } else {
      var files :| RecordsOf(p.desired, files) && StateFile(base) == Some(Regular(StateDoc(files, p.config.record), 0x1A4));
      assert files == DesiredRecords(p.desired);
    }
  }

  /** The config line of any next sources can be planned exactly when they are well-formed and do not ask for the
      key where the user has set another value. */
  lemma UpdateConfigIff(f: Files, desired: seq<DesiredFile>, managedText: string, kind: CodexConfig.Kind, nextManaged: string)
    requires InstalledFrom(f, desired, managedText, kind)
    ensures var asked := CodexConfig.Find(CodexConfig.Lines(nextManaged), 0, kind);
            var current := CodexConfig.Find(CodexConfig.Lines(ConfigText(ConfigFile(f)).value), 0, kind);
            && current.Ok?
            && (ConfigPlannable(f, nextManaged, kind) <==>
                && asked.Ok?
                && (asked.value.Some? && RecordedConfig(f).None? && current.value.Some? ==> current.value.value.value == asked.value.value.value))
  {
  }

  /** The install after a successful one, from any sources.  Without a failing call it is refused only for what the first
      one does not own, and the files only the first one had are removed.  Sources that named a destination twice end
      it: nothing can be installed after them. */
  method InstallAfter(disk: CodexDisk, ghost desired: seq<DesiredFile>, ghost managedText: string,
                      next: seq<DesiredFile>, nextManaged: string, kind: CodexConfig.Kind) returns (ok: bool)
    requires JournalFile !in disk.files && Targets(desired) && Targets(next)
    requires InstalledFrom(disk.files, desired, managedText, kind) && CodexConfig.Reads(kind, CodexConfig.MANAGED_KEY)
    modifies disk
    ensures !Distinct(desired) ==> !ok && disk.files == old(disk.files)
    ensures Distinct(desired) && Distinct(next) && disk.faults == old(disk.faults) ==>
              (ok <==> && (forall i :: 0 <= i < |next| ==> Mentions(desired, next[i].path) || InstalledAt(old(disk.files), next[i].path).None?)
                       && ConfigPlannable(old(disk.files), nextManaged, kind))
    ensures Distinct(desired) && ok && disk.faults == old(disk.faults) ==>
              forall rel: Name :: Mentions(desired, rel) && !Mentions(next, rel) ==> Lookup(disk.files, Surface(rel)).None?
    ensures ok ==> InstalledFrom(disk.files, next, nextManaged, kind)
  {
    ghost var base := disk.files;
    InstalledIsReadableIff(base, desired, managedText, kind);
    if Distinct(desired) { UpdateCanPrepareIff(base, desired, managedText, kind, next, nextManaged); }
    ok := InstallFromDisk(disk, next, nextManaged, kind);
  }

  /** Such sources do get installed: once a file is installed, sources that name it twice with its content pass every
      check. */
  lemma RepeatedTargetLocksOut(rel: Name, x: string, mode: nat, kind: CodexConfig.Kind)
    requires rel.Managed? && ValidSurfacePath(rel) && kind("") == CodexConfig.Ignored
    ensures var f: Files := map[Surface(State) := Regular(StateDoc([(rel, Bytes(x))], None), STATE_MODE), Surface(rel) := Regular(Bytes(x), mode)];
            var once := [DesiredFile(rel, Bytes(x), mode)];
            && InstalledFrom(f, once, "", kind) && Targets(once + once) && RecordsTargets(f) && !Distinct(once + once)
            && CanPrepare(f, once + once, "", kind) && RepeatsInstalled(f, once + once)
  {
    var f: Files := map[Surface(State) := Regular(StateDoc([(rel, Bytes(x))], None), STATE_MODE), Surface(rel) := Regular(Bytes(x), mode)];
    var once := [DesiredFile(rel, Bytes(x), mode)];
    assert RecordsOf(once, [(rel, Bytes(x))]) && HasContent(f, once[0]);
    CodexConfig.EmptyLineIgnored(0, kind);
    assert CodexConfig.Lines("") == [""];
    InstalledIsReadableIff(f, once, "", kind);
    assert (once + once)[0].path == (once + once)[1].path;
    FreeAfterInstall(f, once, "", kind, rel);
    assert once[0].path == rel;
  }
}
