/** The data of a CLI install transaction: file images, the ownership state, the journal,
    and what a journal promises about the disk at every moment of its life. */
module CliJournal {
  import opened Results
  import opened FaultyDisk

  // ---------------------------------------------------------------- names and paths

  const MANAGED_NAMES: seq<string> := [
    "glm-worker", "glm-parent-action", "glm-publication-guard",
    "glm-codex-context", "commentlint", "harnesslint"]

  const BACKUP_SUFFIX: string := "-backup"

  /** Paths below the binary directory.  A temporary file carries the tag and the random part
      of its name. */
  datatype Path =
    | Binary(name: string)
    | BinaryTemp(tag: string, id: nat)
    | StateFile
    | StateTemp(id: nat)
    | JournalFile
    | JournalTemp(id: nat)

  predicate Temp(p: Path) {
    p.BinaryTemp? || p.StateTemp? || p.JournalTemp?
  }

  // ---------------------------------------------------------------- contents

  /** SHA-256 is taken to be injective on the contents in play, so a digest is the content. */
  type Digest = Content

  datatype InstallState = InstallState(binaries: map<string, Digest>, expected: map<string, Digest>)

  datatype Image = Absent | Present(digest: Digest, mode: nat)

  datatype JournalBinary = JournalBinary(
    name: string, target: Path, replacement: Path, backup: Option<Path>, pre: Image, post: Image)

  datatype Journal = Journal(
    stateTemp: Path, statePre: Image, statePost: Image, binaries: seq<JournalBinary>)

  datatype Content =
    | Blob(bytes: string)
    | StateDoc(state: InstallState)
    | JournalDoc(journal: Journal)

  type Files = map<Path, File<Content>>

  const EXECUTABLE: nat := 0x1ED // octal 755
  const PRIVATE: nat := 0x180    // octal 600

  // ---------------------------------------------------------------- images

  predicate FileMatches(file: Option<File<Content>>, image: Image) {
    match image
    case Absent => file.None?
    case Present(digest, mode) => file == Some(Regular(digest, mode))
  }

  predicate Matches(files: Files, p: Path, image: Image) {
    FileMatches(Lookup(files, p), image)
  }

  /** Evidence may already be gone, but what is there must be the recorded file. */
  predicate OptionalEvidence(files: Files, p: Path, image: Image) {
    p in files ==> Matches(files, p, image)
  }

  /** None when the surface is not a regular file. */
  function Snapshot(file: Option<File<Content>>): Option<Image> {
    match file
    case None => Some(Absent)
    case Some(Irregular) => None
    case Some(Regular(content, mode)) => Some(Present(content, mode))
  }

  // ---------------------------------------------------------------- journal validation

  predicate ValidImage(image: Image) {
    image.Present? ==> image.mode != 0
  }

  predicate TempWithPrefix(p: Path, prefix: string) {
    p.BinaryTemp? && prefix <= p.tag + "-"
  }

  predicate ValidBinary(b: JournalBinary) {
    && b.name in MANAGED_NAMES
    && b.target == Binary(b.name)
    && TempWithPrefix(b.replacement, b.name + "-")
    && (if b.pre.Present? then b.backup.Some? && TempWithPrefix(b.backup.value, b.name + BACKUP_SUFFIX + "-")
        else b.backup.None?)
    && ValidImage(b.pre)
    && b.post.Present? && b.post.mode == EXECUTABLE
  }

  predicate ValidJournal(j: Journal) {
    && j.stateTemp.StateTemp?
    && ValidImage(j.statePre)
    && j.statePost.Present? && ValidImage(j.statePost)
    && (forall i :: 0 <= i < |j.binaries| ==> ValidBinary(j.binaries[i]))
    && (forall i, k :: 0 <= i < k < |j.binaries| ==> j.binaries[i].name != j.binaries[k].name)
  }

  // ---------------------------------------------------------------- promises of a journal

  /** A journal as the installer writes it: the temporary files carry the tags they were staged
      under, every binary changes, and replacing an existing binary changes the ownership state. */
  ghost predicate Staged(j: Journal) {
    && ValidJournal(j) && j.binaries != []
    && (forall i :: 0 <= i < |j.binaries| ==> StagedBinary(j, j.binaries[i]))
  }

  ghost predicate StagedBinary(j: Journal, b: JournalBinary) {
    && b.replacement.BinaryTemp? && b.replacement.tag == b.name
    && (b.backup.Some? ==> b.backup.value.BinaryTemp? && b.backup.value.tag == b.name + BACKUP_SUFFIX)
    && b.pre != b.post
    && (b.pre.Present? ==> j.statePre != j.statePost)
  }

  ghost predicate StatePre(j: Journal, f: Files) { Matches(f, StateFile, j.statePre) }

  ghost predicate StatePost(j: Journal, f: Files) { Matches(f, StateFile, j.statePost) }

  ghost predicate IsPre(f: Files, b: JournalBinary) { Matches(f, b.target, b.pre) }

  ghost predicate IsPost(f: Files, b: JournalBinary) { Matches(f, b.target, b.post) }

  ghost predicate AllPre(j: Journal, f: Files) {
    StatePre(j, f) && forall i :: 0 <= i < |j.binaries| ==> IsPre(f, j.binaries[i])
  }

  /** The transaction counts as committed: state and every binary are postimages. */
  ghost predicate AllPost(j: Journal, f: Files) {
    StatePost(j, f) && forall i :: 0 <= i < |j.binaries| ==> IsPost(f, j.binaries[i])
  }

  ghost predicate SoundBinary(j: Journal, f: Files, b: JournalBinary) {
    && (IsPre(f, b) || IsPost(f, b))
    && (StatePost(j, f) && !StatePre(j, f) ==> IsPost(f, b))
    && OptionalEvidence(f, b.replacement, b.post)
    && (b.backup.Some? ==> OptionalEvidence(f, b.backup.value, b.pre))
    && (b.backup.Some? && StatePre(j, f) && IsPost(f, b) ==> b.backup.value in f)
  }

  /** What holds on the disk from the moment the journal is durable until it is removed. */
  ghost predicate Recoverable(j: Journal, f: Files) {
    && Staged(j)
    && (StatePre(j, f) || StatePost(j, f))
    && OptionalEvidence(f, j.stateTemp, j.statePost)
    && forall i :: 0 <= i < |j.binaries| ==> SoundBinary(j, f, j.binaries[i])
  }

  /** Between two processes: either no journal, or one that can be recovered. */
  ghost predicate Sound(f: Files) {
    JournalFile in f ==> f[JournalFile].Regular? && f[JournalFile].content.JournalDoc? && Recoverable(f[JournalFile].content.journal, f)
  }

  /** The targets, the state file and everything else but temporary files agree,
      except where the journal says so. */
  ghost predicate Untouched(j: Journal, before: Files, after: Files) {
    forall p :: !Temp(p) && p != JournalFile && p != StateFile && (forall i :: 0 <= i < |j.binaries| ==> p != j.binaries[i].target) ==>
      Lookup(after, p) == Lookup(before, p)
  }

  ghost predicate SameInstallation(before: Files, after: Files) {
    forall p :: !Temp(p) && p != JournalFile ==> Lookup(after, p) == Lookup(before, p)
  }

  // ---------------------------------------------------------------- lemmas

  /** No managed name is another one's backup tag. */
  lemma BackupTagsAreNotNames(a: string, b: string)
    requires a in MANAGED_NAMES && b in MANAGED_NAMES
    ensures a != b + BACKUP_SUFFIX
  {
    var l := b + BACKUP_SUFFIX;
    assert l[|l| - 1] == 'p';
    assert a[|a| - 1] != 'p';
  }

  /** The temporary files of a staged journal are pairwise different. */
  lemma TempsDiffer(j: Journal, i: nat, k: nat)
    requires Staged(j) && i < |j.binaries| && k < |j.binaries|
    ensures i != k ==> j.binaries[i].replacement != j.binaries[k].replacement
    ensures i != k && j.binaries[i].backup.Some? ==> j.binaries[i].backup != j.binaries[k].backup
    ensures j.binaries[i].backup != Some(j.binaries[k].replacement)
    ensures i != k ==> j.binaries[i].target != j.binaries[k].target
  {
    var b, c := j.binaries[i], j.binaries[k];
    assert StagedBinary(j, b) && StagedBinary(j, c) && ValidBinary(b) && ValidBinary(c);
    BackupTagsAreNotNames(c.name, b.name);
    if i != k && b.backup.Some? && c.backup.Some? {
      assert (b.name + BACKUP_SUFFIX)[..|b.name|] == b.name;
      assert (c.name + BACKUP_SUFFIX)[..|c.name|] == c.name;
      assert |b.name + BACKUP_SUFFIX| == |c.name + BACKUP_SUFFIX| ==> |b.name| == |c.name|;
    }
  }

  /** Deleting temporary files is safe once the transaction is uniformly pre or post. */
  lemma CleanupKeeps(j: Journal, f: Files, p: Path)
    requires Recoverable(j, f) && Temp(p) && (AllPre(j, f) || AllPost(j, f))
    ensures Recoverable(j, f - {p})
    ensures AllPre(j, f) <==> AllPre(j, f - {p})
    ensures AllPost(j, f) <==> AllPost(j, f - {p})
  {
    forall i | 0 <= i < |j.binaries|
      ensures SoundBinary(j, f - {p}, j.binaries[i])
      ensures IsPre(f, j.binaries[i]) <==> IsPre(f - {p}, j.binaries[i])
      ensures IsPost(f, j.binaries[i]) <==> IsPost(f - {p}, j.binaries[i])
    {
      var b := j.binaries[i];
      assert StagedBinary(j, b) && ValidBinary(b) && SoundBinary(j, f, b);
      assert AllPre(j, f) ==> IsPre(f, b) && !IsPost(f, b);
    }
  }

  /** The disk after putting back the preimage of b. */
  function Restored(f: Files, b: JournalBinary): Files {
    if b.backup.Some? && b.backup.value in f then f[b.target := f[b.backup.value]] - {b.backup.value}
    else f - {b.target}
  }

  lemma RestoreKeeps(j: Journal, f: Files, i: nat)
    requires Recoverable(j, f) && StatePre(j, f) && i < |j.binaries| && IsPost(f, j.binaries[i])
    ensures j.binaries[i].backup.Some? ==> j.binaries[i].backup.value in f
    ensures Recoverable(j, Restored(f, j.binaries[i])) && StatePre(j, Restored(f, j.binaries[i]))
    ensures IsPre(Restored(f, j.binaries[i]), j.binaries[i]) && !AllPost(j, Restored(f, j.binaries[i]))
    ensures forall k :: 0 <= k < |j.binaries| && k != i ==>
              Lookup(Restored(f, j.binaries[i]), j.binaries[k].target) == Lookup(f, j.binaries[k].target)
    ensures Untouched(j, f, Restored(f, j.binaries[i]))
    ensures Lookup(Restored(f, j.binaries[i]), JournalFile) == Lookup(f, JournalFile)
  {
    var b := j.binaries[i];
    var f' := Restored(f, b);
    assert StagedBinary(j, b) && ValidBinary(b) && SoundBinary(j, f, b);
    forall k | 0 <= k < |j.binaries| ensures SoundBinary(j, f', j.binaries[k]) {
      TempsDiffer(j, i, k);
      assert StagedBinary(j, j.binaries[k]) && ValidBinary(j.binaries[k]) && SoundBinary(j, f, j.binaries[k]);
    }
    assert IsPre(f', b) && !IsPost(f', b);
  }

  /** The disk after renaming the replacement of b over its target. */
  function Installed(f: Files, b: JournalBinary): Files
    requires b.replacement in f
  {
    f[b.target := f[b.replacement]] - {b.replacement}
  }

  lemma InstallKeeps(j: Journal, f: Files, i: nat)
    requires Recoverable(j, f) && StatePre(j, f) && i < |j.binaries|
    requires j.binaries[i].replacement in f
    requires j.binaries[i].backup.Some? ==> j.binaries[i].backup.value in f
    ensures Recoverable(j, Installed(f, j.binaries[i])) && StatePre(j, Installed(f, j.binaries[i]))
    ensures IsPost(Installed(f, j.binaries[i]), j.binaries[i])
    ensures forall k :: 0 <= k < |j.binaries| && k != i ==>
              Lookup(Installed(f, j.binaries[i]), j.binaries[k].target) == Lookup(f, j.binaries[k].target)
    ensures Untouched(j, f, Installed(f, j.binaries[i]))
    ensures Lookup(Installed(f, j.binaries[i]), JournalFile) == Lookup(f, JournalFile)
  {
    var b := j.binaries[i];
    var f' := Installed(f, b);
    assert StagedBinary(j, b) && ValidBinary(b) && SoundBinary(j, f, b);
    forall k | 0 <= k < |j.binaries| ensures SoundBinary(j, f', j.binaries[k]) {
      TempsDiffer(j, i, k);
      TempsDiffer(j, k, i);
      assert StagedBinary(j, j.binaries[k]) && ValidBinary(j.binaries[k]) && SoundBinary(j, f, j.binaries[k]);
    }
  }
}
