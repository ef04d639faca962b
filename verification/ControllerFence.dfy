/** Fencing of the repository controller: one head with a growing generation, leases bound to a
    generation, and authority transitions in three steps.  Reads work; a write may fail and stop the
    operation, and `faults` counts such failures; operations that write hold the mutation lock, so they do not
    overlap. */
module ControllerFence {
  import opened Results

  const WIDTH: nat := 0x1_0000_0000_0000_0000

  /** Unsigned 64-bit addition. */
  function Plus(generation: nat, k: nat): nat {
    (generation + k) % WIDTH
  }

  type TaskRef = string

  datatype Workspace = Workspace(id: string, repository: string, root: string)

  datatype Snapshot = Snapshot(id: string, head: string)

  datatype Attempt = Attempt(id: string, task: TaskRef, root: TaskRef, live: bool)

  datatype Lease = Lease(id: string, attemptId: string, task: TaskRef, generation: nat, workspaceId: string, baseOid: string, snapshotId: string)

  datatype Authority = Authority(project: string, root: Option<TaskRef>, execution: Option<TaskRef>, attempt: string, lease: string, episode: string)

  datatype Status = Active | FailClosed

  datatype Head = Head(generation: nat, status: Status, pending: string, failure: string, authority: Authority)

  datatype Phase = Prepared | Applied | Committed | Finalizing | Finalized | Aborted | Failed

  datatype Transition = Transition(id: string, source: nat, prepared: nat, committed: nat, target: nat)

  datatype Claim = Claim(generation: nat, attempt: string, lease: string, task: TaskRef)

  datatype Admission = Admission(head: Head, attempt: Attempt, lease: Lease, workspace: Workspace, snapshot: Snapshot)

  const NO_AUTHORITY := Authority("", None, None, "", "", "")

  predicate Pristine(h: Head) {
    h == Head(0, Active, "", "", NO_AUTHORITY)
  }

  function BuildTransition(source: nat, id: string): Transition {
    Transition(id, source, Plus(source, 1), Plus(source, 2), Plus(source, 3))
  }

  /** Each generation of a transition is one more than the one before, unless it wraps around. */
  lemma TransitionGenerations(t: Transition)
    requires t == BuildTransition(t.source, t.id)
    ensures t.prepared > t.source <==> t.source + 1 < 0x1_0000_0000_0000_0000
    ensures t.committed > t.prepared <==> t.prepared + 1 < 0x1_0000_0000_0000_0000
    ensures t.target > t.committed <==> t.committed + 1 < 0x1_0000_0000_0000_0000
    ensures t.target > t.prepared <==> t.prepared + 2 < 0x1_0000_0000_0000_0000
    ensures t.prepared > t.source ==> t.prepared == t.source + 1
    ensures t.committed > t.prepared ==> t.committed == t.prepared + 1
    ensures t.target > t.committed ==> t.target == t.committed + 1
    ensures t.target > t.prepared ==> t.target == t.prepared + 2
  {
  }

  function ClaimOf(a: Admission): Claim {
    Claim(a.head.generation, a.attempt.id, a.lease.id, a.attempt.task)
  }

  // ---------------------------------------------------------------- histories

  ghost predicate Increasing(heads: seq<Head>) {
    forall i, k :: 0 <= i < k < |heads| ==> heads[i].generation < heads[k].generation
  }

  ghost predicate FailureStays(heads: seq<Head>) {
    forall i, k :: 0 <= i < k < |heads| && heads[i].status == FailClosed ==> heads[k].status == FailClosed
  }

  /** The lease was the live one of an active head of this generation with nothing pending. */
  ghost predicate AdmittedUnder(heads: seq<Head>, lease: string, generation: nat) {
    exists i :: 0 <= i < |heads| && UnderHead(heads[i], lease, generation)
  }

  ghost predicate UnderHead(h: Head, lease: string, generation: nat) {
    h.generation == generation && h.status == Active && h.pending == "" && h.authority.lease == lease
  }

  /** A committed, not yet finalized transition wrote the head of its committed generation. */
  ghost predicate CommitRecorded(heads: seq<Head>, t: Transition) {
    exists i :: 0 <= i < |heads| && CommittedHead(heads[i], t)
  }

  ghost predicate CommittedHead(h: Head, t: Transition) {
    h.generation == t.committed && h.status == Active && h.pending == t.id
  }

  /** A pending transition is a written one, at least prepared; only an active head is just prepared. */
  ghost predicate PendingFits(h: Head, transitions: map<string, Transition>) {
    h.pending != "" ==>
      && h.pending in transitions && transitions[h.pending].prepared <= h.generation
      && (h.generation == transitions[h.pending].prepared ==> h.status == Active)
  }

  ghost predicate MayFollow(h: Head, next: Head, transitions: map<string, Transition>) {
    PendingFits(next, transitions) && (h.status == FailClosed ==> next.status == FailClosed)
  }

  ghost predicate Extends(h: seq<Head>, a: set<(string, nat)>, l: map<string, Lease>,
                          h': seq<Head>, a': set<(string, nat)>, l': map<string, Lease>) {
    h <= h' && a <= a' && forall id :: id in l ==> id in l' && l'[id].generation == l[id].generation
  }

  lemma ExtendsTransitive(h0: seq<Head>, a0: set<(string, nat)>, l0: map<string, Lease>, h1: seq<Head>, a1: set<(string, nat)>,
                          l1: map<string, Lease>, h2: seq<Head>, a2: set<(string, nat)>, l2: map<string, Lease>)
    requires Extends(h0, a0, l0, h1, a1, l1) && Extends(h1, a1, l1, h2, a2, l2)
    ensures Extends(h0, a0, l0, h2, a2, l2)
  {
  }

  /** The claim names the live authority of an active head with nothing pending, and the live lease
      is of the head's generation, for this workspace and snapshot. */
  predicate Fits(repository: string, h: Head, attempt: Attempt, lease: Lease, claim: Claim, workspace: Workspace, snapshot: Snapshot) {
    && h.status == Active && h.pending == ""
    && h.authority.attempt != "" && h.authority.lease != "" && h.authority.root.Some?
    && h.authority.execution == Some(claim.task) && h.authority.project != ""
    && claim.generation == h.generation && claim.attempt == h.authority.attempt && claim.lease == h.authority.lease
    && attempt.live && attempt.id == h.authority.attempt && lease.id == h.authority.lease && lease.attemptId == attempt.id
    && attempt.task == claim.task == lease.task && attempt.root == h.authority.root.value
    && lease.generation == h.generation
    && workspace.repository == repository && workspace.id == lease.workspaceId
    && snapshot.head == lease.baseOid && snapshot.id == lease.snapshotId
  }

  /** The authority moved to a lease of the next generation for the snapshot after the mutation. */
  lemma NextLeaseFits(repository: string, h: Head, attempt: Attempt, lease: Lease, claim: Claim, w: Workspace, s: Snapshot,
                      leaseId: string, generation: nat, after: Snapshot)
    requires Fits(repository, h, attempt, lease, claim, w, s) && leaseId != ""
    ensures Fits(repository, h.(generation := generation, authority := h.authority.(lease := leaseId)), attempt,
                 lease.(id := leaseId, generation := generation, baseOid := after.head, snapshotId := after.id),
                 Claim(generation, attempt.id, leaseId, attempt.task), w, after)
  {
  }

  /** Where an admitted task stands in the committed repository. */
  datatype CommittedTask = CommittedTask(task: TaskRef, project: string, headOid: string, parentOnly: bool)

  class Store {
    const repository: string
    const primaryRoot: string
    var head: Head
    var attempts: map<string, Attempt>
    var leases: map<string, Lease>
    var transitions: map<string, Transition>
    var phases: map<string, Phase>
    ghost var heads: seq<Head>
    ghost var faults: nat
    ghost var admissions: set<(string, nat)>

    ghost predicate Valid()
      reads this
    {
      && heads != [] && heads[|heads| - 1] == head && Increasing(heads) && FailureStays(heads)
      && PendingFits(head, transitions)
      && (forall l :: l in leases ==> leases[l].id == l)
      && (forall a :: a in attempts ==> attempts[a].id == a)
      && (forall l, g :: (l, g) in admissions ==> l in leases && leases[l].generation == g && AdmittedUnder(heads, l, g))
      && (forall id :: id in transitions ==> transitions[id].id == id)
      && (forall id :: id in phases && (phases[id] == Committed || phases[id] == Finalizing) ==>
            id in transitions && CommitRecorded(heads, transitions[id]))
    }

    /** Nothing that was admitted, or that a lease is bound to, is forgotten or changed. */
    twostate predicate Preserved()
      reads this
    {
      Extends(old(heads), old(admissions), old(leases), heads, admissions, leases)
    }

    constructor (repository: string, primaryRoot: string)
      ensures Valid() && Pristine(head) && heads == [head] && admissions == {}
      ensures this.repository == repository && this.primaryRoot == primaryRoot
    {
      this.repository, this.primaryRoot := repository, primaryRoot;
      head := Head(0, Active, "", "", NO_AUTHORITY);
      attempts, leases, transitions, phases := map[], map[], map[], map[];
      heads, admissions, faults := [Head(0, Active, "", "", NO_AUTHORITY)], {}, 0;
    }

    // -------------------------------------------------------------- writes

    /** Whether the next write works. */
    method Works() returns (ok: bool)
      modifies this`faults
      ensures faults >= old(faults) && (ok <==> faults == old(faults))
    {
      ok := *;
      if !ok { faults := faults + 1; }
    }

    /** Compare and swap: the generation must be the expected one and may only grow. */
    method WriteHeadCAS(expected: nat, next: Head) returns (ok: bool)
      requires Valid()
      requires head.generation == expected < next.generation ==> MayFollow(head, next, transitions)
      modifies this`head, this`heads, this`faults
      ensures Valid() && Preserved()
      ensures ok ==> old(head).generation == expected < next.generation && head == next && heads == old(heads) + [next]
      ensures !ok ==> head == old(head) && heads == old(heads)
      ensures faults >= old(faults) && (faults == old(faults) ==> (ok <==> old(head).generation == expected < next.generation))
      ensures ok ==> faults == old(faults)
    {
      if head.generation != expected || next.generation <= head.generation { return false; }
      ok := Works();
      if !ok { return; }
      HistoryGrows(heads, next, admissions, transitions);
      head := next;
      heads := heads + [next];
      return true;
    }

    /** A lease file is only ever rewritten with the generation it has. */
    method WriteLease(lease: Lease) returns (ok: bool)
      requires Valid() && (lease.id in leases ==> leases[lease.id].generation == lease.generation)
      modifies this`leases, this`faults
      ensures Valid() && Preserved()
      ensures leases == if ok then old(leases)[lease.id := lease] else old(leases)
      ensures faults >= old(faults) && (ok <==> faults == old(faults))
    {
      ok := Works();
      if ok { leases := leases[lease.id := lease]; }
    }

    method WriteAttempt(attempt: Attempt) returns (ok: bool)
      requires Valid()
      modifies this`attempts, this`faults
      ensures Valid() && Preserved()
      ensures attempts == if ok then old(attempts)[attempt.id := attempt] else old(attempts)
      ensures faults >= old(faults) && (ok <==> faults == old(faults))
    {
      ok := Works();
      if ok { attempts := attempts[attempt.id := attempt]; }
    }

    method WritePhase(id: string, phase: Phase) returns (ok: bool)
      requires Valid() && (phase == Committed || phase == Finalizing ==> id in transitions && CommitRecorded(heads, transitions[id]))
      modifies this`phases, this`faults
      ensures Valid() && Preserved()
      ensures phases == if ok then old(phases)[id := phase] else old(phases)
      ensures faults >= old(faults) && (ok <==> faults == old(faults))
    {
      ok := Works();
      if ok { phases := phases[id := phase]; }
    }

    // -------------------------------------------------------------- admission

    predicate Admissible(claim: Claim, workspace: Workspace, snapshot: Snapshot)
      reads this
    {
      && head.authority.attempt in attempts && head.authority.lease in leases
      && Fits(repository, head, attempts[head.authority.attempt], leases[head.authority.lease], claim, workspace, snapshot)
    }

    /** The lease is of an earlier generation, so every claim naming it is refused. */
    predicate Superseded(lease: string)
      reads this
      ensures Superseded(lease) ==> forall claim: Claim, w, s :: claim.lease == lease ==> !Admissible(claim, w, s)
    {
      lease in leases && leases[lease].generation < head.generation
    }

    method AdmitMutation(claim: Claim, workspace: Workspace, snapshot: Snapshot) returns (r: Result<Admission>)
      requires Valid()
      modifies this`admissions
      ensures Valid() && Preserved()
      ensures r.Ok? <==> old(Admissible(claim, workspace, snapshot))
      ensures r.Ok? ==> r.value.head == head && (r.value.lease.id, head.generation) in admissions && ClaimOf(r.value) == claim
                        && r.value.workspace == workspace && r.value.snapshot == snapshot
                        && r.value.lease.id in leases && leases[r.value.lease.id] == r.value.lease
                        && r.value.attempt.id in attempts && attempts[r.value.attempt.id] == r.value.attempt
                        && Fits(repository, head, r.value.attempt, r.value.lease, claim, workspace, snapshot)
      ensures r.Fail? ==> admissions == old(admissions)
    {
      if head.status != Active || head.pending != "" { return Fail; }
      var a := head.authority;
      if a.attempt == "" || a.lease == "" || a.execution.None? || a.root.None? { return Fail; }
      if a.execution.value != claim.task || a.project == "" { return Fail; }
      if claim.generation != head.generation || claim.attempt != a.attempt || claim.lease != a.lease { return Fail; }
      if a.attempt !in attempts || a.lease !in leases { return Fail; }
      var attempt, lease := attempts[a.attempt], leases[a.lease];
      if !attempt.live || attempt.id != lease.attemptId || attempt.id != a.attempt { return Fail; }
      if attempt.task != claim.task || lease.task != claim.task || attempt.root != a.root.value { return Fail; }
      if lease.generation != head.generation { return Fail; }
      if workspace.repository != repository || workspace.id != lease.workspaceId { return Fail; }
      if snapshot.head != lease.baseOid || snapshot.id != lease.snapshotId { return Fail; }
      assert UnderHead(heads[|heads| - 1], a.lease, head.generation);
      admissions := admissions + {(a.lease, head.generation)};
      return Ok(Admission(head, attempt, lease, workspace, snapshot));
    }

    // -------------------------------------------------------------- execution

    /** A first execution of a committed task that may run, in the primary workspace and at the committed head. */
    predicate BootstrapFits(task: TaskRef, workspace: Workspace, snapshot: Snapshot, committed: Option<CommittedTask>)
      reads this
    {
      && Pristine(head) && workspace.root == primaryRoot && workspace.repository == repository
      && committed.Some? && committed.value.task == task && !committed.value.parentOnly && snapshot.head == committed.value.headOid
    }

    /** The execution the head names is live. */
    predicate LiveExecution(workspace: Workspace, snapshot: Snapshot)
      reads this
    {
      && head.generation > 0 && head.authority.execution.Some?
      && Admissible(Claim(head.generation, head.authority.attempt, head.authority.lease, head.authority.execution.value), workspace, snapshot)
    }

    /** Identifiers are drawn fresh. */
    method BootstrapExecution(task: TaskRef, workspace: Workspace, snapshot: Snapshot, committed: Option<CommittedTask>,
                              attemptId: string, leaseId: string) returns (r: Result<Admission>)
      requires Valid() && attemptId !in attempts && leaseId !in leases && attemptId != "" && leaseId != ""
      modifies this
      ensures Valid() && Preserved()
      ensures r.Ok? ==> head.status == Active && head.pending == "" && (head.authority.lease, head.generation) in admissions
      ensures r.Ok? && Pristine(old(head)) ==> head.generation == 1 && head.authority.lease == leaseId
      ensures faults >= old(faults)
      ensures faults == old(faults) ==>
                (r.Ok? <==>
                  if old(head).authority.lease == "" && old(head).authority.attempt == ""
                  then old(BootstrapFits(task, workspace, snapshot, committed))
                  else old(LiveExecution(workspace, snapshot)))
      ensures r.Ok? && Pristine(old(head)) && committed.Some? && committed.value.project != "" ==>
                Admissible(ClaimOf(r.value), workspace, snapshot)
      ensures r.Fail? ==> head == old(head)
    {
      if head.status != Active || head.pending != "" { return Fail; }
      if head.authority.lease != "" || head.authority.attempt != "" {
        if head.generation == 0 || head.authority.attempt == "" || head.authority.lease == "" || head.authority.execution.None? { return Fail; }
        r := AdmitMutation(Claim(head.generation, head.authority.attempt, head.authority.lease, head.authority.execution.value), workspace, snapshot);
        return;
      }
      if !Pristine(head) || workspace.root != primaryRoot || workspace.repository != repository { return Fail; }
      if committed.None? || committed.value.task != task || committed.value.parentOnly || snapshot.head != committed.value.headOid { return Fail; }
      r := BootstrapFresh(task, workspace, snapshot, committed.value.project, attemptId, leaseId);
    }

    method BootstrapFresh(task: TaskRef, workspace: Workspace, snapshot: Snapshot, project: string, attemptId: string, leaseId: string)
      returns (r: Result<Admission>)
      requires Valid() && Pristine(head) && workspace.repository == repository
      requires attemptId !in attempts && leaseId !in leases && attemptId != "" && leaseId != ""
      modifies this
      ensures Valid() && Preserved()
      ensures r.Ok? ==> head == Head(1, Active, "", "", Authority(project, Some(task), Some(task), attemptId, leaseId, ""))
      ensures faults >= old(faults) && (faults == old(faults) ==> r.Ok?)
      ensures r.Ok? ==> (leaseId, 1) in admissions && (project != "" ==> Admissible(ClaimOf(r.value), workspace, snapshot))
      ensures r.Fail? ==> head == old(head)
    {
      var generation := Plus(head.generation, 1);
      var attempt := Attempt(attemptId, task, task, true);
      var lease := Lease(leaseId, attemptId, task, generation, workspace.id, snapshot.head, snapshot.id);
      var ok := WriteAttempt(attempt);
      if !ok { return Fail; }
      var next := head.(generation := generation,
        authority := Authority(project, Some(task), Some(task), attemptId, leaseId, ""));
      ok := MoveTo(lease, next);
      if !ok { return Fail; }
      return Ok(Admission(next, attempt, lease, workspace, snapshot));
    }

    /** An admission handed out together with the head that grants it. */
    ghost method Admit(lease: string)
      requires Valid() && head.status == Active && head.pending == "" && head.authority.lease == lease
      requires lease in leases && leases[lease].generation == head.generation
      modifies this`admissions
      ensures Valid() && admissions == old(admissions) + {(lease, head.generation)}
    {
      assert UnderHead(heads[|heads| - 1], lease, head.generation);
      admissions := admissions + {(lease, head.generation)};
    }

    /** Recording a mutation moves the authority to a new lease of the next generation. */
    method RecordMutation(admission: Admission, after: Snapshot, leaseId: string) returns (r: Result<Admission>)
      requires Valid() && leaseId !in leases && leaseId != ""
      modifies this
      ensures Valid() && Preserved()
      ensures r.Ok? ==> head == old(head).(generation := old(head).generation + 1, authority := old(head).authority.(lease := leaseId))
      ensures r.Ok? ==> Admissible(ClaimOf(r.value), admission.workspace, after)
      ensures r.Ok? ==> Superseded(admission.lease.id)
      ensures r.Fail? ==> head == old(head)
      ensures faults >= old(faults)
      ensures faults == old(faults) ==>
                (r.Ok? <==> old(Admissible(ClaimOf(admission), admission.workspace, admission.snapshot)) && old(head).generation + 1 < 0x1_0000_0000_0000_0000)
    {
      var current := AdmitMutation(ClaimOf(admission), admission.workspace, admission.snapshot);
      if current.Fail? || current.value.lease.id != admission.lease.id { return Fail; }
      ghost var h, a, l := heads, admissions, leases;
      r := Renew(current.value, after, leaseId);
      ExtendsTransitive(old(heads), old(admissions), old(leases), h, a, l, heads, admissions, leases);
    }

    /** Moves the authority on, from an admission of the current head. */
    method Renew(current: Admission, after: Snapshot, leaseId: string) returns (r: Result<Admission>)
      requires Valid() && leaseId !in leases && leaseId != ""
      requires Admissible(ClaimOf(current), current.workspace, current.snapshot)
      requires current.attempt == attempts[head.authority.attempt] && current.lease == leases[head.authority.lease]
      modifies this
      ensures Valid() && Preserved()
      ensures r.Ok? ==> head == old(head).(generation := old(head).generation + 1, authority := old(head).authority.(lease := leaseId))
      ensures r.Ok? ==> Admissible(ClaimOf(r.value), current.workspace, after) && Superseded(current.lease.id)
      ensures r.Fail? ==> head == old(head)
      ensures faults >= old(faults) && (faults == old(faults) ==> (r.Ok? <==> old(head).generation + 1 < 0x1_0000_0000_0000_0000))
    {
      var generation := Plus(head.generation, 1);
      var lease := current.lease.(id := leaseId, generation := generation, baseOid := after.head, snapshotId := after.id);
      var next := head.(generation := generation, authority := head.authority.(lease := leaseId));
      NextLeaseFits(repository, head, current.attempt, current.lease, ClaimOf(current), current.workspace,
        current.snapshot, leaseId, generation, after);
      var ok := MoveTo(lease, next);
      if !ok { return Fail; }
      return Ok(Admission(next, current.attempt, lease, current.workspace, after));
    }

    /** Writes a new lease, then the head it is live under. */
    method MoveTo(lease: Lease, next: Head) returns (ok: bool)
      requires Valid() && lease.id !in leases && next.authority.lease == lease.id && lease.generation == next.generation
      requires head.status == Active && head.pending == "" && next.status == Active && next.pending == ""
      modifies this
      ensures Valid() && Preserved() && attempts == old(attempts)
      ensures ok ==> head == next && old(head).generation < next.generation && (lease.id, next.generation) in admissions
      ensures ok ==> leases == old(leases)[lease.id := lease]
      ensures !ok ==> head == old(head)
      ensures faults >= old(faults) && (faults == old(faults) ==> (ok <==> old(head).generation < next.generation))
    {
      ok := WriteLease(lease);
      if !ok { return; }
      ok := WriteHeadCAS(head.generation, next);
      if !ok { return; }
      Admit(lease.id);
    }

    // -------------------------------------------------------------- transitions

    method Prepare(t: Transition) returns (ok: bool)
      requires Valid() && t.id !in transitions && t.id !in phases && t.id != "" && t == BuildTransition(t.source, t.id)
      modifies this
      ensures Valid() && Preserved() && leases == old(leases) && attempts == old(attempts) && admissions == old(admissions)
      ensures ok ==> old(head).status == Active && old(head).pending == "" && t.source == old(head).generation
      ensures ok ==> head == old(head).(generation := old(head).generation + 1, pending := t.id)
      ensures ok ==> Journalled(t) && phases[t.id] == Prepared && t.prepared == head.generation
      ensures !ok ==> head == old(head)
      ensures faults >= old(faults)
      ensures faults == old(faults) ==>
                (ok <==> old(head).status == Active && old(head).pending == "" && t.source == old(head).generation < t.prepared)
    {
      if head.status != Active || head.pending != "" || t.source != head.generation { return false; }
      ok := Journal(t);
      if !ok { return; }
      ok := WriteHeadCAS(t.source, head.(generation := t.prepared, pending := t.id));
    }

    /** Writes the transition and its first phase. */
    method Journal(t: Transition) returns (ok: bool)
      requires Valid() && t.id !in transitions && t.id !in phases && t.id != "" && t == BuildTransition(t.source, t.id)
      modifies this`transitions, this`phases, this`faults
      ensures Valid() && Preserved()
      ensures ok ==> Journalled(t) && phases[t.id] == Prepared
      ensures faults >= old(faults) && (ok <==> faults == old(faults))
    {
      ok := Works();
      if !ok { return; }
      transitions := transitions[t.id := t];
      ok := WritePhase(t.id, Prepared);
    }

    predicate Journalled(t: Transition)
      reads this
    {
      t.id in transitions && transitions[t.id] == t && t.id in phases && t == BuildTransition(t.source, t.id) && t.id != ""
    }

    /** The new authority is published only over the prepared head and with all effects proven; only
        the final step clears the pending transition. */
    method Commit(t: Transition, proven: bool, finalize: bool, authority: Authority) returns (ok: bool)
      requires Valid() && Journalled(t)
      modifies this
      ensures Valid() && Preserved() && leases == old(leases) && attempts == old(attempts) && admissions == old(admissions)
      ensures transitions == old(transitions) && (t.id in phases)
      ensures ok ==> proven && old(head).pending == t.id && old(head).generation == t.prepared && old(head).status == Active
      ensures ok ==> head == old(head).(generation := if finalize then t.target else t.committed,
                                        pending := if finalize then "" else t.id, authority := authority)
      ensures ok ==> phases[t.id] == (if finalize then Finalized else Committed) && old(head).generation < head.generation
      ensures head != old(head) ==> proven && old(head).pending == t.id && old(head).generation == t.prepared
      ensures faults >= old(faults)
      ensures faults == old(faults) ==>
                (ok <==> proven && old(head).pending == t.id && old(head).generation == t.prepared < if finalize then t.target else t.committed)
    {
      if head.pending != t.id || head.generation != t.prepared { return false; }
      if !proven { return false; }
      var next := head.(authority := authority);
      if finalize {
        next := next.(generation := t.target, pending := "");
      } else {
        next := next.(generation := t.committed);
      }
      ok := WriteHeadCAS(head.generation, next);
      if !ok { return; }
      assert !finalize ==> CommittedHead(heads[|heads| - 1], t);
      ok := WritePhase(t.id, if finalize then Finalized else Committed);
    }

    method Finalize(t: Transition) returns (ok: bool)
      requires Valid() && Journalled(t)
      modifies this
      ensures Valid() && Preserved() && leases == old(leases) && attempts == old(attempts) && admissions == old(admissions)
      ensures transitions == old(transitions)
      ensures ok ==> old(head).pending == t.id && old(head).generation == t.committed && old(head).status == Active
      ensures ok ==> head == old(head).(generation := t.target, pending := "") && old(head).generation < head.generation
      ensures head != old(head) ==> head == old(head).(generation := t.target, pending := "") && old(head).status == Active
      ensures faults >= old(faults)
      ensures faults == old(faults) ==>
                (ok <==> old(head).pending == t.id && old(head).generation == t.committed < t.target
                         && (old(phases)[t.id] == Committed || old(phases)[t.id] == Finalizing))
    {
      if head.pending != t.id || head.generation != t.committed { return false; }
      if phases[t.id] != Committed && phases[t.id] != Finalizing { return false; }
      SameGenerationSameHead(heads, t);
      ok := WritePhase(t.id, Finalizing);
      if !ok { return; }
      ok := FinishHead(t);
    }

    /** Clears the pending transition and marks it as done. */
    method FinishHead(t: Transition) returns (ok: bool)
      requires Valid() && head.status == Active
      modifies this`head, this`heads, this`phases, this`faults
      ensures Valid() && Preserved()
      ensures ok ==> head == old(head).(generation := t.target, pending := "") && old(head).generation < head.generation
      ensures head == old(head) || head == old(head).(generation := t.target, pending := "")
      ensures faults >= old(faults) && (faults == old(faults) ==> (ok <==> old(head).generation < t.target))
    {
      ok := WriteHeadCAS(head.generation, head.(generation := t.target, pending := ""));
      if !ok { return; }
      ok := WritePhase(t.id, Finalized);
    }

    /** Giving up a prepared publication skips to its target generation and keeps the authority. */
    method AbortPublication(t: Transition) returns (ok: bool)
      requires Valid() && Journalled(t) && phases[t.id] == Aborted
      modifies this`head, this`heads, this`faults
      ensures Valid() && Preserved()
      ensures head == old(head) || head == old(head).(generation := t.target, pending := "")
      ensures ok ==> head.generation == t.target && head.pending == ""
      ensures faults >= old(faults)
      ensures faults == old(faults) && old(head).pending == t.id && old(head).generation == t.prepared ==>
                (ok <==> t.prepared < t.target)
    {
      if head.pending == t.id && head.generation == t.prepared {
        ok := WriteHeadCAS(t.prepared, head.(generation := t.target, pending := ""));
        if !ok { return; }
      }
      ok := head.generation == t.target && head.pending == "";
    }

    /** Closing on failure drops the live lease; a pending transition stays and can no longer finish. */
    method FailClose(failureId: string, transitionId: string) returns (ok: bool)
      requires Valid()
      modifies this
      ensures Valid() && Preserved() && leases == old(leases) && attempts == old(attempts) && admissions == old(admissions)
      ensures ok ==> head.status == FailClosed && head.pending == old(head).pending
      ensures ok ==> forall claim: Claim, w, s :: !Admissible(claim, w, s)
      ensures ok ==> head.generation == old(head).generation + 1 && head.failure == failureId
      ensures !ok ==> head == old(head)
      ensures faults >= old(faults) && (faults == old(faults) ==> (ok <==> old(head).generation + 1 < 0x1_0000_0000_0000_0000))
      ensures ok && faults == old(faults) && transitionId in phases ==> phases[transitionId] == Failed
    {
      var next := head.(generation := Plus(head.generation, 1), status := FailClosed, failure := failureId,
        authority := head.authority.(lease := ""));
      ok := WriteHeadCAS(head.generation, next);
      if ok && transitionId in phases {
        var _ := WritePhase(transitionId, Failed);
      }
    }

    // -------------------------------------------------------------- handing over

    /** Prepare, commit and finalize in one go, from an admitted source to a target lease bound to the
        target generation: afterwards the source lease is refused and the target lease admitted. */
    method ChangeAuthority(source: Admission, transitionId: string, authority: Authority, lease: Lease, proven: bool) returns (ok: bool)
      requires Valid() && transitionId !in transitions && transitionId !in phases && transitionId != ""
      requires lease.id !in leases && lease.id != "" && authority.lease == lease.id
      modifies this
      ensures Valid() && Preserved()
      ensures ok ==> head.generation == old(head).generation + 3 && head.pending == "" && head.authority == authority
      ensures ok ==> Superseded(source.lease.id)
      ensures faults >= old(faults)
      ensures faults == old(faults) ==>
                (ok <==> old(Admissible(ClaimOf(source), source.workspace, source.snapshot)) && proven
                         && old(head).generation + 3 < 0x1_0000_0000_0000_0000)
      ensures ok && authority.attempt != "" && authority.attempt in attempts && attempts[authority.attempt].live
              && authority.project != "" && authority.root == Some(attempts[authority.attempt].root)
              && authority.execution == Some(lease.task) && attempts[authority.attempt].task == lease.task && lease.attemptId == authority.attempt ==>
                Admissible(Claim(head.generation, authority.attempt, lease.id, lease.task),
                           Workspace(lease.workspaceId, repository, source.workspace.root), Snapshot(lease.snapshotId, lease.baseOid))
    {
      var current := AdmitMutation(ClaimOf(source), source.workspace, source.snapshot);
      if current.Fail? || current.value.lease.id != source.lease.id { return false; }
      ghost var h, a, l := heads, admissions, leases;
      ok := WriteLease(lease.(generation := Plus(head.generation, 3)));
      if !ok {
        ExtendsTransitive(old(heads), old(admissions), old(leases), h, a, l, heads, admissions, leases);
        return;
      }
      ok := Transit(BuildTransition(head.generation, transitionId), authority, proven);
      ExtendsTransitive(old(heads), old(admissions), old(leases), h, a, l, heads, admissions, leases);
    }

    method Transit(t: Transition, authority: Authority, proven: bool) returns (ok: bool)
      requires Valid() && t.id !in transitions && t.id !in phases && t.id != "" && t == BuildTransition(head.generation, t.id)
      modifies this
      ensures Valid() && Preserved() && leases == old(leases) && attempts == old(attempts)
      ensures ok ==> head == old(head).(generation := old(head).generation + 3, pending := "", authority := authority)
      ensures ok ==> t.target == head.generation && old(head).status == Active
      ensures faults >= old(faults)
      ensures faults == old(faults) ==>
                (ok <==> old(head).status == Active && old(head).pending == "" && proven && old(head).generation + 3 < 0x1_0000_0000_0000_0000)
    {
      TransitionGenerations(t);
      ok := Prepare(t);
      if !ok { return; }
      ghost var h, a, l := heads, admissions, leases;
      ok := Commit(t, proven, false, authority);
      ExtendsTransitive(old(heads), old(admissions), old(leases), h, a, l, heads, admissions, leases);
      if !ok { return; }
      h, a, l := heads, admissions, leases;
      ok := Finalize(t);
      ExtendsTransitive(old(heads), old(admissions), old(leases), h, a, l, heads, admissions, leases);
    }
  }

  /** Heads of one generation are the same head, so a committed one was not closed on failure. */
  lemma SameGenerationSameHead(heads: seq<Head>, t: Transition)
    requires heads != [] && Increasing(heads) && CommitRecorded(heads, t) && heads[|heads| - 1].generation == t.committed
    ensures heads[|heads| - 1].status == Active
  {
    var i :| 0 <= i < |heads| && CommittedHead(heads[i], t);
    assert i == |heads| - 1;
  }

  // ---------------------------------------------------------------- over every run

  /** Whatever operations ran: a lease is never admitted at two generations, every admission was made
      under an active head of its generation with nothing pending, and none is of a later generation. */
  lemma LeasesAreFenced(store: Store, lease: string, g: nat, g': nat)
    requires store.Valid() && (lease, g) in store.admissions && (lease, g') in store.admissions
    ensures g == g' && g <= store.head.generation && AdmittedUnder(store.heads, lease, g)
    ensures g < store.head.generation ==> forall claim: Claim, w, s :: claim.lease == lease ==> !store.Admissible(claim, w, s)
  {
    assert AdmittedUnder(store.heads, lease, g);
    var i :| 0 <= i < |store.heads| && UnderHead(store.heads[i], lease, g);
    assert i < |store.heads| - 1 ==> store.heads[i].generation < store.heads[|store.heads| - 1].generation;
  }

  /** Over every run: nothing was ever admitted at the generation of a head with a pending transition,
      nor at any generation from a head closed on failure on; and nothing will be while it is the head. */
  lemma NothingAdmittedWhilePending(store: Store, i: nat, lease: string, g: nat)
    requires store.Valid() && i < |store.heads|
    requires || (store.heads[i].pending != "" && g == store.heads[i].generation)
             || (store.heads[i].status == FailClosed && g >= store.heads[i].generation)
    ensures (lease, g) !in store.admissions
    ensures i == |store.heads| - 1 ==> forall claim: Claim, w, s :: !store.Admissible(claim, w, s)
  {
    NoLeaseUnder(store.heads, i, lease, g);
  }

  lemma NoLeaseUnder(heads: seq<Head>, i: nat, lease: string, g: nat)
    requires Increasing(heads) && FailureStays(heads) && i < |heads|
    requires || (heads[i].pending != "" && g == heads[i].generation)
             || (heads[i].status == FailClosed && g >= heads[i].generation)
    ensures !AdmittedUnder(heads, lease, g)
  {
  }

  lemma HistoryGrows(heads: seq<Head>, next: Head, admissions: set<(string, nat)>, transitions: map<string, Transition>)
    requires heads != [] && Increasing(heads) && FailureStays(heads) && heads[|heads| - 1].generation < next.generation
    requires heads[|heads| - 1].status == FailClosed ==> next.status == FailClosed
    ensures Increasing(heads + [next]) && FailureStays(heads + [next])
    ensures forall l, g :: AdmittedUnder(heads, l, g) ==> AdmittedUnder(heads + [next], l, g)
    ensures forall t :: CommitRecorded(heads, t) ==> CommitRecorded(heads + [next], t)
  {
    var all := heads + [next];
    forall l, g | AdmittedUnder(heads, l, g) ensures AdmittedUnder(all, l, g) {
      var i :| 0 <= i < |heads| && UnderHead(heads[i], l, g);
      assert UnderHead(all[i], l, g);
    }
    forall t | CommitRecorded(heads, t) ensures CommitRecorded(all, t) {
      var i :| 0 <= i < |heads| && CommittedHead(heads[i], t);
      assert CommittedHead(all[i], t);
    }
  }
}
