/** The two schedulers of an admitted blocker-episode revision. */
module EpisodeSchedule {
  import opened Results
  import opened EpisodeGraph
  import opened TextOrder
  import opened EpisodeClosure

  datatype Intent = StartBlockerTask | ResumeBlockerTask | ResumeRootTask | NoRunnable

  datatype Reason = NoReason | InBlocked(path: string) | OutsideNext(path: string) | NoTaskReady

  datatype Schedule = Schedule(intent: Intent, reason: Reason, next: Option<TaskRef>)

  // ---------------------------------------------------------------- schedule by the revision alone

  /** Index of the last entry for a path, as the overwritten index map gives it. */
  function OrderIndex(order: seq<TaskRef>, path: string): (i: nat)
    ensures order != [] ==> i < |order|
    ensures path in Paths(order) ==> order[i].path == path
  {
    if order == [] then 0
    else if order[|order| - 1].path == path then |order| - 1
    else
      assert order == order[..|order| - 1] + [order[|order| - 1]];
      OrderIndex(order[..|order| - 1], path)
  }

  predicate DependsOn(rev: Revision, blocked: TaskRef, dependency: TaskRef) {
    exists i :: 0 <= i < |rev.edges| && rev.edges[i].blocked == blocked && rev.edges[i].dependency == dependency
  }

  predicate EpisodeTaskReady(rev: Revision, task: TaskRef) {
    && (forall i :: 0 <= i < |rev.edges| && rev.edges[i].blocked == task ==> rev.edges[i].dependency in rev.satisfied)
    && (rev.order != [] ==>
          forall j :: 0 <= j < OrderIndex(rev.order, task.path) ==>
            rev.order[j] in rev.satisfied || !DependsOn(rev, task, rev.order[j]))
  }

  function ScheduleFrom(rev: Revision, i: nat): Schedule
    requires i <= |rev.order|
    decreases |rev.order| - i
  {
    if i == |rev.order| then
      if rev.scopeRoot in rev.satisfied then Schedule(ResumeRootTask, NoReason, None)
      else Schedule(NoRunnable, NoTaskReady, None)
    else
      var candidate := rev.order[i];
      if candidate !in rev.satisfied && EpisodeTaskReady(rev, candidate) then
        Schedule(if candidate in rev.history then ResumeBlockerTask else StartBlockerTask, NoReason, Some(candidate))
      else ScheduleFrom(rev, i + 1)
  }

  function ScheduleEpisodeRevision(rev: Revision): Schedule {
    ScheduleFrom(rev, 0)
  }

  /** The first k entries of the order are satisfied and entry k, if there is one, is not. */
  ghost predicate FirstUnsatisfied(rev: Revision, k: nat) {
    && k <= |rev.order|
    && (forall j :: 0 <= j < k ==> rev.order[j] in rev.satisfied)
    && (k < |rev.order| ==> rev.order[k] !in rev.satisfied)
  }

  /** The edge waits for a reference that is neither satisfied nor the project's current one. */
  ghost predicate StaleWait(rev: Revision, refs: Authority, task: TaskRef, e: EpisodeEdge) {
    e in rev.edges && e.blocked == task && e.dependency !in rev.satisfied
    && (e.dependency.path in refs ==> refs[e.dependency.path] != e.dependency)
  }

  ghost predicate CurrentRef(refs: Authority, r: TaskRef) {
    r.path in refs && refs[r.path] == r
  }

  /** An unsatisfied episode edge of an admitted task leads to an earlier entry of the order. */
  lemma EdgeStandsEarlier(rev: Revision, refs: Authority, canonical: Graph, k: nat, e: EpisodeEdge)
    requires Completed(rev, refs, canonical) && k < |rev.order|
    requires e in rev.edges && e.blocked.path == rev.order[k].path && e.dependency !in rev.satisfied
    ensures e.dependency.path in Paths(rev.order[..k])
    ensures exists j :: 0 <= j < k && rev.order[j].path == e.dependency.path
                        && e.dependency.path in refs && rev.order[j] == refs[e.dependency.path]
  {
    var g := CombinedGraph(canonical, rev.edges, rev.satisfied);
    CombinedGraphEdges(canonical, rev.edges, rev.satisfied, e.blocked.path, e.dependency.path);
    assert LiveEdge(e, rev.satisfied, e.blocked.path, e.dependency.path);
    assert Paths(rev.order)[k] == e.blocked.path;
    assert e.dependency.path in Paths(rev.order)[..k];
    var j :| 0 <= j < k && Paths(rev.order)[j] == e.dependency.path;
    assert Paths(rev.order[..k])[j] == rev.order[j].path;
  }

  /** The first unsatisfied task is ready unless one of its edges waits for a stale reference. */
  lemma FirstUnsatisfiedReadyIff(rev: Revision, refs: Authority, canonical: Graph, k: nat)
    requires Completed(rev, refs, canonical) && FirstUnsatisfied(rev, k) && k < |rev.order|
    ensures EpisodeTaskReady(rev, rev.order[k]) <==> !exists e :: StaleWait(rev, refs, rev.order[k], e)
  {
    var task := rev.order[k];
    assert Paths(rev.order)[k] == task.path;
    assert Paths(rev.order)[OrderIndex(rev.order, task.path)] == task.path;
    if i :| 0 <= i < |rev.edges| && rev.edges[i].blocked == task && rev.edges[i].dependency !in rev.satisfied {
      EdgeStandsEarlier(rev, refs, canonical, k, rev.edges[i]);
      assert StaleWait(rev, refs, task, rev.edges[i]);
    }
  }

  lemma {:induction false} ScheduleSkipsSatisfied(rev: Revision, i: nat, k: nat)
    requires FirstUnsatisfied(rev, k) && i <= k
    requires k < |rev.order| ==> EpisodeTaskReady(rev, rev.order[k])
    ensures k < |rev.order| ==>
              ScheduleFrom(rev, i) == Schedule(if rev.order[k] in rev.history then ResumeBlockerTask else StartBlockerTask, NoReason, Some(rev.order[k]))
    ensures k == |rev.order| ==>
              ScheduleFrom(rev, i) == if rev.scopeRoot in rev.satisfied then Schedule(ResumeRootTask, NoReason, None) else Schedule(NoRunnable, NoTaskReady, None)
    decreases k - i
  {
    if i < k { ScheduleSkipsSatisfied(rev, i + 1, k); }
  }

  /** Readiness is a matter of the task's own edges: the second check of the order adds nothing. */
  lemma ReadyIff(rev: Revision, task: TaskRef)
    ensures EpisodeTaskReady(rev, task) <==> !exists e :: UnsatisfiedEdge(rev, task, e)
  {
    if i :| 0 <= i < |rev.edges| && rev.edges[i].blocked == task && rev.edges[i].dependency !in rev.satisfied {
      assert UnsatisfiedEdge(rev, task, rev.edges[i]);
    }
  }

  ghost predicate UnsatisfiedEdge(rev: Revision, task: TaskRef, e: EpisodeEdge) {
    e in rev.edges && e.blocked == task && e.dependency !in rev.satisfied
  }

  /** The entry is satisfied, or one of its edges waits. */
  ghost predicate Passed(rev: Revision, k: nat)
    requires k < |rev.order|
  {
    rev.order[k] in rev.satisfied || exists e :: UnsatisfiedEdge(rev, rev.order[k], e)
  }

  /** From entry i on, the scan returns the first entry it does not pass, if there is one. */
  lemma {:induction false} ScanStops(rev: Revision, i: nat) returns (k: nat)
    requires i <= |rev.order|
    ensures i <= k <= |rev.order| && forall j :: i <= j < k ==> Passed(rev, j)
    ensures k < |rev.order| ==>
              && !Passed(rev, k)
              && ScheduleFrom(rev, i) == Schedule(if rev.order[k] in rev.history then ResumeBlockerTask else StartBlockerTask, NoReason, Some(rev.order[k]))
    ensures k == |rev.order| ==> ScheduleFrom(rev, i) == ScheduleFrom(rev, |rev.order|)
    decreases |rev.order| - i
  {
    k := i;
    if i < |rev.order| {
      ReadyIff(rev, rev.order[i]);
      if Passed(rev, i) { k := ScanStops(rev, i + 1); }
    }
  }

  /** What the scheduler returns is an unsatisfied entry all of whose edges are satisfied, and
      every entry before it is satisfied or waits. */
  lemma ScheduledTaskIsReady(rev: Revision) returns (k: nat)
    requires ScheduleEpisodeRevision(rev).next.Some?
    ensures k < |rev.order| && ScheduleEpisodeRevision(rev).next == Some(rev.order[k]) && rev.order[k] !in rev.satisfied
    ensures forall e :: e in rev.edges && e.blocked == rev.order[k] ==> e.dependency in rev.satisfied
    ensures forall j :: 0 <= j < k ==> Passed(rev, j)
  {
    k := ScanStops(rev, 0);
    forall e | e in rev.edges && e.blocked == rev.order[k] ensures e.dependency in rev.satisfied {
      assert !UnsatisfiedEdge(rev, rev.order[k], e);
    }
  }

  /** The scheduler deadlocks exactly when the scope root is unsatisfied and every unsatisfied entry
      of the order waits for an edge. */
  lemma DeadlockIff(rev: Revision)
    ensures ScheduleEpisodeRevision(rev).intent == NoRunnable <==>
              rev.scopeRoot !in rev.satisfied && forall k :: 0 <= k < |rev.order| ==> Passed(rev, k)
  {
    var k := ScanStops(rev, 0);
  }

  /** Deadlock freedom: over current references the scheduler returns the first unsatisfied task
      of the admitted order, or resumes the root once the whole order is satisfied. */
  lemma ScheduleNeverDeadlocks(rev: Revision, refs: Authority, canonical: Graph, k: nat)
    requires Completed(rev, refs, canonical) && FirstUnsatisfied(rev, k)
    requires CurrentRef(refs, rev.scopeRoot)
    requires forall e :: e in rev.edges ==> CurrentRef(refs, e.dependency)
    ensures ScheduleEpisodeRevision(rev) ==
            if k == |rev.order| then Schedule(ResumeRootTask, NoReason, None)
            else Schedule(if rev.order[k] in rev.history then ResumeBlockerTask else StartBlockerTask, NoReason, Some(rev.order[k]))
  {
    if k < |rev.order| {
      assert forall e :: e in rev.edges ==> !StaleWait(rev, refs, rev.order[k], e);
      FirstUnsatisfiedReadyIff(rev, refs, canonical, k);
    } else {
      assert Paths(rev.order)[|rev.order| - 1] == rev.scopeRoot.path;
      assert rev.order[|rev.order| - 1] == rev.scopeRoot;
    }
    ScheduleSkipsSatisfied(rev, 0, k);
  }

  /** The task the scheduler returns is the first unsatisfied one exactly when none of that one's
      edges waits for a stale reference; otherwise the scan goes on past it. */
  lemma FirstUnsatisfiedScheduledIff(rev: Revision, refs: Authority, canonical: Graph, k: nat)
    requires Completed(rev, refs, canonical) && FirstUnsatisfied(rev, k) && k < |rev.order|
    ensures ScheduleEpisodeRevision(rev).next == Some(rev.order[k]) <==> !exists e :: StaleWait(rev, refs, rev.order[k], e)
  {
    FirstUnsatisfiedReadyIff(rev, refs, canonical, k);
    ReadyIff(rev, rev.order[k]);
    var stop := ScanStops(rev, 0);
    assert k < stop ==> Passed(rev, k);
    if k < stop < |rev.order| { assert Paths(rev.order)[stop] != Paths(rev.order)[k]; }
  }

  /** Everything the first unsatisfied task still depends on is satisfied. */
  lemma FirstUnsatisfiedIsUnblocked(rev: Revision, refs: Authority, canonical: Graph, k: nat, d: string)
    requires Completed(rev, refs, canonical) && FirstUnsatisfied(rev, k) && k < |rev.order|
    requires Reaches(CombinedGraph(canonical, rev.edges, rev.satisfied), rev.order[k].path, d) && d != rev.order[k].path
    ensures d in refs && refs[d] in rev.satisfied
  {
    var g := CombinedGraph(canonical, rev.edges, rev.satisfied);
    var p :| PathBetween(g, p, rev.order[k].path, d);
    assert Paths(rev.order)[k] == p[0];
    PathMovesLeft(g, Paths(rev.order), p, k);
    var j :| 0 <= j <= k && Paths(rev.order)[j] == d;
    assert rev.order[j].path == d;
  }

  /** Everything a path reaches in the combined graph, itself aside, is a satisfied task of the project. */
  ghost predicate Unblocked(rev: Revision, refs: Authority, canonical: Graph, path: string) {
    forall d :: Reaches(CombinedGraph(canonical, rev.edges, rev.satisfied), path, d) && d != path ==>
      d in refs && refs[d] in rev.satisfied
  }

  /** The first unsatisfied entry, or the length of the order. */
  lemma FindFirstUnsatisfied(rev: Revision) returns (k: nat)
    ensures FirstUnsatisfied(rev, k)
  {
    k := 0;
    while k < |rev.order| && rev.order[k] in rev.satisfied
      invariant k <= |rev.order| && forall j :: 0 <= j < k ==> rev.order[j] in rev.satisfied
    {
      k := k + 1;
    }
  }

  /** Safety: when the first unsatisfied task does not wait for a stale reference, everything the
      returned task still depends on, by canonical or episode edges, is satisfied. */
  lemma ScheduledTaskIsUnblocked(rev: Revision, refs: Authority, canonical: Graph)
    requires Completed(rev, refs, canonical) && ScheduleEpisodeRevision(rev).next.Some?
    requires forall k: nat, e :: FirstUnsatisfied(rev, k) && k < |rev.order| ==> !StaleWait(rev, refs, rev.order[k], e)
    ensures Unblocked(rev, refs, canonical, ScheduleEpisodeRevision(rev).next.value.path)
  {
    var k := FindFirstUnsatisfied(rev);
    var stop := ScheduledTaskIsReady(rev);
    FirstUnsatisfiedScheduledIff(rev, refs, canonical, k);
    forall d | Reaches(CombinedGraph(canonical, rev.edges, rev.satisfied), rev.order[k].path, d) && d != rev.order[k].path
      ensures d in refs && refs[d] in rev.satisfied
    {
      FirstUnsatisfiedIsUnblocked(rev, refs, canonical, k, d);
    }
  }

  function OldReferenceExample(r: TaskRef, e: TaskRef, old_: TaskRef, new_: TaskRef): Revision {
    Revision(1, "s", r, r, "", [EpisodeEdge(e, old_, "f")], [new_], [], [new_, e, r], [new_, e, r], 1, Replanning)
  }

  /** Without that condition a task can be started although a canonical dependency of it is not
      satisfied: "e" waits for an old reference of "d", and the scan moves on to "r", which needs "e". */
  lemma StaleReferenceStartsBlockedTask() returns (rev: Revision, refs: Authority, canonical: Graph)
    ensures Completed(rev, refs, canonical) && CurrentRef(refs, rev.scopeRoot)
    ensures ScheduleEpisodeRevision(rev) == Schedule(StartBlockerTask, NoReason, Some(rev.scopeRoot))
    ensures !Unblocked(rev, refs, canonical, rev.scopeRoot.path)
  {
    var r, e, old_, new_ := TaskRef("r", "", "1"), TaskRef("e", "", "1"), TaskRef("d", "", "0"), TaskRef("d", "", "1");
    refs := map["r" := r, "e" := e, "d" := new_];
    canonical := map["r" := ["e"]];
    rev := OldReferenceExample(r, e, old_, new_);
    ExampleCompleted(r, e, old_, new_);
    ExampleScheduled(r, e, old_, new_);
    assert refs["e"] !in rev.satisfied;
  }

  lemma ExampleCompleted(r: TaskRef, e: TaskRef, old_: TaskRef, new_: TaskRef)
    requires r.path == "r" && e.path == "e" && old_.path == new_.path == "d" && old_ != new_
    ensures var rev, refs := OldReferenceExample(r, e, old_, new_), map["r" := r, "e" := e, "d" := new_];
            && Completed(rev, refs, map["r" := ["e"]])
            && Reaches(CombinedGraph(map["r" := ["e"]], rev.edges, rev.satisfied), "r", "e")
  {
    var rev, canonical: Graph := OldReferenceExample(r, e, old_, new_), map["r" := ["e"]];
    var g := CombinedGraph(canonical, rev.edges, rev.satisfied);
    OneEdge(canonical, rev.edges[0], rev.satisfied);
    ThreeInLine(g);
    assert Paths(rev.order) == ["d", "e", "r"];
  }

  lemma ExampleScheduled(r: TaskRef, e: TaskRef, old_: TaskRef, new_: TaskRef)
    requires r.path == "r" && e.path == "e" && old_.path == new_.path == "d" && old_ != new_
    ensures ScheduleEpisodeRevision(OldReferenceExample(r, e, old_, new_)) == Schedule(StartBlockerTask, NoReason, Some(r))
  {
    var rev := OldReferenceExample(r, e, old_, new_);
    var k := ScanStops(rev, 0);
    assert UnsatisfiedEdge(rev, e, rev.edges[0]);
    assert Passed(rev, 0) && Passed(rev, 1) && !Passed(rev, 2);
  }

  lemma TwoInLine(g: Graph)
    requires Deps(g, "r") == ["d"] && Deps(g, "d") == []
    ensures DepsFirst(g, ["d", "r"])
    ensures forall v :: Reaches(g, "r", v) <==> v in ["d", "r"]
  {
    var paths := ["d", "r"];
    forall i, d | 0 <= i < 2 && Edge(g, paths[i], d) ensures d in paths[..i] {
      assert paths[..1] == ["d"];
    }
    ReachesSelf(g, "r");
    ReachesStep(g, "r", "r", "d");
    forall v | Reaches(g, "r", v) ensures v in paths { OrderClosedUnderReach(g, paths, "r", v); }
  }

  lemma ThreeInLine(g: Graph)
    requires Deps(g, "r") == ["e"] && Deps(g, "e") == ["d"] && Deps(g, "d") == []
    ensures DepsFirst(g, ["d", "e", "r"])
    ensures forall v :: Reaches(g, "r", v) <==> v in ["d", "e", "r"]
  {
    var paths := ["d", "e", "r"];
    forall i, d | 0 <= i < 3 && Edge(g, paths[i], d) ensures d in paths[..i] {
      assert paths[..1] == ["d"] && paths[..2] == ["d", "e"];
    }
    ReachesSelf(g, "r");
    ReachesStep(g, "r", "r", "e");
    ReachesStep(g, "r", "e", "d");
    forall v | Reaches(g, "r", v) ensures v in paths { OrderClosedUnderReach(g, paths, "r", v); }
  }

  lemma OneEdge(base: Graph, e: EpisodeEdge, satisfied: seq<TaskRef>)
    requires e.dependency !in satisfied
    ensures CombinedGraph(base, [e], satisfied) == AddDependency(base, e.blocked.path, e.dependency.path)
  {
    assert [e][..0] == [];
    assert CombinedGraph(base, [e][..0], satisfied) == base;
  }

  /** With the whole order satisfied the scheduler resumes the root unless the scope root is
      recorded by a stale reference that was never satisfied itself. */
  lemma SatisfiedOrderDeadlockIff(rev: Revision, refs: Authority, canonical: Graph)
    requires Completed(rev, refs, canonical) && FirstUnsatisfied(rev, |rev.order|)
    ensures ScheduleEpisodeRevision(rev).intent == (if rev.scopeRoot in rev.satisfied then ResumeRootTask else NoRunnable)
    ensures ScheduleEpisodeRevision(rev).intent == NoRunnable ==> !CurrentRef(refs, rev.scopeRoot)
  {
    ScheduleSkipsSatisfied(rev, 0, |rev.order|);
    assert Paths(rev.order)[|rev.order| - 1] == rev.scopeRoot.path;
  }

  /** A stale dependency reference does deadlock a completed revision. */
  lemma StaleReferenceDeadlocks() returns (rev: Revision, refs: Authority)
    ensures Completed(rev, refs, map[]) && ScheduleEpisodeRevision(rev).intent == NoRunnable
    ensures rev.order != [] && rev.scopeRoot !in rev.satisfied && CurrentRef(refs, rev.scopeRoot)
  {
    var root, old_, new_ := TaskRef("r", "", "1"), TaskRef("d", "", "0"), TaskRef("d", "", "1");
    refs := map["r" := root, "d" := new_];
    rev := Revision(1, "s", root, root, "", [EpisodeEdge(root, old_, "f")], [new_], [], [new_, root], [new_, root], 1, Replanning);
    var g := CombinedGraph(map[], rev.edges, rev.satisfied);
    OneEdge(map[], rev.edges[0], rev.satisfied);
    TwoInLine(g);
    assert Paths(rev.order) == ["d", "r"];
    assert Completed(rev, refs, map[]);
    assert UnsatisfiedEdge(rev, root, rev.edges[0]);
    assert Passed(rev, 0) && Passed(rev, 1);
    DeadlockIff(rev);
  }

  /** So does a scope root that is only satisfied by its current reference. */
  lemma StaleScopeRootDeadlocks() returns (rev: Revision, refs: Authority)
    ensures Completed(rev, refs, map[]) && FirstUnsatisfied(rev, |rev.order|) && ScheduleEpisodeRevision(rev).intent == NoRunnable
  {
    var old_, new_ := TaskRef("r", "", "0"), TaskRef("r", "", "1");
    refs := map["r" := new_];
    rev := Revision(1, "s", old_, old_, "", [], [new_], [], [new_], [new_], 1, Replanning);
    var g := CombinedGraph(map[], rev.edges, rev.satisfied);
    var paths := Paths(rev.order);
    assert paths == ["r"] && g == map[];
    ReachesSelf(g, "r");
    forall v | Reaches(g, "r", v) ensures v in paths { OrderClosedUnderReach(g, paths, "r", v); }
    assert Completed(rev, refs, map[]);
    SatisfiedOrderDeadlockIff(rev, refs, map[]);
  }

  // ---------------------------------------------------------------- schedule against the project

  datatype Project = Project(snapshotId: string, next: seq<string>, blocked: seq<string>, tasks: seq<TaskRef>)

  predicate PathSatisfied(refs: seq<TaskRef>, path: string) {
    path in Paths(refs)
  }

  /** The staleness check made before scheduling: same snapshot, and every unsatisfied closure
      task is a current task of the project. */
  predicate ValidScheduleAuthority(rev: Revision, project: Project, refs: Authority) {
    && rev.projectSnapshotId == project.snapshotId
    && forall i :: 0 <= i < |rev.closure| && !PathSatisfied(rev.satisfied, rev.closure[i].path) ==>
         rev.closure[i].path in refs && refs[rev.closure[i].path] == rev.closure[i]
  }

  /** An unsatisfied closure task that is in BLOCKED or not in NEXT. */
  predicate Misplaced(rev: Revision, project: Project, path: string) {
    !PathSatisfied(rev.satisfied, path) && (path in project.blocked || path !in project.next)
  }

  predicate Names(project: Project, path: string, reason: Reason) {
    reason == if path in project.blocked then InBlocked(path) else OutsideNext(path)
  }

  /** The first misplaced closure task, if there is one. */
  function StateFailure(rev: Revision, project: Project, i: nat): (reason: Reason)
    requires i <= |rev.closure|
    ensures reason != NoTaskReady
    ensures reason == NoReason <==> forall j :: i <= j < |rev.closure| ==> !Misplaced(rev, project, rev.closure[j].path)
    ensures reason != NoReason ==>
              exists j :: i <= j < |rev.closure| && Misplaced(rev, project, rev.closure[j].path) && Names(project, rev.closure[j].path, reason)
                          && forall m :: i <= m < j ==> !Misplaced(rev, project, rev.closure[m].path)
    decreases |rev.closure| - i
  {
    if i == |rev.closure| then NoReason
    else
      var path := rev.closure[i].path;
      if PathSatisfied(rev.satisfied, path) then StateFailure(rev, project, i + 1)
      else if path in project.blocked then InBlocked(path)
      else if path !in project.next then OutsideNext(path)
      else StateFailure(rev, project, i + 1)
  }

  predicate ReadyAgainstProject(rev: Revision, path: string, canonical: Graph) {
    && Deps(canonical, path) == []
    && forall i :: 0 <= i < |rev.edges| && rev.edges[i].blocked.path == path ==>
         PathSatisfied(rev.satisfied, rev.edges[i].dependency.path)
  }

  /** In scope, unsatisfied, known to the project and free of outstanding dependencies. */
  predicate Runnable(rev: Revision, refs: Authority, canonical: Graph, path: string) {
    && path in Paths(rev.closure)
    && !PathSatisfied(rev.satisfied, path)
    && path in refs
    && ReadyAgainstProject(rev, path, canonical)
  }

  /** The most recently executed runnable task among the first n entries of the history. */
  function ResumeCandidate(rev: Revision, refs: Authority, canonical: Graph, n: nat): (r: Option<TaskRef>)
    requires n <= |rev.history|
    ensures r.None? <==> forall i :: 0 <= i < n ==> !Runnable(rev, refs, canonical, rev.history[i].path)
    ensures r.Some? ==> exists i :: 0 <= i < n && r.value.path == rev.history[i].path && Runnable(rev, refs, canonical, r.value.path)
                                    && r.value == refs[rev.history[i].path]
                                    && forall j :: i < j < n ==> !Runnable(rev, refs, canonical, rev.history[j].path)
  {
    if n == 0 then None
    else if Runnable(rev, refs, canonical, rev.history[n - 1].path) then Some(refs[rev.history[n - 1].path])
    else ResumeCandidate(rev, refs, canonical, n - 1)
  }

  predicate Fresh(rev: Revision, refs: Authority, canonical: Graph, path: string) {
    path !in Paths(rev.history) && Runnable(rev, refs, canonical, path)
  }

  /** Position k of NEXT is the first fresh one from position i on. */
  ghost predicate FreshFrom(rev: Revision, project: Project, refs: Authority, canonical: Graph, i: nat, k: nat) {
    && i <= k < |project.next| && Fresh(rev, refs, canonical, project.next[k])
    && forall j :: i <= j < k ==> !Fresh(rev, refs, canonical, project.next[j])
  }

  /** The first runnable task of NEXT, from position i, that was never executed. */
  function FreshCandidate(rev: Revision, project: Project, refs: Authority, canonical: Graph, i: nat): (r: Option<TaskRef>)
    requires i <= |project.next|
    ensures r.None? <==> forall j :: i <= j < |project.next| ==> !Fresh(rev, refs, canonical, project.next[j])
    ensures r.Some? ==> r.value.path in refs && r.value == refs[r.value.path]
    ensures r.Some? ==> exists k: nat :: FreshFrom(rev, project, refs, canonical, i, k) && project.next[k] == r.value.path
    decreases |project.next| - i
  {
    if i == |project.next| then None
    else
      var path := project.next[i];
      if Fresh(rev, refs, canonical, path) then
        assert FreshFrom(rev, project, refs, canonical, i, i);
        Some(refs[path])
      else
        var later := FreshCandidate(rev, project, refs, canonical, i + 1);
        assert forall k: nat :: FreshFrom(rev, project, refs, canonical, i + 1, k) ==> FreshFrom(rev, project, refs, canonical, i, k);
        later
  }

  function ScheduleWithAuthority(rev: Revision, project: Project, refs: Authority, canonical: Graph): Schedule {
    if PathSatisfied(rev.satisfied, rev.scopeRoot.path) then Schedule(ResumeRootTask, NoReason, None)
    else if StateFailure(rev, project, 0) != NoReason then Schedule(NoRunnable, StateFailure(rev, project, 0), None)
    else
      var resume := ResumeCandidate(rev, refs, canonical, |rev.history|);
      if resume.Some? then Schedule(ResumeBlockerTask, NoReason, resume)
      else
        var fresh_ := FreshCandidate(rev, project, refs, canonical, 0);
        if fresh_.Some? then Schedule(StartBlockerTask, NoReason, fresh_)
        else Schedule(NoRunnable, NoTaskReady, None)
  }

  ghost predicate Mentions(tasks: seq<TaskRef>, path: string) {
    exists i :: 0 <= i < |tasks| && tasks[i].path == path
  }

  /** A closure task that nothing recorded as satisfied, with no outstanding canonical dependency and every
      episode dependency satisfied, by path. */
  ghost predicate FreeToRun(rev: Revision, refs: Authority, canonical: Graph, path: string) {
    && Mentions(rev.closure, path) && !Mentions(rev.satisfied, path) && path in refs
    && (path in canonical ==> canonical[path] == [])
    && forall e :: e in rev.edges && e.blocked.path == path ==> Mentions(rev.satisfied, e.dependency.path)
  }

  lemma MentionsIff(tasks: seq<TaskRef>, path: string)
    ensures Mentions(tasks, path) <==> path in Paths(tasks)
  {
    if i :| 0 <= i < |tasks| && tasks[i].path == path {
      assert Paths(tasks)[i] == path;
    }
    if path in Paths(tasks) {
      var i :| 0 <= i < |tasks| && Paths(tasks)[i] == path;
      assert tasks[i].path == path;
    }
  }

  lemma RunnableIff(rev: Revision, refs: Authority, canonical: Graph, path: string)
    ensures Runnable(rev, refs, canonical, path) <==> FreeToRun(rev, refs, canonical, path)
  {
    MentionsIff(rev.closure, path);
    MentionsIff(rev.satisfied, path);
    forall e | e in rev.edges ensures Mentions(rev.satisfied, e.dependency.path) <==> PathSatisfied(rev.satisfied, e.dependency.path) {
      MentionsIff(rev.satisfied, e.dependency.path);
    }
  }

  /** The task of the last runnable entry of the history. */
  ghost predicate LastRunnable(rev: Revision, refs: Authority, canonical: Graph, path: string) {
    exists i :: 0 <= i < |rev.history| && rev.history[i].path == path && FreeToRun(rev, refs, canonical, path)
                && forall j :: i < j < |rev.history| ==> !FreeToRun(rev, refs, canonical, rev.history[j].path)
  }

  ghost predicate NothingToResume(rev: Revision, refs: Authority, canonical: Graph) {
    forall j :: 0 <= j < |rev.history| ==> !FreeToRun(rev, refs, canonical, rev.history[j].path)
  }

  /** The first task of NEXT that is runnable and was never executed. */
  ghost predicate FirstFresh(rev: Revision, project: Project, refs: Authority, canonical: Graph, path: string) {
    exists k :: 0 <= k < |project.next| && project.next[k] == path && FreeToRun(rev, refs, canonical, path) && !Mentions(rev.history, path)
                && forall j :: 0 <= j < k ==> Mentions(rev.history, project.next[j]) || !FreeToRun(rev, refs, canonical, project.next[j])
  }

  /** The first unsatisfied closure task that is in BLOCKED or missing from NEXT, and which of the two. */
  ghost predicate FirstOutOfPlace(rev: Revision, project: Project, reason: Reason) {
    exists j :: 0 <= j < |rev.closure| && OutOfPlace(rev, project, j)
                && (forall m :: 0 <= m < j ==> !OutOfPlace(rev, project, m))
                && reason == if rev.closure[j].path in project.blocked then InBlocked(rev.closure[j].path) else OutsideNext(rev.closure[j].path)
  }

  ghost predicate OutOfPlace(rev: Revision, project: Project, j: int)
    requires 0 <= j < |rev.closure|
  {
    !Mentions(rev.satisfied, rev.closure[j].path) && (rev.closure[j].path in project.blocked || rev.closure[j].path !in project.next)
  }

  lemma FirstFailure(rev: Revision, project: Project)
    ensures StateFailure(rev, project, 0) != NoReason ==> FirstOutOfPlace(rev, project, StateFailure(rev, project, 0))
    ensures StateFailure(rev, project, 0) == NoReason ==> forall j :: 0 <= j < |rev.closure| ==> !OutOfPlace(rev, project, j)
  {
    var reason := StateFailure(rev, project, 0);
    forall j | 0 <= j < |rev.closure| ensures OutOfPlace(rev, project, j) <==> Misplaced(rev, project, rev.closure[j].path) {
      MentionsIff(rev.satisfied, rev.closure[j].path);
    }
    if reason != NoReason {
      var j :| 0 <= j < |rev.closure| && Misplaced(rev, project, rev.closure[j].path) && Names(project, rev.closure[j].path, reason)
               && forall m :: 0 <= m < j ==> !Misplaced(rev, project, rev.closure[m].path);
      assert OutOfPlace(rev, project, j);
    }
  }

  /** Which task the project scheduler picks: the one executed last among the runnable ones, and only when
      none was executed before, the first of NEXT. */
  lemma ProjectSchedulePicks(rev: Revision, project: Project, refs: Authority, canonical: Graph)
    ensures var s := ScheduleWithAuthority(rev, project, refs, canonical);
            && (s.intent == ResumeBlockerTask ==> s.next.Some? && LastRunnable(rev, refs, canonical, s.next.value.path))
            && (s.intent == StartBlockerTask ==>
                  s.next.Some? && NothingToResume(rev, refs, canonical) && FirstFresh(rev, project, refs, canonical, s.next.value.path))
            && (s.next.Some? ==> s.intent == if NothingToResume(rev, refs, canonical) then StartBlockerTask else ResumeBlockerTask)
            && (s.next.Some? ==> s.reason == NoReason)
            && (s.intent == ResumeRootTask <==> Mentions(rev.satisfied, rev.scopeRoot.path))
            && (s.intent == NoRunnable && s.reason != NoTaskReady ==> FirstOutOfPlace(rev, project, s.reason))
            && (s.intent == NoRunnable && s.reason == NoTaskReady ==>
                  && NothingToResume(rev, refs, canonical)
                  && forall path :: path in project.next && FreeToRun(rev, refs, canonical, path) ==> Mentions(rev.history, path))
  {
    MentionsIff(rev.satisfied, rev.scopeRoot.path);
    FirstFailure(rev, project);
    forall path ensures Mentions(rev.history, path) <==> path in Paths(rev.history) { MentionsIff(rev.history, path); }
    forall path ensures FreeToRun(rev, refs, canonical, path) <==> Runnable(rev, refs, canonical, path) {
      RunnableIff(rev, refs, canonical, path);
    }
  }

  /** Safety of the project scheduler, and exactly when it has nothing to run. */
  lemma ProjectScheduleSafe(rev: Revision, project: Project, refs: Authority, canonical: Graph)
    ensures var s := ScheduleWithAuthority(rev, project, refs, canonical);
            && (s.next.Some? ==>
                  && Runnable(rev, refs, canonical, s.next.value.path) && s.next.value == refs[s.next.value.path]
                  && !PathSatisfied(rev.satisfied, rev.scopeRoot.path)
                  && s.next.value.path in project.next && s.next.value.path !in project.blocked
                  && (s.intent == ResumeBlockerTask <==> s.next.value.path in Paths(rev.history)))
            && (s.next.None? ==> s.intent == ResumeRootTask || s.intent == NoRunnable)
            && (s.intent == ResumeRootTask <==> PathSatisfied(rev.satisfied, rev.scopeRoot.path))
            && (s.intent == NoRunnable <==>
                  && !PathSatisfied(rev.satisfied, rev.scopeRoot.path)
                  && ((exists path :: path in Paths(rev.closure) && Misplaced(rev, project, path))
                      || forall path :: path in project.next ==> !Runnable(rev, refs, canonical, path)))
            && (s.intent == NoRunnable && s.reason != NoTaskReady ==>
                  exists path :: path in Paths(rev.closure) && Misplaced(rev, project, path) && Names(project, path, s.reason))
            && (s.intent == NoRunnable && s.reason == NoTaskReady ==>
                  forall path :: path in Paths(rev.closure) ==> !Misplaced(rev, project, path))
  {
    var s := ScheduleWithAuthority(rev, project, refs, canonical);
    MisplacedIff(rev, project);
    if s.next.Some? {
      var path := s.next.value.path;
      if s.intent == ResumeBlockerTask {
        var i :| 0 <= i < |rev.history| && path == rev.history[i].path;
        assert Paths(rev.history)[i] == path;
      }
      assert !Misplaced(rev, project, path);
    } else if s.reason == NoTaskReady {
      forall path | path in project.next ensures !Runnable(rev, refs, canonical, path) {
        var j :| 0 <= j < |project.next| && project.next[j] == path;
        if path in Paths(rev.history) {
          var i :| 0 <= i < |rev.history| && Paths(rev.history)[i] == path;
          assert !Runnable(rev, refs, canonical, rev.history[i].path);
        } else {
          assert !Runnable(rev, refs, canonical, project.next[j]);
        }
      }
    }
  }

  lemma MisplacedIff(rev: Revision, project: Project)
    ensures var reason := StateFailure(rev, project, 0);
            && (reason == NoReason <==> forall path :: path in Paths(rev.closure) ==> !Misplaced(rev, project, path))
            && (reason != NoReason ==>
                  exists path :: path in Paths(rev.closure) && Misplaced(rev, project, path) && Names(project, path, reason))
  {
    var reason := StateFailure(rev, project, 0);
    if reason == NoReason {
      forall path | path in Paths(rev.closure) ensures !Misplaced(rev, project, path) {
        var j :| 0 <= j < |rev.closure| && Paths(rev.closure)[j] == path;
        assert rev.closure[j].path == path;
      }
    } else {
      var j :| 0 <= j < |rev.closure| && Misplaced(rev, project, rev.closure[j].path) && Names(project, rev.closure[j].path, reason);
      assert Paths(rev.closure)[j] == rev.closure[j].path;
    }
  }

  /** Every episode edge of an admitted task is satisfied or leads to an earlier entry. */
  ghost predicate EdgesOrdered(rev: Revision) {
    forall k, e :: 0 <= k < |rev.order| && e in rev.edges && e.blocked.path == rev.order[k].path ==>
      PathSatisfied(rev.satisfied, e.dependency.path) || e.dependency.path in Paths(rev.order[..k])
  }

  /** The admitted order is topological for the project's outstanding dependencies,
      and these name no satisfied task. */
  ghost predicate OutstandingOrdered(rev: Revision, canonical: Graph) {
    forall k, d :: 0 <= k < |rev.order| && d in Deps(canonical, rev.order[k].path) ==> OutstandingBehind(rev, k, d)
  }

  ghost predicate OutstandingBehind(rev: Revision, k: nat, d: string)
    requires k < |rev.order|
  {
    d in Paths(rev.order[..k]) && !PathSatisfied(rev.satisfied, d)
  }

  ghost predicate SamePaths(rev: Revision) {
    forall v :: v in Paths(rev.closure) <==> v in Paths(rev.order)
  }

  /** What project scheduling needs of a revision, whichever way it was produced. */
  ghost predicate Ordered(rev: Revision) {
    EdgesOrdered(rev) && SamePaths(rev) && rev.scopeRoot.path in Paths(rev.order)
  }

  lemma CompletedIsOrdered(rev: Revision, refs: Authority, canonical: Graph)
    requires Completed(rev, refs, canonical)
    ensures Ordered(rev)
  {
    forall k, e | 0 <= k < |rev.order| && e in rev.edges && e.blocked.path == rev.order[k].path
      ensures PathSatisfied(rev.satisfied, e.dependency.path) || e.dependency.path in Paths(rev.order[..k])
    {
      if e.dependency in rev.satisfied {
        var i :| 0 <= i < |rev.satisfied| && rev.satisfied[i] == e.dependency;
        assert Paths(rev.satisfied)[i] == e.dependency.path;
      } else {
        EdgeStandsEarlier(rev, refs, canonical, k, e);
      }
    }
    SameElements(rev.closure, rev.order);
    forall v ensures v in Paths(rev.closure) <==> v in Paths(rev.order) {
      if v in Paths(rev.closure) {
        var i :| 0 <= i < |rev.closure| && Paths(rev.closure)[i] == v;
        assert rev.closure[i] in rev.order;
        var j :| 0 <= j < |rev.order| && rev.order[j] == rev.closure[i];
        assert Paths(rev.order)[j] == v;
      }
      if v in Paths(rev.order) {
        var i :| 0 <= i < |rev.order| && Paths(rev.order)[i] == v;
        assert rev.order[i] in rev.closure;
        var j :| 0 <= j < |rev.closure| && rev.closure[j] == rev.order[i];
        assert Paths(rev.closure)[j] == v;
      }
    }
    assert Paths(rev.order)[|rev.order| - 1] == rev.scopeRoot.path;
  }

  /** The least index whose path is unsatisfied; all earlier ones are satisfied. */
  lemma FirstUnsatisfiedPath(rev: Revision, path: string) returns (k: nat)
    requires path in Paths(rev.order) && !PathSatisfied(rev.satisfied, path)
    ensures k < |rev.order| && !PathSatisfied(rev.satisfied, rev.order[k].path)
    ensures forall v :: v in Paths(rev.order[..k]) ==> PathSatisfied(rev.satisfied, v)
  {
    k := 0;
    var i :| 0 <= i < |rev.order| && Paths(rev.order)[i] == path;
    while PathSatisfied(rev.satisfied, rev.order[k].path)
      invariant k <= i
      invariant forall j :: 0 <= j < k ==> PathSatisfied(rev.satisfied, rev.order[j].path)
      decreases i - k
    {
      k := k + 1;
    }
    forall v | v in Paths(rev.order[..k]) ensures PathSatisfied(rev.satisfied, v) {
      var j :| 0 <= j < k && Paths(rev.order[..k])[j] == v;
      assert rev.order[j].path == v;
    }
  }

  /** A task with an outstanding dependency stands behind an unsatisfied one. */
  lemma OutstandingWaits(rev: Revision, canonical: Graph, k: nat)
    requires OutstandingOrdered(rev, canonical) && k < |rev.order|
    requires Deps(canonical, rev.order[k].path) != []
    ensures exists v :: v in Paths(rev.order[..k]) && !PathSatisfied(rev.satisfied, v)
  {
    assert OutstandingBehind(rev, k, Deps(canonical, rev.order[k].path)[0]);
  }

  /** Progress: as long as the scope root is unsatisfied, some task is returned. */
  lemma ProjectScheduleProgress(rev: Revision, project: Project, refs: Authority, canonical: Graph)
    requires ValidScheduleAuthority(rev, project, refs)
    requires Ordered(rev)
    requires OutstandingOrdered(rev, canonical)
    requires StateFailure(rev, project, 0) == NoReason
    ensures !PathSatisfied(rev.satisfied, rev.scopeRoot.path) ==>
              ScheduleWithAuthority(rev, project, refs, canonical).next.Some?
  {
    if !PathSatisfied(rev.satisfied, rev.scopeRoot.path) {
      var k := FirstUnsatisfiedPath(rev, rev.scopeRoot.path);
      var path := rev.order[k].path;
      assert Paths(rev.order)[k] == path && path in Paths(rev.order);
      var c :| 0 <= c < |rev.closure| && Paths(rev.closure)[c] == path;
      assert rev.closure[c].path == path;
      if Deps(canonical, path) != [] { OutstandingWaits(rev, canonical, k); }
      assert Runnable(rev, refs, canonical, path);
      ProjectScheduleSafe(rev, project, refs, canonical);
    }
  }

  /** The closure task that keeps the project from being the revision's authority: it is not satisfied, and the project
      does not have it or has another reference for it. */
  ghost predicate Stale(rev: Revision, refs: Authority, i: nat) {
    && i < |rev.closure| && !Mentions(rev.satisfied, rev.closure[i].path)
    && (rev.closure[i].path !in refs || refs[rev.closure[i].path] != rev.closure[i])
  }

  /** Scheduling against a project: refused exactly when the project is of another snapshot or some unsatisfied closure task
      is stale in it. */
  method ScheduleAgainstProject(rev: Revision, project: Project, refs: Authority, canonical: Graph) returns (r: Result<Schedule>)
    ensures r.Fail? <==> rev.projectSnapshotId != project.snapshotId || exists i :: Stale(rev, refs, i)
    ensures r.Ok? ==> r.value == ScheduleWithAuthority(rev, project, refs, canonical)
  {
    if rev.projectSnapshotId != project.snapshotId { return Fail; }
    for i := 0 to |rev.closure|
      invariant forall k: nat :: k < i ==> !Stale(rev, refs, k)
      invariant forall k :: 0 <= k < i && !PathSatisfied(rev.satisfied, rev.closure[k].path) ==>
                  rev.closure[k].path in refs && refs[rev.closure[k].path] == rev.closure[k]
    {
      var path := rev.closure[i].path;
      MentionsIff(rev.satisfied, path);
      if PathSatisfied(rev.satisfied, path) { continue; }
      if path !in refs || refs[path] != rev.closure[i] {
        assert Stale(rev, refs, i);
        return Fail;
      }
    }
    assert ValidScheduleAuthority(rev, project, refs);
    return Ok(ScheduleWithAuthority(rev, project, refs, canonical));
  }

  /** The check by that name is this one. */
  lemma AuthorityIsValidIff(rev: Revision, project: Project, refs: Authority)
    ensures ValidScheduleAuthority(rev, project, refs) <==> rev.projectSnapshotId == project.snapshotId && forall i :: !Stale(rev, refs, i)
  {
    forall i: nat | i < |rev.closure|
      ensures Stale(rev, refs, i) <==>
                !PathSatisfied(rev.satisfied, rev.closure[i].path) && (rev.closure[i].path !in refs || refs[rev.closure[i].path] != rev.closure[i])
    {
      MentionsIff(rev.satisfied, rev.closure[i].path);
    }
  }
}
