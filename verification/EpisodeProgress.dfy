/** Rebinding an episode revision to the project snapshot that a satisfied task produced. */
module EpisodeProgress {
  import opened Results
  import opened EpisodeGraph
  import opened EpisodeClosure
  import opened EpisodeSchedule

  // ---------------------------------------------------------------- specification

  function RefsByPath(tasks: seq<TaskRef>): (refs: Authority)
    ensures forall p :: p in refs <==> p in Paths(tasks)
  {
    if tasks == [] then map[]
    else
      assert tasks == tasks[..|tasks| - 1] + [tasks[|tasks| - 1]];
      Bound(RefsByPath(tasks[..|tasks| - 1]), tasks[|tasks| - 1])
  }

  function Bound(refs: Authority, task: TaskRef): Authority {
    refs[task.path := task]
  }

  predicate Rebindable(r: TaskRef, refs: Authority, satisfied: seq<TaskRef>) {
    r.path in refs || PathSatisfied(satisfied, r.path)
  }

  function Rebound(r: TaskRef, refs: Authority): (b: TaskRef)
    ensures b.path == r.path
  {
    if r.path in refs then refs[r.path] else r
  }

  function ReboundRefs(rs: seq<TaskRef>, refs: Authority): (bs: seq<TaskRef>)
    ensures |bs| == |rs| && Paths(bs) == Paths(rs)
  {
    seq(|rs|, i requires 0 <= i < |rs| => Rebound(rs[i], refs))
  }

  function ReboundEdge(e: EpisodeEdge, refs: Authority): EpisodeEdge {
    e.(blocked := Rebound(e.blocked, refs), dependency := Rebound(e.dependency, refs))
  }

  function ReboundEdges(es: seq<EpisodeEdge>, refs: Authority): seq<EpisodeEdge> {
    seq(|es|, i requires 0 <= i < |es| => ReboundEdge(es[i], refs))
  }

  function AppendTaskPathUnique(refs: seq<TaskRef>, candidate: TaskRef): seq<TaskRef> {
    if PathSatisfied(refs, candidate.path) then refs else refs + [candidate]
  }

  function Satisfied'(previous: Revision, task: TaskRef): seq<TaskRef> {
    if task.Empty() then previous.satisfied else AppendTaskPathUnique(previous.satisfied, task)
  }

  /** Everything an unsatisfied part of the episode mentions is still a task of the project. */
  predicate RebindableRevision(previous: Revision, refs: Authority, satisfied: seq<TaskRef>) {
    && Rebindable(previous.scopeRoot, refs, satisfied)
    && (forall i :: 0 <= i < |previous.edges| ==>
          Rebindable(previous.edges[i].blocked, refs, satisfied) && Rebindable(previous.edges[i].dependency, refs, satisfied))
    && (forall i :: 0 <= i < |previous.closure| ==> Rebindable(previous.closure[i], refs, satisfied))
    && (forall i :: 0 <= i < |previous.order| ==> Rebindable(previous.order[i], refs, satisfied))
  }

  function Progressed(previous: Revision, generation: nat, root: TaskRef, project: Project, task: TaskRef): Revision {
    var refs := RefsByPath(project.tasks);
    var satisfied := Satisfied'(previous, task);
    var scopeRoot := Rebound(previous.scopeRoot, refs);
    previous.(
      number := previous.number + 1,
      projectSnapshotId := project.snapshotId,
      rootTask := root,
      scopeRoot := scopeRoot,
      triggerFindingId := "",
      edges := ReboundEdges(previous.edges, refs),
      satisfied := satisfied,
      closure := ReboundRefs(previous.closure, refs),
      order := ReboundRefs(previous.order, refs),
      controllerGeneration := generation,
      state := if PathSatisfied(satisfied, scopeRoot.path) then ResumingRoot else Replanning)
  }

  // ---------------------------------------------------------------- the rebinding loops

  method ProjectRefsByPath(project: Project) returns (refs: Authority)
    ensures refs == RefsByPath(project.tasks)
  {
    refs := map[];
    for i := 0 to |project.tasks|
      invariant refs == RefsByPath(project.tasks[..i])
    {
      refs := Bound(refs, project.tasks[i]);
      RefsByPathStep(project.tasks, i);
    }
    assert project.tasks[..|project.tasks|] == project.tasks;
  }

  lemma RefsByPathStep(tasks: seq<TaskRef>, i: nat)
    requires i < |tasks|
    ensures RefsByPath(tasks[..i + 1]) == Bound(RefsByPath(tasks[..i]), tasks[i])
  {
    assert tasks[..i + 1][..i] == tasks[..i];
  }

  method RebindEpisodeRef(previous: TaskRef, refs: Authority, satisfied: seq<TaskRef>) returns (r: Option<TaskRef>)
    ensures r == if Rebindable(previous, refs, satisfied) then Some(Rebound(previous, refs)) else None
  {
    if previous.path in refs { return Some(refs[previous.path]); }
    if PathSatisfied(satisfied, previous.path) { return Some(previous); }
    return None;
  }

  method RebindEpisodeRefs(previous: seq<TaskRef>, refs: Authority, satisfied: seq<TaskRef>) returns (r: Option<seq<TaskRef>>)
    ensures r.Some? <==> forall i :: 0 <= i < |previous| ==> Rebindable(previous[i], refs, satisfied)
    ensures r.Some? ==> r.value == ReboundRefs(previous, refs)
  {
    var result: seq<TaskRef> := [];
    for i := 0 to |previous|
      invariant result == ReboundRefs(previous[..i], refs)
      invariant forall j :: 0 <= j < i ==> Rebindable(previous[j], refs, satisfied)
    {
      var rebound := RebindEpisodeRef(previous[i], refs, satisfied);
      if rebound.None? { return None; }
      result := result + [rebound.value];
    }
    assert previous[..|previous|] == previous;
    return Some(result);
  }

  method RebindEpisodeEdges(edges: seq<EpisodeEdge>, refs: Authority, satisfied: seq<TaskRef>) returns (r: Option<seq<EpisodeEdge>>)
    ensures r.Some? <==> forall i :: 0 <= i < |edges| ==>
              Rebindable(edges[i].blocked, refs, satisfied) && Rebindable(edges[i].dependency, refs, satisfied)
    ensures r.Some? ==> r.value == ReboundEdges(edges, refs)
  {
    var result: seq<EpisodeEdge> := [];
    for i := 0 to |edges|
      invariant result == ReboundEdges(edges[..i], refs)
      invariant forall j :: 0 <= j < i ==>
                  Rebindable(edges[j].blocked, refs, satisfied) && Rebindable(edges[j].dependency, refs, satisfied)
    {
      var blocked := RebindEpisodeRef(edges[i].blocked, refs, satisfied);
      if blocked.None? { return None; }
      var dependency := RebindEpisodeRef(edges[i].dependency, refs, satisfied);
      if dependency.None? { return None; }
      result := result + [edges[i].(blocked := blocked.value, dependency := dependency.value)];
    }
    assert edges[..|edges|] == edges;
    return Some(result);
  }

  // ---------------------------------------------------------------- the progressed revision, read off its project

  /** `b` is the project's last reference to the path of `r`, or `r` itself where the project has none. */
  ghost predicate Renewed(tasks: seq<TaskRef>, r: TaskRef, b: TaskRef) {
    if exists i :: 0 <= i < |tasks| && tasks[i].path == r.path
    then exists i :: 0 <= i < |tasks| && tasks[i] == b && b.path == r.path && forall k :: i < k < |tasks| ==> tasks[k].path != r.path
    else b == r
  }

  ghost predicate AllRenewed(tasks: seq<TaskRef>, rs: seq<TaskRef>, bs: seq<TaskRef>) {
    |bs| == |rs| && forall i :: 0 <= i < |rs| ==> Renewed(tasks, rs[i], bs[i])
  }

  ghost predicate EdgesRenewed(tasks: seq<TaskRef>, es: seq<EpisodeEdge>, bs: seq<EpisodeEdge>) {
    && |bs| == |es|
    && forall i :: 0 <= i < |es| ==>
         && Renewed(tasks, es[i].blocked, bs[i].blocked) && Renewed(tasks, es[i].dependency, bs[i].dependency)
         && bs[i].findingId == es[i].findingId
  }

  /** The new satisfied list: the old one, with the task at its end unless there is none or its path is there. */
  ghost predicate SatisfiedWith(before: seq<TaskRef>, task: TaskRef, after: seq<TaskRef>) {
    if task == TaskRef("", "", "") || exists i :: 0 <= i < |before| && before[i].path == task.path
    then after == before
    else after == before + [task]
  }

  /** Every field of the progressed revision; what was executed is kept as it was. */
  ghost predicate ProgressedFrom(previous: Revision, generation: nat, root: TaskRef, project: Project, task: TaskRef, next: Revision) {
    && next.number == previous.number + 1 && next.controllerGeneration == generation && next.triggerFindingId == ""
    && next.projectSnapshotId == project.snapshotId && next.rootTask == root && next.history == previous.history
    && Renewed(project.tasks, previous.scopeRoot, next.scopeRoot)
    && AllRenewed(project.tasks, previous.closure, next.closure) && AllRenewed(project.tasks, previous.order, next.order)
    && EdgesRenewed(project.tasks, previous.edges, next.edges)
    && SatisfiedWith(previous.satisfied, task, next.satisfied)
    && next.state == if exists i :: 0 <= i < |next.satisfied| && next.satisfied[i].path == previous.scopeRoot.path then ResumingRoot else Replanning
  }

  ghost predicate NoneIn(tasks: seq<TaskRef>, from: nat, to: nat, path: string) {
    to <= |tasks| && forall k :: from <= k < to ==> tasks[k].path != path
  }

  lemma {:induction false} RefIsLast(tasks: seq<TaskRef>, n: nat, refs: Authority, path: string) returns (i: nat)
    requires n <= |tasks| && refs == RefsByPath(tasks[..n]) && path in refs
    ensures i < n && tasks[i] == refs[path] && NoneIn(tasks, i + 1, n, path)
  {
    if n == 0 { assert false; }
    var before := RefsByPath(tasks[..n - 1]);
    assert refs == Bound(before, tasks[n - 1]) by { RefsByPathStep(tasks, n - 1); }
    if tasks[n - 1].path == path { return n - 1; }
    i := RefIsLast(tasks, n - 1, before, path);
    NoneInNext(tasks, i + 1, n - 1, path);
  }

  lemma NoneInNext(tasks: seq<TaskRef>, from: nat, n: nat, path: string)
    requires n < |tasks| && NoneIn(tasks, from, n, path) && tasks[n].path != path
    ensures NoneIn(tasks, from, n + 1, path)
  {
  }

  lemma InPathsIff(rs: seq<TaskRef>, path: string)
    ensures path in Paths(rs) <==> exists i :: 0 <= i < |rs| && rs[i].path == path
  {
    if i :| 0 <= i < |rs| && rs[i].path == path { assert Paths(rs)[i] == path; }
  }

  lemma ReboundIsRenewed(tasks: seq<TaskRef>, r: TaskRef)
    ensures Renewed(tasks, r, Rebound(r, RefsByPath(tasks)))
  {
    InPathsIff(tasks, r.path);
    if r.path in RefsByPath(tasks) {
      assert tasks[..|tasks|] == tasks;
      var i := RefIsLast(tasks, |tasks|, RefsByPath(tasks), r.path);
    }
  }

  lemma ProgressedMeans(previous: Revision, generation: nat, root: TaskRef, project: Project, task: TaskRef)
    ensures ProgressedFrom(previous, generation, root, project, task, Progressed(previous, generation, root, project, task))
  {
    var refs, next := RefsByPath(project.tasks), Progressed(previous, generation, root, project, task);
    forall r ensures Renewed(project.tasks, r, Rebound(r, refs)) { ReboundIsRenewed(project.tasks, r); }
    forall i | 0 <= i < |next.edges| ensures next.edges[i] == ReboundEdge(previous.edges[i], refs) {}
    forall i | 0 <= i < |next.closure| ensures next.closure[i] == Rebound(previous.closure[i], refs) {}
    forall i | 0 <= i < |next.order| ensures next.order[i] == Rebound(previous.order[i], refs) {}
    InPathsIff(previous.satisfied, task.path);
    InPathsIff(next.satisfied, previous.scopeRoot.path);
  }

  method ProgressedEpisodeRevision(previous: Revision, generation: nat, root: TaskRef, project: Project, task: TaskRef)
    returns (r: Option<Revision>)
    ensures r.Some? <==> RebindableRevision(previous, RefsByPath(project.tasks), Satisfied'(previous, task))
    ensures r.Some? ==> r.value == Progressed(previous, generation, root, project, task)
    ensures r.Some? ==> ProgressedFrom(previous, generation, root, project, task, r.value)
  {
    ProgressedMeans(previous, generation, root, project, task);
    var refs := ProjectRefsByPath(project);
    var satisfied := previous.satisfied;
    if !task.Empty() { satisfied := AppendTaskPathUnique(satisfied, task); }
    var scopeRoot := RebindEpisodeRef(previous.scopeRoot, refs, satisfied);
    if scopeRoot.None? { return None; }
    var edges := RebindEpisodeEdges(previous.edges, refs, satisfied);
    if edges.None? { return None; }
    var closure := RebindEpisodeRefs(previous.closure, refs, satisfied);
    if closure.None? { return None; }
    var order := RebindEpisodeRefs(previous.order, refs, satisfied);
    if order.None? { return None; }
    var next := previous.(scopeRoot := scopeRoot.value, edges := edges.value, closure := closure.value, order := order.value);
    next := next.(
      number := previous.number + 1,
      projectSnapshotId := project.snapshotId,
      rootTask := root,
      triggerFindingId := "",
      satisfied := satisfied,
      controllerGeneration := generation,
      state := Replanning);
    if PathSatisfied(next.satisfied, next.scopeRoot.path) {
      next := next.(state := ResumingRoot);
    }
    return Some(next);
  }

  // ---------------------------------------------------------------- what progression keeps

  lemma SatisfiedGrows(previous: Revision, task: TaskRef, v: string)
    ensures PathSatisfied(Satisfied'(previous, task), v) <==>
            PathSatisfied(previous.satisfied, v) || (!task.Empty() && v == task.path)
  {
    var satisfied := Satisfied'(previous, task);
    if satisfied != previous.satisfied {
      assert Paths(satisfied) == Paths(previous.satisfied) + [task.path];
    }
  }

  /** A progressed revision keeps the paths, their order, and every satisfied path; it passes the
      schedule-authority check of its project; and its edges stay ordered. */
  lemma ProgressKeeps(previous: Revision, generation: nat, root: TaskRef, project: Project, task: TaskRef)
    requires RebindableRevision(previous, RefsByPath(project.tasks), Satisfied'(previous, task))
    requires Ordered(previous)
    ensures var next := Progressed(previous, generation, root, project, task);
            && Paths(next.order) == Paths(previous.order) && Paths(next.closure) == Paths(previous.closure)
            && next.scopeRoot.path == previous.scopeRoot.path
            && (forall v :: PathSatisfied(previous.satisfied, v) ==> PathSatisfied(next.satisfied, v))
            && ValidScheduleAuthority(next, project, RefsByPath(project.tasks))
            && Ordered(next)
            && (next.state == ResumingRoot <==> PathSatisfied(next.satisfied, next.scopeRoot.path))
  {
    var refs := RefsByPath(project.tasks);
    var next := Progressed(previous, generation, root, project, task);
    forall v ensures PathSatisfied(previous.satisfied, v) ==> PathSatisfied(next.satisfied, v) {
      SatisfiedGrows(previous, task, v);
    }
    forall k, e | 0 <= k < |next.order| && e in next.edges && e.blocked.path == next.order[k].path
      ensures PathSatisfied(next.satisfied, e.dependency.path) || e.dependency.path in Paths(next.order[..k])
    {
      var i :| 0 <= i < |next.edges| && next.edges[i] == e;
      var e0 := previous.edges[i];
      assert e0 in previous.edges && e0.blocked.path == previous.order[k].path;
      assert Paths(next.order[..k]) == Paths(previous.order[..k]);
    }
    assert forall i :: 0 <= i < |next.closure| ==> next.closure[i].path == previous.closure[i].path;
  }

  /** Satisfied tasks are remembered by the reference they had: after a progression the
      reference-based scheduler sees an entry as satisfied exactly when the recorded reference
      is still the project's, whereas the path-based one always does. */
  lemma SatisfiedEntrySeenIff(previous: Revision, generation: nat, root: TaskRef, project: Project, task: TaskRef, k: nat, r: TaskRef)
    requires RebindableRevision(previous, RefsByPath(project.tasks), Satisfied'(previous, task))
    requires k < |previous.order| && r in Satisfied'(previous, task) && r.path == previous.order[k].path
    requires NoDup(Paths(Satisfied'(previous, task)))
    ensures var next := Progressed(previous, generation, root, project, task);
            && PathSatisfied(next.satisfied, next.order[k].path)
            && (next.order[k] in next.satisfied <==> r == Rebound(previous.order[k], RefsByPath(project.tasks)))
  {
    var next := Progressed(previous, generation, root, project, task);
    var i :| 0 <= i < |next.satisfied| && next.satisfied[i] == r;
    assert Paths(next.satisfied)[i] == r.path;
    if next.order[k] in next.satisfied {
      var j :| 0 <= j < |next.satisfied| && next.satisfied[j] == next.order[k];
      assert Paths(next.satisfied)[j] == Paths(next.satisfied)[i];
    }
  }

  /** Rebinding forgets: once the project of a second progression knows every task of the first one's,
      nothing of the first rebinding is left. */
  lemma RebindingsCompose(previous: Revision, first: Project, task: TaskRef, second: Project, later: TaskRef, generation: nat, root: TaskRef)
    requires forall p :: p in Paths(first.tasks) ==> p in Paths(second.tasks)
    ensures var once := Progressed(previous, generation, root, first, task);
            var twice, direct := Progressed(once, generation, root, second, later), Progressed(previous, generation, root, second, later);
            && twice.order == direct.order && twice.closure == direct.closure && twice.edges == direct.edges
            && twice.scopeRoot == direct.scopeRoot
  {
    var once := Progressed(previous, generation, root, first, task);
    var twice, direct := Progressed(once, generation, root, second, later), Progressed(previous, generation, root, second, later);
    forall i | 0 <= i < |direct.edges| ensures twice.edges[i] == direct.edges[i] {
      assert once.edges[i] == ReboundEdge(previous.edges[i], RefsByPath(first.tasks));
    }
  }

  lemma OneEntryAPath(rs: seq<TaskRef>, r: TaskRef, q: TaskRef)
    requires NoDup(Paths(rs)) && r in rs && r.path == q.path
    ensures q in rs ==> q == r
  {
    var i :| 0 <= i < |rs| && rs[i] == r;
    if j :| 0 <= j < |rs| && rs[j] == q {
      assert Paths(rs)[j] == Paths(rs)[i];
    }
  }

  /** What the changed reference costs: a revision replanned over such a state runs the satisfied
      task again, exactly when the recorded reference is not the project's, unless it waits. */
  lemma SatisfiedTaskRunsAgainIff(rev: Revision, refs: Authority, canonical: Graph, k: nat, r: TaskRef)
    requires Completed(rev, refs, canonical) && NoDup(Paths(rev.satisfied))
    requires k < |rev.order| && r in rev.satisfied && r.path == rev.order[k].path
    requires forall j :: 0 <= j < k ==> rev.order[j] in rev.satisfied
    requires !exists e :: StaleWait(rev, refs, rev.order[k], e)
    ensures ScheduleEpisodeRevision(rev).next == Some(rev.order[k]) <==> r != refs[r.path]
  {
    assert Paths(rev.order)[k] == r.path && rev.order[k] == refs[r.path];
    if ScheduleEpisodeRevision(rev).next == Some(rev.order[k]) {
      var stop := ScheduledTaskIsReady(rev);
    } else if r != rev.order[k] {
      OneEntryAPath(rev.satisfied, r, rev.order[k]);
      FirstUnsatisfiedScheduledIff(rev, refs, canonical, k);
    }
  }

  function TwoTasks(number: nat, snapshot: string, r: TaskRef, d: TaskRef, satisfied: seq<TaskRef>): Revision {
    Revision(number, snapshot, r, r, "", [EpisodeEdge(r, d, "f")], satisfied, [], [d, r], [d, r], number, Replanning)
  }

  lemma TwoTasksCompleted(number: nat, snapshot: string, r: TaskRef, d: TaskRef, satisfied: seq<TaskRef>, project: Project)
    requires r.path == "r" && d.path == "d" && d !in satisfied && r !in satisfied && project.tasks == [d, r]
    ensures var rev := TwoTasks(number, snapshot, r, d, satisfied);
            Completed(rev, RefsByPath(project.tasks), map[]) && ScheduleEpisodeRevision(rev).next == Some(d)
  {
    var rev := TwoTasks(number, snapshot, r, d, satisfied);
    OneEdge(map[], rev.edges[0], satisfied);
    TwoInLine(CombinedGraph(map[], rev.edges, satisfied));
    assert Paths(rev.order) == ["d", "r"];
    TwoRefs(d, r);
    FirstOfTwoScheduled(rev, r, d);
  }

  lemma FirstOfTwoScheduled(rev: Revision, r: TaskRef, d: TaskRef)
    requires rev.order == [d, r] && d !in rev.satisfied && rev.edges == [EpisodeEdge(r, d, "f")] && d != r
    ensures ScheduleEpisodeRevision(rev).next == Some(d)
  {
    var k := ScanStops(rev, 0);
    assert !Passed(rev, 0);
  }

  lemma TwoTasksProgressed(r: TaskRef, old_: TaskRef, new_: TaskRef, after: Project)
    requires r.path == "r" && old_.path == new_.path == "d" && after.tasks == [new_, r] && after.snapshotId == "t"
    ensures var previous := TwoTasks(1, "s", r, old_, []);
            && RebindableRevision(previous, RefsByPath(after.tasks), Satisfied'(previous, old_))
            && Progressed(previous, 2, r, after, old_) == TwoTasks(2, "t", r, new_, [old_])
  {
    var previous := TwoTasks(1, "s", r, old_, []);
    TwoRefs(new_, r);
    assert Satisfied'(previous, old_) == [old_] && Paths([old_]) == ["d"];
    ReboundTwo(r, old_, new_, map["d" := new_, "r" := r]);
  }

  lemma ReboundTwo(r: TaskRef, old_: TaskRef, new_: TaskRef, refs: Authority)
    requires r.path == "r" && old_.path == new_.path == "d" && refs == map["d" := new_, "r" := r]
    ensures ReboundRefs([old_, r], refs) == [new_, r] && Rebound(r, refs) == r
    ensures ReboundEdges([EpisodeEdge(r, old_, "f")], refs) == [EpisodeEdge(r, new_, "f")]
  {
    assert Rebound(old_, refs) == new_;
  }

  lemma TwoRefs(d: TaskRef, r: TaskRef)
    requires d.path != r.path
    ensures RefsByPath([d, r]) == map[d.path := d, r.path := r]
  {
    assert [d, r][..1] == [d] && [d][..0] == [];
    assert RefsByPath([d]) == Bound(RefsByPath([]), d);
  }

  /** An episode that does so: "d" is satisfied, the project's next snapshot has a new reference for
      it, and the revision replanned over that starts "d" again. */
  lemma SatisfiedTaskRunsAgain() returns (previous: Revision, before: Project, task: TaskRef, after: Project)
    ensures Completed(previous, RefsByPath(before.tasks), map[]) && ScheduleEpisodeRevision(previous).next == Some(task)
    ensures RebindableRevision(previous, RefsByPath(after.tasks), Satisfied'(previous, task)) && !task.Empty()
    ensures var next, refs := Progressed(previous, 2, previous.rootTask, after, task), RefsByPath(after.tasks);
            && Completed(next, refs, map[]) && task in next.satisfied && next.order[0].path == task.path
            && next.order[0] !in next.satisfied && ScheduleEpisodeRevision(next).next == Some(next.order[0])
  {
    var r, old_, new_ := TaskRef("r", "", "1"), TaskRef("d", "", "0"), TaskRef("d", "", "1");
    task := old_;
    before, after := Project("s", [], [], [old_, r]), Project("t", [], [], [new_, r]);
    previous := TwoTasks(1, "s", r, old_, []);
    TwoTasksCompleted(1, "s", r, old_, [], before);
    TwoTasksCompleted(2, "t", r, new_, [old_], after);
    TwoTasksProgressed(r, old_, new_, after);
  }

  /** The closure paths that are still unsatisfied. */
  function Unsatisfied(rev: Revision): set<string> {
    set v | v in Paths(rev.closure) && !PathSatisfied(rev.satisfied, v)
  }

  function Remaining(rev: Revision): nat {
    |Unsatisfied(rev)|
  }

  lemma ProgressShrinks(previous: Revision, generation: nat, root: TaskRef, project: Project, task: TaskRef)
    requires task.path in Unsatisfied(previous) && !task.Empty()
    ensures Unsatisfied(Progressed(previous, generation, root, project, task)) == Unsatisfied(previous) - {task.path}
  {
    var next := Progressed(previous, generation, root, project, task);
    assert Paths(next.closure) == Paths(previous.closure);
    forall v ensures v in Unsatisfied(next) <==> v in Unsatisfied(previous) - {task.path} {
      SatisfiedGrows(previous, task, v);
    }
  }

  /** One step of an episode: the scheduled task is published, the revision progresses. */
  datatype Step = Step(generation: nat, root: TaskRef, project: Project, canonical: Graph)

  ghost predicate StepBy(rev: Revision, here: Step, next: Revision, there: Step) {
    var schedule := ScheduleWithAuthority(rev, here.project, RefsByPath(here.project.tasks), here.canonical);
    && schedule.next.Some? && !schedule.next.value.Empty()
    && RebindableRevision(rev, RefsByPath(there.project.tasks), Satisfied'(rev, schedule.next.value))
    && next == Progressed(rev, there.generation, there.root, there.project, schedule.next.value)
  }

  /** A run of any relation between one revision and step and the next. */
  ghost predicate RunOf(step: (Revision, Step, Revision, Step) -> bool, revs: seq<Revision>, steps: seq<Step>) {
    && |revs| == |steps| > 0
    && forall i :: 0 < i < |revs| ==> step(revs[i - 1], steps[i - 1], revs[i], steps[i])
  }

  ghost predicate EpisodeRun(revs: seq<Revision>, steps: seq<Step>) {
    RunOf(StepBy, revs, steps)
  }

  lemma LongerRunIff(step: (Revision, Step, Revision, Step) -> bool, revs: seq<Revision>, steps: seq<Step>, next: Revision, there: Step)
    requires RunOf(step, revs, steps)
    ensures RunOf(step, revs + [next], steps + [there]) <==> step(revs[|revs| - 1], steps[|steps| - 1], next, there)
  {
    var r, s, n := revs + [next], steps + [there], |revs|;
    if RunOf(step, r, s) {
      assert step(r[n - 1], s[n - 1], r[n], s[n]);
    }
  }

  lemma StepShrinks(rev: Revision, here: Step, next: Revision, there: Step)
    requires StepBy(rev, here, next, there) && Ordered(rev)
    ensures Ordered(next) && |next.closure| == |rev.closure|
    ensures Remaining(next) == Remaining(rev) - 1
    ensures Remaining(next) == 0 ==> next.state == ResumingRoot
  {
    var refs := RefsByPath(here.project.tasks);
    var task := ScheduleWithAuthority(rev, here.project, refs, here.canonical).next.value;
    ProjectScheduleSafe(rev, here.project, refs, here.canonical);
    assert task.path in Unsatisfied(rev);
    ProgressShrinks(rev, there.generation, there.root, there.project, task);
    ProgressKeeps(rev, there.generation, there.root, there.project, task);
    if Unsatisfied(next) == {} {
      assert next.scopeRoot.path in Paths(next.order) && next.scopeRoot.path in Paths(next.closure);
      assert next.scopeRoot.path !in Unsatisfied(next);
    }
  }

  /** Every step of an episode satisfies one more closure task, so no run is longer than the
      closure, and a run that used up every unsatisfied task has reached resuming-root. */
  lemma {:induction false} EpisodeRunsEnd(revs: seq<Revision>, steps: seq<Step>)
    requires EpisodeRun(revs, steps) && Ordered(revs[0])
    ensures var last := revs[|revs| - 1];
            && Ordered(last) && |last.closure| == |revs[0].closure|
            && Remaining(last) + |revs| - 1 == Remaining(revs[0]) <= |revs[0].closure|
            && (|revs| > 1 && Remaining(last) == 0 ==> last.state == ResumingRoot)
    decreases |revs|
  {
    UnsatisfiedBound(revs[0]);
    if |revs| > 1 {
      var n := |revs| - 1;
      assert EpisodeRun(revs[..n], steps[..n]);
      EpisodeRunsEnd(revs[..n], steps[..n]);
      StepShrinks(revs[n - 1], steps[n - 1], revs[n], steps[n]);
    }
  }

  lemma SeqSetSize(ps: seq<string>)
    ensures |set v | v in ps| <= |ps|
  {
    if ps != [] {
      var front := ps[..|ps| - 1];
      SeqSetSize(front);
      assert (set v | v in ps) == (set v | v in front) + {ps[|ps| - 1]};
    }
  }

  lemma UnsatisfiedBound(rev: Revision)
    ensures Remaining(rev) <= |rev.closure|
  {
    SeqSetSize(Paths(rev.closure));
    var all := set v | v in Paths(rev.closure);
    assert all == Unsatisfied(rev) + (all - Unsatisfied(rev));
  }

  // ---------------------------------------------------------------- a run ends only at the root

  /** The revision fits the project it was progressed into. */
  ghost predicate FitsProject(rev: Revision, project: Project) {
    && ValidScheduleAuthority(rev, project, RefsByPath(project.tasks))
    && RebindableRevision(rev, RefsByPath(project.tasks), rev.satisfied)
  }

  /** The project lets the episode go on: every unsatisfied closure task is in NEXT and not in BLOCKED,
      outstanding dependencies agree with the admitted order, and tasks have paths. */
  ghost predicate Workable(rev: Revision, step: Step) {
    && (forall path :: path in Paths(rev.closure) ==> !Misplaced(rev, step.project, path))
    && OutstandingOrdered(rev, step.canonical) && "" !in Paths(step.project.tasks)
  }

  lemma ProgressFits(previous: Revision, task: TaskRef, step: Step)
    requires RebindableRevision(previous, RefsByPath(step.project.tasks), Satisfied'(previous, task)) && Ordered(previous)
    ensures FitsProject(Progressed(previous, step.generation, step.root, step.project, task), step.project)
  {
    ProgressKeeps(previous, step.generation, step.root, step.project, task);
    var refs, next := RefsByPath(step.project.tasks), Progressed(previous, step.generation, step.root, step.project, task);
    forall i | 0 <= i < |next.edges|
      ensures Rebindable(next.edges[i].blocked, refs, next.satisfied) && Rebindable(next.edges[i].dependency, refs, next.satisfied)
    {
      assert next.edges[i] == ReboundEdge(previous.edges[i], refs);
    }
    forall i | 0 <= i < |next.closure| ensures Rebindable(next.closure[i], refs, next.satisfied) {
      assert next.closure[i] == Rebound(previous.closure[i], refs);
    }
    forall i | 0 <= i < |next.order| ensures Rebindable(next.order[i], refs, next.satisfied) {
      assert next.order[i] == Rebound(previous.order[i], refs);
    }
  }

  /** A workable revision has a next step, for one within the same project, until its root is satisfied. */
  lemma StepExistsIff(rev: Revision, here: Step)
    requires Ordered(rev) && FitsProject(rev, here.project) && Workable(rev, here)
    ensures (exists next, there :: StepBy(rev, here, next, there)) <==> !PathSatisfied(rev.satisfied, rev.scopeRoot.path)
  {
    var refs := RefsByPath(here.project.tasks);
    var schedule := ScheduleWithAuthority(rev, here.project, refs, here.canonical);
    ProjectScheduleSafe(rev, here.project, refs, here.canonical);
    if !PathSatisfied(rev.satisfied, rev.scopeRoot.path) {
      MisplacedIff(rev, here.project);
      ProjectScheduleProgress(rev, here.project, refs, here.canonical);
      var task := schedule.next.value;
      assert task.path in refs;
      RebindableLonger(rev, refs, task);
      assert StepBy(rev, here, Progressed(rev, here.generation, here.root, here.project, task), here);
    }
  }

  lemma RebindableLonger(rev: Revision, refs: Authority, task: TaskRef)
    requires RebindableRevision(rev, refs, rev.satisfied)
    ensures RebindableRevision(rev, refs, Satisfied'(rev, task))
  {
    forall v ensures PathSatisfied(rev.satisfied, v) ==> PathSatisfied(Satisfied'(rev, task), v) {
      SatisfiedGrows(rev, task, v);
    }
  }

  lemma {:induction false} RunFits(revs: seq<Revision>, steps: seq<Step>)
    requires EpisodeRun(revs, steps) && Ordered(revs[0]) && FitsProject(revs[0], steps[0].project)
    ensures var last := revs[|revs| - 1];
            && Ordered(last) && FitsProject(last, steps[|steps| - 1].project)
            && (|revs| > 1 ==> (last.state == ResumingRoot <==> PathSatisfied(last.satisfied, last.scopeRoot.path)))
    decreases |revs|
  {
    if |revs| > 1 {
      var n := |revs| - 1;
      assert EpisodeRun(revs[..n], steps[..n]);
      RunFits(revs[..n], steps[..n]);
      assert StepBy(revs[n - 1], steps[n - 1], revs[n], steps[n]);
      var here := steps[n - 1];
      var task := ScheduleWithAuthority(revs[n - 1], here.project, RefsByPath(here.project.tasks), here.canonical).next.value;
      ProgressFits(revs[n - 1], task, steps[n]);
      ProgressKeeps(revs[n - 1], steps[n].generation, steps[n].root, steps[n].project, task);
    }
  }

  /** A run whose last revision is workable goes on exactly until the scope root is satisfied; a run
      that made a step and cannot go on has reached resuming-root. */
  lemma RunsReachTheRoot(revs: seq<Revision>, steps: seq<Step>)
    requires EpisodeRun(revs, steps) && Ordered(revs[0]) && FitsProject(revs[0], steps[0].project)
    requires Workable(revs[|revs| - 1], steps[|steps| - 1])
    ensures var last := revs[|revs| - 1];
            && ((exists next, there :: EpisodeRun(revs + [next], steps + [there])) <==> !PathSatisfied(last.satisfied, last.scopeRoot.path))
            && (|revs| > 1 && (forall next, there :: !EpisodeRun(revs + [next], steps + [there])) ==> last.state == ResumingRoot)
  {
    RunFits(revs, steps);
    var last, here := revs[|revs| - 1], steps[|steps| - 1];
    StepExistsIff(last, here);
    forall next, there ensures EpisodeRun(revs + [next], steps + [there]) <==> StepBy(last, here, next, there) {
      ExtendsRun(revs, steps, next, there);
    }
    if next, there :| StepBy(last, here, next, there) {
      assert EpisodeRun(revs + [next], steps + [there]);
    }
  }

  lemma ExtendsRun(revs: seq<Revision>, steps: seq<Step>, next: Revision, there: Step)
    requires EpisodeRun(revs, steps)
    ensures EpisodeRun(revs + [next], steps + [there]) <==> StepBy(revs[|revs| - 1], steps[|steps| - 1], next, there)
  {
    LongerRunIff(StepBy, revs, steps, next, there);
  }
}
