/** Planning a blocker-episode revision: the combined dependency graph, the three-colour
    cycle check, the depth-first closure walker and the completed revision. */
module EpisodeClosure {
  import opened Results
  import opened EpisodeGraph
  import opened TextOrder

  datatype TaskRef = TaskRef(path: string, requestId: string, digest: string) {
    predicate Empty() { path == "" && requestId == "" && digest == "" }
  }

  datatype EpisodeEdge = EpisodeEdge(blocked: TaskRef, dependency: TaskRef, findingId: string)

  type Authority = refs: map<string, TaskRef> | forall p :: p in refs ==> refs[p].path == p

  datatype EpisodeState = Planned | Replanning | ResumingRoot | Closed

  /** The fields of a revision that planning, scheduling and progression read or write. */
  datatype Revision = Revision(
    number: nat,
    projectSnapshotId: string,
    rootTask: TaskRef,
    scopeRoot: TaskRef,
    triggerFindingId: string,
    edges: seq<EpisodeEdge>,
    satisfied: seq<TaskRef>,
    history: seq<TaskRef>,
    closure: seq<TaskRef>,
    order: seq<TaskRef>,
    controllerGeneration: nat,
    state: EpisodeState)

  datatype PlanError =
    | EmptyScopeRoot
    | ScopeRootOutsideAuthority
    | CycleAt(path: string)
    | OutsideAuthority(path: string)

  datatype Outcome<T> = Success(value: T) | Failure(error: PlanError)

  function Paths(refs: seq<TaskRef>): (ps: seq<string>)
    ensures |ps| == |refs| && forall i :: 0 <= i < |refs| ==> ps[i] == refs[i].path
  {
    seq(|refs|, i requires 0 <= i < |refs| => refs[i].path)
  }

  // ---------------------------------------------------------------- combined graph

  function AppendUnique<T(==)>(values: seq<T>, candidate: T): seq<T> {
    if candidate in values then values else values + [candidate]
  }

  function AddDependency(g: Graph, u: string, v: string): Graph {
    g[u := AppendUnique(Deps(g, u), v)]
  }

  /** Adds the dependency of every edge that is not yet satisfied to a base graph. */
  function CombinedGraph(base: Graph, edges: seq<EpisodeEdge>, satisfied: seq<TaskRef>): Graph {
    if edges == [] then base
    else
      var e := edges[|edges| - 1];
      var g := CombinedGraph(base, edges[..|edges| - 1], satisfied);
      if e.dependency in satisfied then g
      else AddDependency(g, e.blocked.path, e.dependency.path)
  }

  ghost predicate LiveEdge(e: EpisodeEdge, satisfied: seq<TaskRef>, u: string, v: string) {
    e.dependency !in satisfied && e.blocked.path == u && e.dependency.path == v
  }

  /** The combined graph is exactly the base relation plus the unsatisfied episode edges. */
  lemma {:induction false} CombinedGraphEdges(base: Graph, edges: seq<EpisodeEdge>, satisfied: seq<TaskRef>, u: string, v: string)
    ensures Edge(CombinedGraph(base, edges, satisfied), u, v)
       <==> Edge(base, u, v) || exists e :: e in edges && LiveEdge(e, satisfied, u, v)
  {
    if edges != [] {
      var front, last := edges[..|edges| - 1], edges[|edges| - 1];
      CombinedGraphEdges(base, front, satisfied, u, v);
      assert edges == front + [last];
      assert LiveEdge(last, satisfied, u, v) ==> Edge(CombinedGraph(base, edges, satisfied), u, v);
      assert forall e :: e in edges <==> e in front || e == last;
    }
  }

  method CombineDependencies(base: Graph, edges: seq<EpisodeEdge>, satisfied: seq<TaskRef>) returns (g: Graph)
    ensures g == CombinedGraph(base, edges, satisfied)
  {
    g := base;
    for i := 0 to |edges|
      invariant g == CombinedGraph(base, edges[..i], satisfied)
    {
      assert edges[..i + 1][..i] == edges[..i];
      if edges[i].dependency !in satisfied {
        g := AddDependency(g, edges[i].blocked.path, edges[i].dependency.path);
      }
    }
    assert edges[..|edges|] == edges;
  }

  // ---------------------------------------------------------------- cycle check

  datatype Mark = OnStack | Finished

  /** The colours describe a depth-first search: the grey paths form a trail in the graph,
      the black ones were finished dependencies first. */
  ghost predicate ColoursMatch(g: Graph, states: map<string, Mark>, stack: seq<string>, finished: seq<string>) {
    && (forall v :: v in states && states[v] == OnStack <==> v in stack)
    && (forall v :: Done(states, v) <==> v in finished)
    && (stack != [] ==> IsPath(g, stack))
    && NoDup(finished) && DepsFirst(g, finished)
  }

  predicate Done(states: map<string, Mark>, v: string) {
    v in states && states[v] == Finished
  }

  /** Paths are never uncoloured, and a finished path stays finished. */
  ghost predicate Grew(before: map<string, Mark>, after: map<string, Mark>) {
    before.Keys <= after.Keys && forall v :: Done(before, v) ==> Done(after, v)
  }

  lemma EnterNode(g: Graph, states: map<string, Mark>, stack: seq<string>, finished: seq<string>, path: string)
    requires ColoursMatch(g, states, stack, finished) && path !in states
    requires stack != [] ==> Edge(g, stack[|stack| - 1], path)
    ensures ColoursMatch(g, states[path := OnStack], stack + [path], finished)
  {
    ExtendTrail(g, stack, path);
  }

  lemma LeaveNode(g: Graph, states: map<string, Mark>, stack: seq<string>, finished: seq<string>, path: string)
    requires ColoursMatch(g, states, stack + [path], finished) && path !in stack
    requires forall d :: d in Deps(g, path) ==> Done(states, d)
    ensures ColoursMatch(g, states[path := Finished], stack, finished + [path])
  {
    assert path in stack + [path];
    AppendFinished(g, finished, path);
    RestoreTrail(g, stack, path);
  }

  /** The recursion state of the cycle check: `states` is the colour map, and the ghost
      fields record the current stack and the finishing order it stands for. */
  class CycleCheck {
    const adjacency: Graph
    var states: map<string, Mark>
    ghost var stack: seq<string>
    ghost var finished: seq<string>

    ghost predicate Valid()
      reads this
    {
      ColoursMatch(adjacency, states, stack, finished)
    }

    constructor (adjacency: Graph)
      ensures Valid() && this.adjacency == adjacency && states == map[] && stack == []
    {
      this.adjacency := adjacency;
      states, stack, finished := map[], [], [];
    }

    method Visit(path: string) returns (err: Option<PlanError>)
      requires Valid() && path in Universe(adjacency)
      requires stack != [] ==> Edge(adjacency, stack[|stack| - 1], path)
      modifies this
      ensures err.Some? ==> err.value.CycleAt? && HasCycle(adjacency)
      ensures err.None? ==> Valid() && stack == old(stack)
      ensures err.None? ==> Done(states, path) && Grew(old(states), states)
      decreases Universe(adjacency) - states.Keys, 0
    {
      if path in states {
        match states[path] {
          case OnStack =>
            TrailClosesCycle(adjacency, stack, path);
            return Some(CycleAt(path));
          case Finished =>
            return None;
        }
      }
      EnterNode(adjacency, states, stack, finished, path);
      states := states[path := OnStack];
      stack := stack + [path];
      assert path in Universe(adjacency) - old(states).Keys;
      err := VisitDependencies(path, Deps(adjacency, path));
      if err.Some? { return; }
      LeaveNode(adjacency, states, old(stack), finished, path);
      states := states[path := Finished];
      stack := old(stack);
      finished := finished + [path];
      return None;
    }

    /** The loop of the visit: finishes every dependency of the path on top of the stack. */
    method VisitDependencies(path: string, dependencies: seq<string>) returns (err: Option<PlanError>)
      requires Valid() && stack != [] && stack[|stack| - 1] == path && path in states
      requires forall i :: 0 <= i < |dependencies| ==> Edge(adjacency, path, dependencies[i])
      modifies this
      ensures err.Some? ==> err.value.CycleAt? && HasCycle(adjacency)
      ensures err.None? ==> Valid() && stack == old(stack) && Grew(old(states), states)
      ensures err.None? ==> forall i :: 0 <= i < |dependencies| ==> Done(states, dependencies[i])
      decreases Universe(adjacency) - states.Keys, 1
    {
      for i := 0 to |dependencies|
        invariant Valid() && stack == old(stack) && Grew(old(states), states)
        invariant forall j :: 0 <= j < i ==> Done(states, dependencies[j])
      {
        assert path in adjacency && dependencies[i] in adjacency[path];
        err := Visit(dependencies[i]);
        if err.Some? { return; }
      }
      return None;
    }
  }

  lemma AppendFinished(g: Graph, order: seq<string>, path: string)
    requires NoDup(order) && DepsFirst(g, order) && path !in order
    requires forall d :: d in Deps(g, path) ==> d in order
    ensures NoDup(order + [path]) && DepsFirst(g, order + [path])
  {
    var next := order + [path];
    forall i, d | 0 <= i < |next| && Edge(g, next[i], d) ensures d in next[..i] {
      if i < |order| {
        assert d in order[..i];
        assert next[..i] == order[..i];
      } else {
        assert next[..i] == order;
      }
    }
  }

  lemma RestoreTrail(g: Graph, trail: seq<string>, path: string)
    requires IsPath(g, trail + [path])
    ensures trail != [] ==> IsPath(g, trail)
  {
    var p := trail + [path];
    forall i | 0 <= i < |trail| - 1 ensures Edge(g, trail[i], trail[i + 1]) {
      assert p[i] == trail[i] && p[i + 1] == trail[i + 1] && Edge(g, p[i], p[i + 1]);
    }
  }

  /** Sound and complete, whatever order the keys are visited in. */
  method ValidateEpisodeAcyclic(canonical: Graph, edges: seq<EpisodeEdge>, satisfied: seq<TaskRef>)
    returns (err: Option<PlanError>)
    ensures err.Some? <==> HasCycle(CombinedGraph(canonical, edges, satisfied))
    ensures err.Some? ==> err.value.CycleAt?
  {
    var adjacency := CombineDependencies(canonical, edges, satisfied);
    var check := new CycleCheck(adjacency);
    var todo := adjacency.Keys;
    while todo != {}
      invariant check.Valid() && check.stack == [] && check.adjacency == adjacency
      invariant fresh(check) && todo <= adjacency.Keys
      invariant forall v :: v in adjacency && v !in todo ==> Done(check.states, v)
      decreases todo
    {
      var path :| path in todo;
      err := check.Visit(path);
      if err.Some? { return; }
      todo := todo - {path};
    }
    OrderedGraphHasNoCycle(adjacency, check.finished);
    return None;
  }

  // ---------------------------------------------------------------- closure walker

  ghost predicate Merges(g: Graph, canonical: Graph, episode: Graph) {
    forall u, v :: Edge(g, u, v) <==> Edge(canonical, u, v) || Edge(episode, u, v)
  }

  ghost predicate FromAuthority(refs: Authority, order: seq<TaskRef>) {
    forall i :: 0 <= i < |order| ==> order[i].path in refs && refs[order[i].path] == order[i]
  }

  /** What the walker's fields say about the graph: `order` lists the finished paths dependencies
      first, `visiting` is the current trail, and both were reached from the root. */
  ghost predicate WalkState(g: Graph, root: string, refs: Authority, seen: set<string>, visiting: set<string>, order: seq<TaskRef>, trail: seq<string>) {
    && (forall v :: v in visiting <==> v in trail)
    && (forall v :: v in seen <==> v in Paths(order))
    && seen !! visiting
    && (trail != [] ==> IsPath(g, trail))
    && FromAuthority(refs, order)
    && NoDup(Paths(order)) && DepsFirst(g, Paths(order))
    && (forall v :: v in seen || v in visiting ==> Reaches(g, root, v))
  }

  lemma EnterPath(g: Graph, root: string, refs: Authority, seen: set<string>, visiting: set<string>, order: seq<TaskRef>, trail: seq<string>, path: string)
    requires WalkState(g, root, refs, seen, visiting, order, trail)
    requires path !in seen && Reaches(g, root, path)
    requires trail != [] ==> Edge(g, trail[|trail| - 1], path)
    ensures WalkState(g, root, refs, seen, visiting + {path}, order, trail + [path])
  {
    ExtendTrail(g, trail, path);
  }

  lemma LeavePath(g: Graph, root: string, refs: Authority, seen: set<string>, visiting: set<string>, order: seq<TaskRef>, trail: seq<string>, path: string)
    requires WalkState(g, root, refs, seen, visiting, order, trail + [path])
    requires path !in trail && path in refs
    requires forall d :: d in Deps(g, path) ==> d in seen
    ensures WalkState(g, root, refs, seen + {path}, visiting - {path}, order + [refs[path]], trail)
  {
    assert path in trail + [path];
    AppendFinished(g, Paths(order), path);
    RestoreTrail(g, trail, path);
    assert Paths(order + [refs[path]]) == Paths(order) + [path];
  }

  class ClosureWalker {
    const refs: Authority
    const canonical: Graph
    const episodeDependencies: Graph
    ghost const graph: Graph
    ghost const root: string
    var seen: set<string>
    var visiting: set<string>
    var order: seq<TaskRef>
    ghost var trail: seq<string>

    ghost predicate Valid()
      reads this
    {
      && Merges(graph, canonical, episodeDependencies)
      && WalkState(graph, root, refs, seen, visiting, order, trail)
    }

    /** A reported error names a real cycle, or a reachable path that is no project task. */
    ghost predicate Explains(err: PlanError) {
      || (err.CycleAt? && HasCycle(graph))
      || (err.OutsideAuthority? && err.path !in refs && Reaches(graph, root, err.path))
    }

    constructor (refs: Authority, canonical: Graph, episodeDependencies: Graph, ghost graph: Graph, ghost root: string)
      requires Merges(graph, canonical, episodeDependencies)
      ensures Valid() && trail == [] && order == [] && seen == {}
      ensures this.refs == refs && this.graph == graph && this.root == root
    {
      this.refs, this.canonical, this.episodeDependencies := refs, canonical, episodeDependencies;
      this.graph, this.root := graph, root;
      seen, visiting, order, trail := {}, {}, [], [];
    }

    /** Both kinds of dependencies of a path, each once, in the order the walk takes them. */
    method SortedDependencies(path: string) returns (unique: seq<string>)
      requires Merges(graph, canonical, episodeDependencies)
      ensures forall d :: d in unique <==> Edge(graph, path, d)
      ensures SortedBy(unique, (s: string) => s) && NoDup(unique)
    {
      var dependencies := Deps(canonical, path) + Deps(episodeDependencies, path);
      var sorted := Sort(dependencies, (s: string) => s);
      SameElements(sorted, dependencies);
      unique := UniqueStrings(sorted);
    }

    method Walk(path: string) returns (err: Option<PlanError>)
      requires Valid() && Reaches(graph, root, path)
      requires trail != [] ==> Edge(graph, trail[|trail| - 1], path)
      modifies this
      ensures err.Some? ==> Explains(err.value)
      ensures err.None? ==> Valid() && trail == old(trail) && visiting == old(visiting)
      ensures err.None? ==> path in seen && old(seen) <= seen
      ensures err.None? && path !in old(seen) ==> order != [] && order[|order| - 1].path == path
      decreases refs.Keys - seen - visiting, 0
    {
      if path in seen { return None; }
      if path in visiting {
        TrailClosesCycle(graph, trail, path);
        return Some(CycleAt(path));
      }
      if path !in refs { return Some(OutsideAuthority(path)); }
      EnterPath(graph, root, refs, seen, visiting, order, trail, path);
      visiting := visiting + {path};
      trail := trail + [path];
      var dependencies := SortedDependencies(path);
      assert path in refs.Keys - old(seen) - old(visiting);
      err := WalkDependencies(path, dependencies);
      if err.Some? { return; }
      LeavePath(graph, root, refs, seen, visiting, order, old(trail), path);
      visiting := visiting - {path};
      trail := old(trail);
      seen := seen + {path};
      order := order + [refs[path]];
      return None;
    }

    /** The loop of the walk: finishes every dependency of the path on top of the trail. */
    method WalkDependencies(path: string, dependencies: seq<string>) returns (err: Option<PlanError>)
      requires Valid() && trail != [] && trail[|trail| - 1] == path
      requires forall d :: d in dependencies ==> Edge(graph, path, d)
      modifies this
      ensures err.Some? ==> Explains(err.value)
      ensures err.None? ==> Valid() && trail == old(trail) && visiting == old(visiting)
      ensures err.None? ==> old(seen) <= seen && forall d :: d in dependencies ==> d in seen
      decreases refs.Keys - seen - visiting, 1
    {
      for i := 0 to |dependencies|
        invariant Valid() && trail == old(trail) && visiting == old(visiting)
        invariant old(seen) <= seen && forall j :: 0 <= j < i ==> dependencies[j] in seen
      {
        ReachesStep(graph, root, path, dependencies[i]);
        err := Walk(dependencies[i]);
        if err.Some? { return; }
      }
      return None;
    }
  }

  lemma SameElements<T>(a: seq<T>, b: seq<T>)
    requires multiset(a) == multiset(b)
    ensures |a| == |b| && forall x :: x in a <==> x in b
  {
    forall x ensures x in a <==> x in b {
      assert x in a <==> x in multiset(a);
      assert x in b <==> x in multiset(b);
    }
    assert |multiset(a)| == |a| && |multiset(b)| == |b|;
  }

  /** What an admitted (closure, order) pair means: the order is a duplicate-free topological
      order of exactly the paths reachable from the scope root, ends in the root, carries current
      references, and the closure is its sorted permutation. */
  ghost predicate Admitted(g: Graph, root: string, refs: Authority, closure: seq<TaskRef>, order: seq<TaskRef>) {
    && NoDup(Paths(order))
    && DepsFirst(g, Paths(order))
    && (forall v :: v in Paths(order) <==> Reaches(g, root, v))
    && FromAuthority(refs, order)
    && order != [] && order[|order| - 1].path == root
    && multiset(closure) == multiset(order)
    && SortedBy(closure, (r: TaskRef) => r.path)
  }

  /** When the scope root is usable and everything it reaches is a project task. */
  ghost predicate ReachesOnlyAuthority(g: Graph, root: TaskRef, refs: Authority) {
    !root.Empty() && forall v :: Reaches(g, root.path, v) ==> v in refs
  }

  lemma CombinedMerges(canonical: Graph, edges: seq<EpisodeEdge>, satisfied: seq<TaskRef>)
    ensures Merges(CombinedGraph(canonical, edges, satisfied), canonical, CombinedGraph(map[], edges, satisfied))
  {
    var g, e := CombinedGraph(canonical, edges, satisfied), CombinedGraph(map[], edges, satisfied);
    forall u, v ensures Edge(g, u, v) <==> Edge(canonical, u, v) || Edge(e, u, v) {
      CombinedGraphEdges(canonical, edges, satisfied, u, v);
      CombinedGraphEdges(map[], edges, satisfied, u, v);
    }
  }

  method BuildEpisodeClosure(root: TaskRef, refs: Authority, canonical: Graph, edges: seq<EpisodeEdge>, satisfied: seq<TaskRef>)
    returns (r: Outcome<(seq<TaskRef>, seq<TaskRef>)>)
    ensures var g := CombinedGraph(canonical, edges, satisfied);
            && (r.Success? ==> Admitted(g, root.path, refs, r.value.0, r.value.1) && ReachesOnlyAuthority(g, root, refs))
            && (r.Failure? ==> HasCycle(g) || !ReachesOnlyAuthority(g, root, refs))
            && (r.Failure? ==> RootExplained(g, root, refs, r.error))
  {
    ghost var g := CombinedGraph(canonical, edges, satisfied);
    ReachesSelf(g, root.path);
    if root.Empty() { return Failure(EmptyScopeRoot); }
    if root.path !in refs { return Failure(ScopeRootOutsideAuthority); }
    var episodeDependencies := CombineDependencies(map[], edges, satisfied);
    CombinedMerges(canonical, edges, satisfied);
    var walker := new ClosureWalker(refs, canonical, episodeDependencies, g, root.path);
    var err := walker.Walk(root.path);
    if err.Some? { return Failure(err.value); }
    var order := walker.order;
    var closure := Sort(order, (t: TaskRef) => t.path);
    forall v | Reaches(g, root.path, v) ensures v in Paths(order) && v in refs {
      OrderClosedUnderReach(g, Paths(order), root.path, v);
    }
    return Success((closure, order));
  }

  // ---------------------------------------------------------------- completed revision

  function HasEdge(edges: seq<EpisodeEdge>, candidate: EpisodeEdge): bool {
    exists i :: 0 <= i < |edges| && edges[i].blocked == candidate.blocked && edges[i].dependency == candidate.dependency
  }

  function WithEdge(edges: seq<EpisodeEdge>, candidate: EpisodeEdge): seq<EpisodeEdge> {
    if HasEdge(edges, candidate) then edges else edges + [candidate]
  }

  /** The revision's order and closure are admitted for its own edges and satisfied tasks. */
  ghost predicate Completed(rev: Revision, refs: Authority, canonical: Graph) {
    Admitted(CombinedGraph(canonical, rev.edges, rev.satisfied), rev.scopeRoot.path, refs, rev.closure, rev.order)
  }

  /** What is wrong with the scope root, once the graph is known to have no cycle. */
  ghost predicate RootExplained(g: Graph, root: TaskRef, refs: Authority, error: PlanError) {
    match error
    case EmptyScopeRoot => root == TaskRef("", "", "")
    case ScopeRootOutsideAuthority => root != TaskRef("", "", "") && root.path !in refs
    case OutsideAuthority(path) => root != TaskRef("", "", "") && root.path in refs && Reaches(g, root.path, path) && path !in refs
    case CycleAt(_) => HasCycle(g)
  }

  /** Planning succeeds exactly on acyclic graphs that stay inside the project; after the cycle
      check the walker never reports a cycle, so every later failure is about the project's tasks. */
  method CompleteBlockingRevision(revision: Revision, source: TaskRef, findingId: string, target: TaskRef, refs: Authority, dependencies: Graph)
    returns (r: Outcome<Revision>)
    ensures var edges := WithEdge(revision.edges, EpisodeEdge(source, target, findingId));
            var g := CombinedGraph(dependencies, edges, revision.satisfied);
            && (r.Success? <==> !HasCycle(g) && ReachesOnlyAuthority(g, revision.scopeRoot, refs))
            && (r.Failure? ==> (r.error.CycleAt? <==> HasCycle(g)) && RootExplained(g, revision.scopeRoot, refs, r.error))
            && (r.Success? ==>
                  && Completed(r.value, refs, dependencies)
                  && source in r.value.history
                  && r.value == revision.(edges := edges, history := AppendUnique(revision.history, source),
                                          closure := r.value.closure, order := r.value.order))
    ensures r.Success? ==> EdgeAdded(revision.edges, r.value.edges, source, findingId, target) && Remembered(revision.history, r.value.history, source)
    ensures r.Success? ==> exists e :: e in r.value.edges && e.blocked == source && e.dependency == target
    ensures r.Success? && target !in revision.satisfied && source.path in Paths(r.value.order) ==>
              exists i, k :: 0 <= i < k < |r.value.order| && r.value.order[i].path == target.path && r.value.order[k].path == source.path
  {
    var edges := WithEdge(revision.edges, EpisodeEdge(source, target, findingId));
    var cyclic := ValidateEpisodeAcyclic(dependencies, edges, revision.satisfied);
    if cyclic.Some? { return Failure(cyclic.value); }
    var built := BuildEpisodeClosure(revision.scopeRoot, refs, dependencies, edges, revision.satisfied);
    if built.Failure? { return Failure(built.error); }
    var completed := revision.(
      history := AppendUnique(revision.history, source),
      edges := edges,
      closure := built.value.0,
      order := built.value.1);
    WithEdgeAdds(revision.edges, source, findingId, target);
    if target !in revision.satisfied && source.path in Paths(completed.order) {
      TargetStandsBefore(completed, refs, dependencies, source, target);
    }
    return Success(completed);
  }

  /** What completing a revision does to its edges and history: the new edge is there, at the end unless the
      same pair of tasks already had one, and nothing else was added; the source is remembered once. */
  ghost predicate EdgeAdded(before: seq<EpisodeEdge>, after: seq<EpisodeEdge>, source: TaskRef, findingId: string, target: TaskRef) {
    if exists e :: e in before && e.blocked == source && e.dependency == target then after == before
    else after == before + [EpisodeEdge(source, target, findingId)]
  }

  lemma WithEdgeAdds(edges: seq<EpisodeEdge>, source: TaskRef, findingId: string, target: TaskRef)
    ensures EdgeAdded(edges, WithEdge(edges, EpisodeEdge(source, target, findingId)), source, findingId, target)
    ensures exists e :: e in WithEdge(edges, EpisodeEdge(source, target, findingId)) && e.blocked == source && e.dependency == target
  {
    var edge := EpisodeEdge(source, target, findingId);
    assert edge in edges + [edge];
  }

  ghost predicate Remembered(before: seq<TaskRef>, after: seq<TaskRef>, source: TaskRef) {
    after == if source in before then before else before + [source]
  }

  /** The blocker is waited for: an unsatisfied target stands before the source in the completed order. */
  lemma TargetStandsBefore(rev: Revision, refs: Authority, canonical: Graph, source: TaskRef, target: TaskRef)
    requires Completed(rev, refs, canonical) && target !in rev.satisfied && source.path in Paths(rev.order)
    requires exists e :: e in rev.edges && e.blocked == source && e.dependency == target
    ensures exists i, k :: 0 <= i < k < |rev.order| && rev.order[i].path == target.path && rev.order[k].path == source.path
  {
    var e :| e in rev.edges && e.blocked == source && e.dependency == target;
    var g := CombinedGraph(canonical, rev.edges, rev.satisfied);
    CombinedGraphEdges(canonical, rev.edges, rev.satisfied, source.path, target.path);
    assert LiveEdge(e, rev.satisfied, source.path, target.path);
    var k :| 0 <= k < |rev.order| && Paths(rev.order)[k] == source.path;
    assert Edge(g, Paths(rev.order)[k], target.path);
    assert target.path in Paths(rev.order)[..k];
    var i :| 0 <= i < k && Paths(rev.order)[i] == target.path;
    assert rev.order[i].path == target.path && rev.order[k].path == source.path;
  }
}
