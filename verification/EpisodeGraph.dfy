/** Dependency graphs over task paths: the vocabulary in which the blocker-episode
    planner of the controller is specified.  A graph is a Go map from a path to the
    list of paths it depends on; a path that is not a key depends on nothing. */
module EpisodeGraph {

  type Graph = map<string, seq<string>>

  function Deps(g: Graph, v: string): seq<string> {
    if v in g then g[v] else []
  }

  predicate Edge(g: Graph, u: string, v: string) {
    v in Deps(g, u)
  }

  /** Every path a traversal of the graph can touch from one of its keys. */
  function Universe(g: Graph): set<string> {
    g.Keys + set u, v | u in g.Keys && v in g[u] :: v
  }

  predicate NoDup<T(==)>(s: seq<T>) {
    forall i, j :: 0 <= i < j < |s| ==> s[i] != s[j]
  }

  /** Consecutive elements are joined by an edge. */
  ghost predicate IsPath(g: Graph, p: seq<string>) {
    p != [] && forall i :: 0 <= i < |p| - 1 ==> Edge(g, p[i], p[i + 1])
  }

  ghost predicate Cycle(g: Graph, p: seq<string>) {
    IsPath(g, p) && |p| >= 2 && p[0] == p[|p| - 1]
  }

  ghost predicate HasCycle(g: Graph) {
    exists p :: Cycle(g, p)
  }

  ghost predicate PathBetween(g: Graph, p: seq<string>, u: string, v: string) {
    IsPath(g, p) && p[0] == u && p[|p| - 1] == v
  }

  ghost predicate Reaches(g: Graph, u: string, v: string) {
    exists p :: PathBetween(g, p, u, v)
  }

  /** Every dependency of an element stands before it. */
  ghost predicate DepsFirst(g: Graph, order: seq<string>) {
    forall i, d :: 0 <= i < |order| && Edge(g, order[i], d) ==> d in order[..i]
  }

  lemma ReachesSelf(g: Graph, u: string)
    ensures Reaches(g, u, u)
  {
    assert PathBetween(g, [u], u, u);
  }

  lemma ReachesStep(g: Graph, u: string, v: string, w: string)
    requires Reaches(g, u, v) && Edge(g, v, w)
    ensures Reaches(g, u, w)
  {
    var p :| PathBetween(g, p, u, v);
    assert PathBetween(g, p + [w], u, w);
  }

  /** Following edges inside a dependencies-first order only ever moves left. */
  lemma {:induction false} PathMovesLeft(g: Graph, order: seq<string>, p: seq<string>, i: nat)
    requires DepsFirst(g, order) && IsPath(g, p) && i < |order| && order[i] == p[0]
    ensures exists j :: 0 <= j <= i && order[j] == p[|p| - 1] && (|p| >= 2 ==> j < i)
    decreases |p|
  {
    if |p| >= 2 {
      assert Edge(g, p[0], p[1]);
      assert p[1] in order[..i];
      var k :| 0 <= k < i && order[k] == p[1];
      assert forall n :: 0 <= n < |p[1..]| - 1 ==> Edge(g, p[1..][n], p[1..][n + 1]) by {
        forall n | 0 <= n < |p[1..]| - 1 ensures Edge(g, p[1..][n], p[1..][n + 1]) {
          assert Edge(g, p[n + 1], p[n + 2]);
        }
      }
      PathMovesLeft(g, order, p[1..], k);
    }
  }

  /** A dependencies-first order that mentions every path with dependencies rules cycles out. */
  lemma OrderedGraphHasNoCycle(g: Graph, order: seq<string>)
    requires DepsFirst(g, order) && NoDup(order)
    requires forall v :: v in g ==> v in order
    ensures !HasCycle(g)
  {
    forall p | Cycle(g, p) ensures false {
      assert Edge(g, p[0], p[1]);
      var i :| 0 <= i < |order| && order[i] == p[0];
      PathMovesLeft(g, order, p, i);
    }
  }

  /** A dependencies-first order containing u contains everything reachable from u. */
  lemma OrderClosedUnderReach(g: Graph, order: seq<string>, u: string, v: string)
    requires DepsFirst(g, order) && u in order && Reaches(g, u, v)
    ensures v in order
  {
    var p :| PathBetween(g, p, u, v);
    var i :| 0 <= i < |order| && order[i] == u;
    PathMovesLeft(g, order, p, i);
  }

  /** Re-entering the current depth-first trail closes a cycle. */
  lemma TrailClosesCycle(g: Graph, trail: seq<string>, v: string)
    requires IsPath(g, trail) && v in trail && Edge(g, trail[|trail| - 1], v)
    ensures HasCycle(g)
  {
    var i :| 0 <= i < |trail| && trail[i] == v;
    var p := trail[i..] + [v];
    forall n | 0 <= n < |p| - 1 ensures Edge(g, p[n], p[n + 1]) {
      if n < |p| - 2 {
        assert Edge(g, trail[i + n], trail[i + n + 1]);
      }
    }
    assert Cycle(g, p);
  }

  lemma ExtendTrail(g: Graph, trail: seq<string>, v: string)
    requires trail != [] ==> IsPath(g, trail) && Edge(g, trail[|trail| - 1], v)
    ensures IsPath(g, trail + [v])
  {
  }
}
