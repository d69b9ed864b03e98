/** Dependency-depth layouts: the memoised one of the office view
    (apps/web-ui/src/office/selectors.ts, layoutDeps) and the plain recursive one
    of the graph view (apps/web-ui/src/graph/build.ts, layoutGraph). */
module Layout {
  import opened Wrappers
  import opened TaskGraph

  // ------------------------------------------------------------ plain recursion

  ghost function Unvisited(g: Graph, trail: seq<TaskId>): set<TaskId> {
    g.Keys - set x | x in trail
  }

  lemma UnvisitedShrinks(g: Graph, trail: seq<TaskId>, id: TaskId)
    requires id in g.Keys && id !in trail
    ensures Unvisited(g, trail + [id]) < Unvisited(g, trail)
  {
    assert id in Unvisited(g, trail) && id !in Unvisited(g, trail + [id]);
  }

  /** `depthOf`: one more than the deepest dependency; an id already on the trail
      resolves to its place on it, so cyclic input ends too. */
  function DepthOf(g: Graph, id: TaskId, trail: seq<TaskId>): nat
    decreases Unvisited(g, trail), 0
  {
    if id in trail then IndexOf(trail, id)
    else if Deps(g, id) == [] then 0
    else
      UnvisitedShrinks(g, trail, id);
      1 + DeepestOf(g, Deps(g, id), trail + [id])
  }

  /** `Math.max` over the depths of a non-empty list. */
  function DeepestOf(g: Graph, ids: seq<TaskId>, trail: seq<TaskId>): nat
    requires ids != []
    decreases Unvisited(g, trail), |ids|
  {
    var first := DepthOf(g, ids[0], trail);
    if |ids| == 1 then first else Max(first, DeepestOf(g, ids[1..], trail))
  }

  function Max(a: nat, b: nat): nat {
    if a > b then a else b
  }

  // --------------------------------------------------------- longest chains

  ghost predicate ChainFrom(g: Graph, p: seq<TaskId>, id: TaskId) {
    IsPath(g, p) && p[0] == id
  }

  ghost predicate HasChain(g: Graph, id: TaskId, n: nat) {
    exists p :: ChainFrom(g, p, id) && |p| == n + 1
  }

  ghost predicate ChainsBounded(g: Graph, id: TaskId, n: nat) {
    forall p :: ChainFrom(g, p, id) ==> |p| <= n + 1
  }

  /** The longest dependency chain from `id` has exactly `n` edges. */
  ghost predicate LongestChain(g: Graph, id: TaskId, n: nat) {
    HasChain(g, id, n) && ChainsBounded(g, id, n)
  }

  lemma LongestChainUnique(g: Graph, id: TaskId, m: nat, n: nat)
    requires LongestChain(g, id, m) && LongestChain(g, id, n)
    ensures m == n
  {
  }

  ghost predicate DeepestChain(g: Graph, ids: seq<TaskId>, n: nat) {
    && (exists d :: d in ids && HasChain(g, d, n))
    && (forall d :: d in ids ==> ChainsBounded(g, d, n))
  }

  lemma ChainsBoundedWider(g: Graph, id: TaskId, m: nat, n: nat)
    requires ChainsBounded(g, id, m) && m <= n
    ensures ChainsBounded(g, id, n)
  {
  }

  lemma ChainStep(g: Graph, id: TaskId, n: nat)
    requires Deps(g, id) != [] && DeepestChain(g, Deps(g, id), n)
    ensures LongestChain(g, id, n + 1)
  {
    var d :| d in Deps(g, id) && HasChain(g, d, n);
    var q :| ChainFrom(g, q, d) && |q| == n + 1;
    assert Edge(g, id, d);
    JoinPaths(g, [id, d], q);
    assert ChainFrom(g, [id, d] + q[1..], id);
    forall p | ChainFrom(g, p, id) ensures |p| <= n + 2 {
      if |p| > 1 {
        assert Edge(g, p[0], p[1]);
        SubPath(g, p, 1, |p|);
        assert ChainFrom(g, p[1..|p|], p[1]);
        assert ChainsBounded(g, p[1], n);
      }
    }
  }

  lemma NoDepsNoChain(g: Graph, id: TaskId)
    requires Deps(g, id) == []
    ensures LongestChain(g, id, 0)
  {
    assert ChainFrom(g, [id], id);
    forall p | ChainFrom(g, p, id) ensures |p| <= 1 {
      assert |p| > 1 ==> Edge(g, p[0], p[1]);
    }
  }

  /** `trail` is a dependency path that leads to `id`. */
  ghost predicate LeadsTo(g: Graph, trail: seq<TaskId>, id: TaskId) {
    IsPath(g, trail + [id])
  }

  lemma AcyclicTrailMisses(g: Graph, trail: seq<TaskId>, id: TaskId)
    requires Acyclic(g) && LeadsTo(g, trail, id)
    ensures id !in trail
  {
    if i :| 0 <= i < |trail| && trail[i] == id {
      var p := trail + [id];
      SubPath(g, p, i, |p|);
      assert IsCycle(g, p[i..|p|]);
    }
  }

  lemma ExtendTrail(g: Graph, trail: seq<TaskId>, id: TaskId, d: TaskId)
    requires LeadsTo(g, trail, id) && d in Deps(g, id)
    ensures LeadsTo(g, trail + [id], d)
  {
  }

  /** On an acyclic graph the recursive depth is the longest dependency chain. */
  lemma {:induction false} DepthIsLongestChain(g: Graph, id: TaskId, trail: seq<TaskId>)
    requires Acyclic(g) && LeadsTo(g, trail, id)
    ensures LongestChain(g, id, DepthOf(g, id, trail))
    decreases Unvisited(g, trail), 0
  {
    AcyclicTrailMisses(g, trail, id);
    if Deps(g, id) == [] {
      NoDepsNoChain(g, id);
    } else {
      UnvisitedShrinks(g, trail, id);
      DeepestIsLongestChain(g, id, Deps(g, id), trail + [id], trail);
      ChainStep(g, id, DeepestOf(g, Deps(g, id), trail + [id]));
    }
  }

  lemma {:induction false} DeepestIsLongestChain(g: Graph, id: TaskId, ids: seq<TaskId>, trail: seq<TaskId>, before: seq<TaskId>)
    requires Acyclic(g) && trail == before + [id] && LeadsTo(g, before, id)
    requires ids != [] && forall d | d in ids :: d in Deps(g, id)
    ensures DeepestChain(g, ids, DeepestOf(g, ids, trail))
    decreases Unvisited(g, trail), |ids|
  {
    ExtendTrail(g, before, id, ids[0]);
    DepthIsLongestChain(g, ids[0], trail);
    var first := DepthOf(g, ids[0], trail);
    if |ids| > 1 {
      DeepestIsLongestChain(g, id, ids[1..], trail, before);
      var rest := DeepestOf(g, ids[1..], trail);
      forall d | d in ids ensures ChainsBounded(g, d, Max(first, rest)) {
        if d in ids[1..] {
          ChainsBoundedWider(g, d, rest, Max(first, rest));
        } else {
          ChainsBoundedWider(g, d, first, Max(first, rest));
        }
      }
      if first < rest {
        var d :| d in ids[1..] && HasChain(g, d, rest);
        assert d in ids;
      }
    }
  }

  /** Depth seen from the top: the trail does not matter on an acyclic graph. */
  lemma DepthIgnoresTrail(g: Graph, id: TaskId, trail: seq<TaskId>)
    requires Acyclic(g) && LeadsTo(g, trail, id)
    ensures DepthOf(g, id, trail) == DepthOf(g, id, [])
  {
    assert LeadsTo(g, [], id);
    DepthIsLongestChain(g, id, trail);
    DepthIsLongestChain(g, id, []);
    LongestChainUnique(g, id, DepthOf(g, id, trail), DepthOf(g, id, []));
  }

  /** Every dependency lies in a strictly lower layer. */
  lemma DependencyIsLower(g: Graph, id: TaskId, dep: TaskId)
    requires Acyclic(g) && Edge(g, id, dep)
    ensures DepthOf(g, dep, []) < DepthOf(g, id, [])
  {
    assert LeadsTo(g, [], id) && LeadsTo(g, [], dep);
    DepthIsLongestChain(g, id, []);
    DepthIsLongestChain(g, dep, []);
    var q :| ChainFrom(g, q, dep) && |q| == DepthOf(g, dep, []) + 1;
    JoinPaths(g, [id, dep], q);
    assert ChainFrom(g, [id, dep] + q[1..], id);
  }

  function After(q: seq<TaskId>, j: nat, i: nat): TaskId
    requires i < |q| && j < |q|
  {
    if i + 1 < |q| then q[i + 1] else q[j]
  }

  /** A dependency chain without branches that runs back into itself at place `j`. */
  ghost predicate SingleLasso(g: Graph, q: seq<TaskId>, j: nat) {
    && j < |q| && NoDuplicates(q)
    && forall i | 0 <= i < |q| :: Deps(g, q[i]) == [After(q, j, i)]
  }

  lemma DepthInTrail(g: Graph, id: TaskId, trail: seq<TaskId>)
    requires id in trail
    ensures DepthOf(g, id, trail) == IndexOf(trail, id)
  {
  }

  lemma DepthOfOne(g: Graph, id: TaskId, next: TaskId, trail: seq<TaskId>)
    requires id !in trail && Deps(g, id) == [next]
    ensures DepthOf(g, id, trail) == 1 + DepthOf(g, next, trail + [id])
  {
    assert [next][0] == next && |[next]| == 1;
  }

  /** On cyclic input the repeated id counts with its place on the way to it. */
  lemma {:induction false} LassoDepth(g: Graph, q: seq<TaskId>, j: nat, k: nat)
    requires SingleLasso(g, q, j) && k < |q|
    ensures DepthOf(g, q[k], q[..k]) == |q| - k + j
    decreases |q| - k
  {
    hide DepthOf, Deps;
    assert q[..k] + [q[k]] == q[..k + 1] && q[k] !in q[..k];
    DepthOfOne(g, q[k], After(q, j, k), q[..k]);
    if k + 1 < |q| {
      LassoDepth(g, q, j, k + 1);
    } else {
      assert q[..k + 1] == q && IndexOf(q, q[j]) == j;
      DepthInTrail(g, q[j], q);
    }
  }

  // ------------------------------------------------------------- memoised visit

  /** `layoutDeps`' `visit` and the `depth` map it fills. */
  class DepthMemo {
    const g: Graph
    var depth: map<TaskId, nat>

    constructor (g: Graph)
      ensures this.g == g && depth == map[]
    {
      this.g := g;
      depth := map[];
    }

    /** Every memoised level is the plain recursive depth. */
    ghost predicate Exact()
      reads this
    {
      forall x | x in depth :: depth[x] == DepthOf(g, x, [])
    }

    method Visit(id: TaskId, trail: seq<TaskId>) returns (level: nat)
      modifies this
      ensures old(depth).Keys <= depth.Keys
      ensures id in depth || id in trail || id !in g
      ensures old(Exact()) && Acyclic(g) && LeadsTo(g, trail, id) ==>
                Exact() && level == DepthOf(g, id, [])
      decreases Unvisited(g, trail), 0
    {
      if id in depth {
        return depth[id];
      }
      if id in trail {
        if Acyclic(g) && LeadsTo(g, trail, id) {
          AcyclicTrailMisses(g, trail, id);
        }
        return IndexOf(trail, id);
      }
      if id !in g {
        return 0;
      }
      UnvisitedShrinks(g, trail, id);
      assert [] + [id] == [id];
      if g[id] == [] {
        level := 0;
      } else {
        var deepest := VisitAll(id, g[id], trail);
        level := 1 + deepest;
      }
      depth := depth[id := level];
    }

    /** The inner `Math.max(...inner.map(visit))`, left to right. */
    method VisitAll(id: TaskId, ids: seq<TaskId>, trail: seq<TaskId>) returns (deepest: nat)
      requires ids != [] && id in g && id !in trail
      requires forall d | d in ids :: d in g[id]
      modifies this
      ensures old(depth).Keys <= depth.Keys
      ensures old(Exact()) && Acyclic(g) && LeadsTo(g, trail, id) ==>
                Exact() && deepest == DeepestOf(g, ids, [id])
      decreases Unvisited(g, trail + [id]), |ids|
    {
      ghost var good := Exact() && Acyclic(g) && LeadsTo(g, trail, id);
      if good {
        ExtendTrail(g, trail, id, ids[0]);
        ExtendTrail(g, [], id, ids[0]) by { assert LeadsTo(g, [], id); }
        assert [] + [id] == [id];
        DepthIgnoresTrail(g, ids[0], [id]);
      }
      deepest := Visit(ids[0], trail + [id]);
      if |ids| > 1 {
        var rest := VisitAll(id, ids[1..], trail);
        deepest := Max(deepest, rest);
      }
    }
  }
}
