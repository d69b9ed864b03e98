/** The bounded neighborhood of the causality graph (apps/web-ui/src/graph/build.ts). */
module Neighborhood {
  import opened Wrappers

  datatype Edge = Edge(source: nat, target: nat, authority: nat)

  const MAX_INVESTIGATION_NODES := 100
  const MAX_INVESTIGATION_DEPTH := 3

  function Elems<T>(s: seq<T>): set<T> {
    set x | x in s
  }

  predicate Adjacent(edges: seq<Edge>, a: nat, b: nat) {
    exists e :: e in edges && ((e.source == a && e.target == b) || (e.target == a && e.source == b))
  }

  function Adj(edges: seq<Edge>, a: nat): set<nat> {
    (set e | e in edges && e.source == a :: e.target) + (set e | e in edges && e.target == a :: e.source)
  }

  lemma AdjIsAdjacent(edges: seq<Edge>, a: nat, b: nat)
    ensures b in Adj(edges, a) <==> Adjacent(edges, a, b)
  {
  }

  function Around(edges: seq<Edge>, s: set<nat>): set<nat> {
    set a, b | a in s && b in Adj(edges, a) :: b
  }

  /** The ids within `d` undirected hops of the root. */
  function Ball(edges: seq<Edge>, root: nat, d: nat): set<nat> {
    if d == 0 then {root} else Ball(edges, root, d - 1) + Around(edges, Ball(edges, root, d - 1))
  }

  /** A walk along edges, in either direction. */
  ghost predicate Walk(edges: seq<Edge>, p: seq<nat>) {
    |p| > 0 && forall i | 0 < i < |p| :: Adjacent(edges, p[i - 1], p[i])
  }

  ghost predicate WalkTo(edges: seq<Edge>, root: nat, d: nat, x: nat, p: seq<nat>) {
    Walk(edges, p) && p[0] == root && p[|p| - 1] == x && |p| <= d + 1
  }

  lemma {:induction false} WalkStaysInBall(edges: seq<Edge>, root: nat, d: nat, x: nat, p: seq<nat>)
    requires WalkTo(edges, root, d, x, p)
    ensures x in Ball(edges, root, d)
    decreases d
  {
    var n := |p| - 1;
    if n == 0 {
      BallGrows(edges, root, 0, d);
    } else {
      assert Adjacent(edges, p[n - 1], p[n]);
      AdjIsAdjacent(edges, p[n - 1], x);
      WalkStaysInBall(edges, root, d - 1, p[n - 1], p[..n]);
    }
  }

  lemma {:induction false} BallIsWalkedTo(edges: seq<Edge>, root: nat, d: nat, x: nat) returns (p: seq<nat>)
    requires x in Ball(edges, root, d)
    ensures WalkTo(edges, root, d, x, p)
  {
    if d == 0 {
      p := [root];
    } else if x in Ball(edges, root, d - 1) {
      p := BallIsWalkedTo(edges, root, d - 1, x);
    } else {
      var a :| a in Ball(edges, root, d - 1) && x in Adj(edges, a);
      AdjIsAdjacent(edges, a, x);
      var q := BallIsWalkedTo(edges, root, d - 1, a);
      p := q + [x];
      forall i | 0 < i < |p| ensures Adjacent(edges, p[i - 1], p[i]) {
        assert i < |q| ==> Adjacent(edges, q[i - 1], q[i]);
      }
    }
  }

  /** The ball is what walks of at most `d` steps reach. */
  lemma BallIsDistance(edges: seq<Edge>, root: nat, d: nat, x: nat)
    ensures x in Ball(edges, root, d) <==> exists p :: WalkTo(edges, root, d, x, p)
  {
    if x in Ball(edges, root, d) {
      var p := BallIsWalkedTo(edges, root, d, x);
    }
    if p :| WalkTo(edges, root, d, x, p) {
      WalkStaysInBall(edges, root, d, x, p);
    }
  }

  lemma {:induction false} BallGrows(edges: seq<Edge>, root: nat, d: nat, e: nat)
    requires d <= e
    ensures Ball(edges, root, d) <= Ball(edges, root, e)
    decreases e
  {
    if d < e {
      BallGrows(edges, root, d, e - 1);
    }
  }

  /** A ball with nothing around it never grows again. */
  lemma {:induction false} ClosedBall(edges: seq<Edge>, root: nat, d: nat, e: nat)
    requires d <= e && Around(edges, Ball(edges, root, d)) <= Ball(edges, root, d)
    ensures Ball(edges, root, e) == Ball(edges, root, d)
    decreases e
  {
    hide Around;
    if d < e {
      ClosedBall(edges, root, d, e - 1);
    }
  }

  /** `neighborsOf`. */
  method NeighborsOf(id: nat, edges: seq<Edge>) returns (out: seq<nat>)
    ensures Elems(out) == Adj(edges, id) && NoDuplicates(out)
  {
    out := [];
    for i := 0 to |edges|
      invariant Elems(out) == Adj(edges[..i], id) && NoDuplicates(out)
    {
      var e := edges[i];
      AdjSnoc(edges[..i], e, id);
      assert edges[..i + 1] == edges[..i] + [e];
      if e.source == id && e.target !in out {
        out := out + [e.target];
      }
      if e.target == id && e.source !in out {
        out := out + [e.source];
      }
    }
    assert edges[..|edges|] == edges;
  }

  lemma AdjSnoc(edges: seq<Edge>, e: Edge, id: nat)
    ensures Adj(edges + [e], id) == Adj(edges, id) + (if e.source == id then {e.target} else {})
                                    + (if e.target == id then {e.source} else {})
  {
  }

  // ------------------------------------------------------------- the search

  /** How many neighbours of these ids are not shown, counted for each of the ids by itself. */
  function Missing(edges: seq<Edge>, ids: seq<nat>, shown: set<nat>): nat {
    if ids == [] then 0
    else Missing(edges, ids[..|ids| - 1], shown) + |Adj(edges, ids[|ids| - 1]) - shown|
  }

  lemma {:induction false} NoneMissing(edges: seq<Edge>, ids: seq<nat>, shown: set<nat>, more: set<nat>)
    requires Missing(edges, ids, shown) == 0 && shown <= more
    ensures Missing(edges, ids, more) == 0
  {
    hide Adj;
    if ids != [] {
      NoneMissing(edges, ids[..|ids| - 1], shown, more);
      var adj := Adj(edges, ids[|ids| - 1]);
      assert adj - shown == {} && adj - more == {};
    }
  }

  lemma {:induction false} MissingAppend(edges: seq<Edge>, a: seq<nat>, b: seq<nat>, shown: set<nat>)
    ensures Missing(edges, a + b, shown) == Missing(edges, a, shown) + Missing(edges, b, shown)
  {
    hide Adj;
    if b == [] {
      assert a + b == a;
    } else {
      MissingAppend(edges, a, b[..|b| - 1], shown);
      assert (a + b)[..|a + b| - 1] == a + b[..|b| - 1];
    }
  }

  /** One stretch of the search, over the ids in `pool`: what it visits is new and queued for the
      next hop; either all of the pool is visited, or the cap is full and something was turned away. */
  ghost predicate Grown(visited: seq<nat>, next: seq<nat>, truncated: nat,
                        visited2: seq<nat>, next2: seq<nat>, truncated2: nat, pool: set<nat>) {
    && visited <= visited2 && next2 == next + visited2[|visited|..]
    && NoDuplicates(visited2) && |visited2| <= MAX_INVESTIGATION_NODES
    && Elems(visited2) <= Elems(visited) + pool
    && truncated <= truncated2
    && (if truncated2 == truncated then pool <= Elems(visited2)
        else |visited2| == MAX_INVESTIGATION_NODES && !(pool <= Elems(visited2)))
  }

  lemma GrownTwice(v: seq<nat>, n: seq<nat>, t: nat, v1: seq<nat>, n1: seq<nat>, t1: nat,
                   v2: seq<nat>, n2: seq<nat>, t2: nat, p1: set<nat>, p2: set<nat>)
    requires Grown(v, n, t, v1, n1, t1, p1) && Grown(v1, n1, t1, v2, n2, t2, p2)
    ensures Grown(v, n, t, v2, n2, t2, p1 + p2)
  {
  }

  method ExpandNode(adj: seq<nat>, visited: seq<nat>, next: seq<nat>, truncated: nat)
      returns (visited2: seq<nat>, next2: seq<nat>, truncated2: nat)
    requires NoDuplicates(visited) && |visited| <= MAX_INVESTIGATION_NODES && NoDuplicates(adj)
    ensures NoDuplicates(visited2) && |visited2| <= MAX_INVESTIGATION_NODES
    ensures Grown(visited, next, truncated, visited2, next2, truncated2, Elems(adj))
    ensures truncated2 == truncated + |Elems(adj) - Elems(visited2)|
  {
    hide Grown, Elems;
    visited2, next2, truncated2 := visited, next, truncated;
    NothingGrown(visited, next, truncated);
    for i := 0 to |adj|
      invariant NoDuplicates(visited2) && |visited2| <= MAX_INVESTIGATION_NODES
      invariant Grown(visited, next, truncated, visited2, next2, truncated2, Elems(adj[..i]))
      invariant truncated2 == truncated + |Elems(adj[..i]) - Elems(visited2)|
    {
      ghost var v, n, t := visited2, next2, truncated2;
      if adj[i] !in visited2 {
        if |visited2| >= MAX_INVESTIGATION_NODES {
          truncated2 := truncated2 + 1;
        } else {
          visited2 := visited2 + [adj[i]];
          next2 := next2 + [adj[i]];
        }
      }
      GrownByOne(v, n, t, adj[i]);
      GrownTwice(visited, next, truncated, v, n, t, visited2, next2, truncated2, Elems(adj[..i]), {adj[i]});
      assert adj[..i + 1] == adj[..i] + [adj[i]];
      ElemsSnoc(adj[..i], adj[i]);
      OneMoreMissing(adj, i, v, visited2);
    }
    assert adj[..|adj|] == adj;
  }

  lemma NothingGrown(v: seq<nat>, n: seq<nat>, t: nat)
    requires NoDuplicates(v) && |v| <= MAX_INVESTIGATION_NODES
    ensures Grown(v, n, t, v, n, t, Elems([])) && Elems<nat>([]) == {}
  {
  }

  lemma GrownByOne(v: seq<nat>, n: seq<nat>, t: nat, x: nat)
    requires NoDuplicates(v) && |v| <= MAX_INVESTIGATION_NODES
    ensures if x in v then Grown(v, n, t, v, n, t, {x})
            else if |v| >= MAX_INVESTIGATION_NODES then Grown(v, n, t, v, n, t + 1, {x})
            else Grown(v, n, t, v + [x], n + [x], t, {x}) && NoDuplicates(v + [x])
  {
  }

  lemma OneMoreMissing(adj: seq<nat>, i: nat, v: seq<nat>, v2: seq<nat>)
    requires i < |adj| && NoDuplicates(adj) && (v2 == v || (v2 == v + [adj[i]] && adj[i] !in v))
    ensures var before, after := Elems(adj[..i]) - Elems(v), Elems(adj[..i + 1]) - Elems(v2);
            |after| == |before| + if adj[i] in v2 then 0 else 1
  {
    var before, after := Elems(adj[..i]) - Elems(v), Elems(adj[..i + 1]) - Elems(v2);
    assert adj[i] !in adj[..i];
    if adj[i] in v2 {
      assert after == before;
    } else {
      assert after == before + {adj[i]};
    }
  }

  lemma GrownExtends(v: seq<nat>, n: seq<nat>, t: nat, v2: seq<nat>, n2: seq<nat>, t2: nat, pool: set<nat>)
    requires Grown(v, n, t, v2, n2, t2, pool)
    ensures v <= v2 && |v2| <= MAX_INVESTIGATION_NODES && n2 == n + v2[|v|..]
  {
  }

  lemma GrownByNone(edges: seq<Edge>, v: seq<nat>, t: nat)
    requires NoDuplicates(v) && |v| <= MAX_INVESTIGATION_NODES
    ensures Grown(v, [], t, v, [], t, Around(edges, Elems([])))
  {
  }

  method ExpandHop(edges: seq<Edge>, frontier: seq<nat>, visited: seq<nat>, truncated: nat)
      returns (visited2: seq<nat>, next: seq<nat>, truncated2: nat)
    requires NoDuplicates(visited) && |visited| <= MAX_INVESTIGATION_NODES
    ensures Grown(visited, [], truncated, visited2, next, truncated2, Around(edges, Elems(frontier)))
    ensures truncated2 == truncated + Missing(edges, frontier, Elems(visited2))
  {
    hide Grown, Around, Elems, Adj;
    visited2, next, truncated2 := visited, [], truncated;
    GrownByNone(edges, visited, truncated);
    for i := 0 to |frontier|
      invariant NoDuplicates(visited2) && |visited2| <= MAX_INVESTIGATION_NODES
      invariant Grown(visited, [], truncated, visited2, next, truncated2, Around(edges, Elems(frontier[..i])))
      invariant truncated2 == truncated + Missing(edges, frontier[..i], Elems(visited2))
    {
      ghost var v, n, t := visited2, next, truncated2;
      var adj := NeighborsOf(frontier[i], edges);
      visited2, next, truncated2 := ExpandNode(adj, visited2, next, truncated2);
      GrownExtends(v, n, t, visited2, next, truncated2, Elems(adj));
      GrownTwice(visited, [], truncated, v, n, t, visited2, next, truncated2,
                 Around(edges, Elems(frontier[..i])), Adj(edges, frontier[i]));
      MissingStays(edges, frontier[..i], visited, [], truncated, v, n, t, visited2, Around(edges, Elems(frontier[..i])));
      AroundSnoc(edges, frontier[..i], frontier[i]);
      assert frontier[..i + 1] == frontier[..i] + [frontier[i]];
    }
    assert frontier[..|frontier|] == frontier;
  }

  /** What was turned away so far is turned away for good: the cap is full then. */
  lemma MissingStays(edges: seq<Edge>, ids: seq<nat>, v0: seq<nat>, n0: seq<nat>, t0: nat, v: seq<nat>, n: seq<nat>, t: nat,
                     v2: seq<nat>, pool: set<nat>)
    requires Grown(v0, n0, t0, v, n, t, pool) && t == t0 + Missing(edges, ids, Elems(v))
    requires v <= v2 && |v2| <= MAX_INVESTIGATION_NODES
    ensures Missing(edges, ids, Elems(v2)) == Missing(edges, ids, Elems(v))
  {
    if t == t0 {
      NoneMissing(edges, ids, Elems(v), Elems(v2));
    } else {
      assert v2 == v;
    }
  }

  lemma AroundSnoc(edges: seq<Edge>, ids: seq<nat>, id: nat)
    ensures Around(edges, Elems(ids + [id])) == Around(edges, Elems(ids)) + Adj(edges, id)
  {
  }

  /** Where the search stands after hop `h`: exact, or full with something left outside. */
  ghost predicate Searched(edges: seq<Edge>, root: nat, h: nat, visited: seq<nat>, frontier: seq<nat>, truncated: nat) {
    && NoDuplicates(visited) && |visited| <= MAX_INVESTIGATION_NODES && |visited| > 0 && visited[0] == root
    && Elems(visited) <= Ball(edges, root, h) && Elems(frontier) <= Elems(visited)
    && (if truncated == 0
        then Elems(visited) == Ball(edges, root, h)
             && Around(edges, Elems(visited)) <= Elems(visited) + Around(edges, Elems(frontier))
        else |visited| == MAX_INVESTIGATION_NODES && !(Ball(edges, root, h) <= Elems(visited)) && NearestFirst(edges, root, visited))
  }

  /** No id is shown while a nearer one is turned away. */
  ghost predicate NearestFirst(edges: seq<Edge>, root: nat, visited: seq<nat>) {
    exists k: nat :: Between(edges, root, k, visited)
  }

  ghost predicate Between(edges: seq<Edge>, root: nat, k: nat, visited: seq<nat>) {
    Ball(edges, root, k) <= Elems(visited) <= Ball(edges, root, k + 1)
  }

  /** The ids expanded so far are the first `done`, those nearer than `h`; what was turned away are
      their neighbours that are not shown. */
  ghost predicate Expanded(edges: seq<Edge>, root: nat, h: nat, visited: seq<nat>, frontier: seq<nat>, truncated: nat, done: nat) {
    && done + |frontier| == |visited| && frontier == visited[done..]
    && truncated == Missing(edges, visited[..done], Elems(visited))
    && NearerFirst(edges, root, h, visited, done)
  }

  /** Less than `d` hops from the root. */
  predicate Nearer(edges: seq<Edge>, root: nat, d: nat, id: nat) {
    d > 0 && id in Ball(edges, root, d - 1)
  }

  ghost predicate NearerFirst(edges: seq<Edge>, root: nat, d: nat, visited: seq<nat>, done: nat) {
    done <= |visited| && forall i | 0 <= i < |visited| :: i < done <==> Nearer(edges, root, d, visited[i])
  }

  /** How many neighbours of the first `n` ids shown, of those nearer than `d`, are not shown. */
  function TurnedAway(edges: seq<Edge>, root: nat, d: nat, visited: seq<nat>, n: nat): nat
    requires n <= |visited|
  {
    if n == 0 then 0
    else
      var id := visited[n - 1];
      TurnedAway(edges, root, d, visited, n - 1)
      + if Nearer(edges, root, d, id) then |Adj(edges, id) - Elems(visited)| else 0
  }

  lemma {:induction false} TurnedAwayIs(edges: seq<Edge>, root: nat, d: nat, visited: seq<nat>, done: nat, n: nat)
    requires n <= |visited| && NearerFirst(edges, root, d, visited, done)
    ensures TurnedAway(edges, root, d, visited, n) == Missing(edges, visited[..if n < done then n else done], Elems(visited))
    decreases n
  {
    hide Adj, Elems, Nearer;
    if n > 0 {
      TurnedAwayIs(edges, root, d, visited, done, n - 1);
      if n <= done {
        assert visited[..n][..n - 1] == visited[..n - 1];
      }
    }
  }

  lemma SearchStarts(edges: seq<Edge>, root: nat)
    ensures Searched(edges, root, 0, [root], [root], 0) && Expanded(edges, root, 0, [root], [root], 0, 0)
  {
  }

  lemma HopSearches(edges: seq<Edge>, root: nat, h: nat, visited: seq<nat>, frontier: seq<nat>, truncated: nat,
                    visited2: seq<nat>, next: seq<nat>, truncated2: nat)
    requires Searched(edges, root, h, visited, frontier, truncated)
    requires Grown(visited, [], truncated, visited2, next, truncated2, Around(edges, Elems(frontier)))
    ensures Searched(edges, root, h + 1, visited2, next, truncated2)
  {
    if truncated == 0 {
      assert Between(edges, root, h, visited2);
    } else {
      assert visited2 == visited;
    }
  }

  lemma HopExpands(edges: seq<Edge>, root: nat, h: nat, visited: seq<nat>, frontier: seq<nat>, truncated: nat, done: nat,
                   visited2: seq<nat>, next: seq<nat>, truncated2: nat)
    requires Searched(edges, root, h, visited, frontier, truncated)
    requires Grown(visited, [], truncated, visited2, next, truncated2, Around(edges, Elems(frontier)))
    requires Expanded(edges, root, h, visited, frontier, truncated, done)
    requires truncated2 == truncated + Missing(edges, frontier, Elems(visited2))
    ensures Expanded(edges, root, h + 1, visited2, next, truncated2, |visited|)
  {
    hide Around, Adj, Ball, Grown, Elems, Missing, Searched, NearerFirst;
    StillMissing(edges, root, h, visited, frontier, truncated, done, visited2, next, truncated2);
    MissingAppend(edges, visited[..done], frontier, Elems(visited2));
    GrownExtends(visited, [], truncated, visited2, next, truncated2, Around(edges, Elems(frontier)));
    assert visited2[..|visited|] == visited == visited[..done] + frontier;
    NearerAreFirst(edges, root, h, visited, frontier, truncated, visited2, next, truncated2);
  }

  lemma StillMissing(edges: seq<Edge>, root: nat, h: nat, visited: seq<nat>, frontier: seq<nat>, truncated: nat, done: nat,
                     visited2: seq<nat>, next: seq<nat>, truncated2: nat)
    requires Searched(edges, root, h, visited, frontier, truncated)
    requires Grown(visited, [], truncated, visited2, next, truncated2, Around(edges, Elems(frontier)))
    requires Expanded(edges, root, h, visited, frontier, truncated, done)
    ensures Missing(edges, visited[..done], Elems(visited2)) == truncated
  {
    hide Around, Adj, Ball;
    if truncated == 0 {
      NoneMissing(edges, visited[..done], Elems(visited), Elems(visited2));
    } else {
      assert visited2 == visited;
    }
  }

  lemma NearerAreFirst(edges: seq<Edge>, root: nat, h: nat, visited: seq<nat>, frontier: seq<nat>, truncated: nat,
                       visited2: seq<nat>, next: seq<nat>, truncated2: nat)
    requires Searched(edges, root, h, visited, frontier, truncated)
    requires Grown(visited, [], truncated, visited2, next, truncated2, Around(edges, Elems(frontier)))
    ensures NearerFirst(edges, root, h + 1, visited2, |visited|)
  {
    hide Around, Adj, Ball;
    forall i | 0 <= i < |visited2| ensures i < |visited| <==> visited2[i] in Ball(edges, root, h) {
      if i < |visited| {
        assert visited2[i] == visited[i] && visited[i] in Elems(visited);
      } else {
        assert visited2[i] !in visited && truncated == 0;
        assert visited2[i] !in Elems(visited);
      }
    }
  }

  lemma {:induction false} SizeOfElems(s: seq<nat>)
    requires NoDuplicates(s)
    ensures |Elems(s)| == |s|
  {
    if s != [] {
      var n := |s| - 1;
      SizeOfElems(s[..n]);
      assert s == s[..n] + [s[n]];
      assert Elems(s) == Elems(s[..n]) + {s[n]};
    }
  }

  lemma SearchIsExact(edges: seq<Edge>, root: nat, h: nat, d: nat, visited: seq<nat>, frontier: seq<nat>, truncated: nat)
    requires Searched(edges, root, h, visited, frontier, truncated) && h <= d && (h == d || frontier == [])
    requires exists done: nat :: Expanded(edges, root, h, visited, frontier, truncated, done)
    ensures Found(edges, root, d, visited, truncated)
  {
    var done: nat :| Expanded(edges, root, h, visited, frontier, truncated, done);
    CountIsExact(edges, root, h, d, visited, frontier, truncated, done);
    SizeOfElems(visited);
    BallGrows(edges, root, h, d);
    assert truncated == 0 ==> Between(edges, root, h, visited);
    if truncated == 0 && h < d {
      assert Elems(frontier) == {} && Around(edges, {}) == {};
      ClosedBall(edges, root, h, d);
    }
    if truncated != 0 {
      var ball := Ball(edges, root, d);
      assert Elems(visited) < ball;
      SmallerSet(Elems(visited), ball);
    }
  }

  lemma CountIsExact(edges: seq<Edge>, root: nat, h: nat, d: nat, visited: seq<nat>, frontier: seq<nat>, truncated: nat, done: nat)
    requires Searched(edges, root, h, visited, frontier, truncated) && h <= d && (h == d || frontier == [])
    requires Expanded(edges, root, h, visited, frontier, truncated, done)
    ensures truncated == TurnedAway(edges, root, d, visited, |visited|)
  {
    hide Adj, Around;
    if h < d {
      BallGrows(edges, root, h, d - 1);
      forall i | 0 <= i < |visited| ensures visited[i] in Ball(edges, root, d - 1) {
        assert visited[i] in Elems(visited);
      }
    }
    TurnedAwayIs(edges, root, d, visited, done, |visited|);
  }

  lemma SmallerSet(a: set<nat>, b: set<nat>)
    requires a < b
    ensures |a| < |b|
  {
    var x :| x in b && x !in a;
    assert b == a + (b - a) && x in b - a;
  }

  /** The visited ids, root first: within the ball and the cap, the whole ball exactly when it
      fits, and then nothing was turned away; a full cap otherwise. */
  ghost predicate Found(edges: seq<Edge>, root: nat, d: nat, visited: seq<nat>, truncated: nat) {
    var ball := Ball(edges, root, d);
    && NoDuplicates(visited) && |visited| > 0 && visited[0] == root && Elems(visited) <= ball
    && (truncated == 0 <==> |ball| <= MAX_INVESTIGATION_NODES)
    && (truncated == 0 ==> Elems(visited) == ball)
    && |visited| <= MAX_INVESTIGATION_NODES
    && (truncated > 0 ==> |visited| == MAX_INVESTIGATION_NODES)
    && NearestFirst(edges, root, visited) && truncated == TurnedAway(edges, root, d, visited, |visited|)
  }

  function Clamp(depth: int): nat {
    if depth < 1 then 1 else if depth > MAX_INVESTIGATION_DEPTH then MAX_INVESTIGATION_DEPTH else depth
  }

  /** The depth asked for, brought between 1 and 3. */
  lemma ClampIs(depth: int)
    ensures 1 <= Clamp(depth) <= 3 && (1 <= depth <= 3 ==> Clamp(depth) == depth)
    ensures (depth < 1 ==> Clamp(depth) == 1) && (depth > 3 ==> Clamp(depth) == 3)
  {
  }

  method Search(edges: seq<Edge>, root: nat, d: nat) returns (visited: seq<nat>, truncated: nat)
    ensures Found(edges, root, d, visited, truncated)
  {
    hide Grown, Ball, Around, Elems, Found, Expanded, Missing;
    visited, truncated := [root], 0;
    var frontier, hop := [root], 0;
    ghost var done: nat := 0;
    SearchStarts(edges, root);
    while hop < d && frontier != []
      invariant hop <= d && Searched(edges, root, hop, visited, frontier, truncated)
      invariant Expanded(edges, root, hop, visited, frontier, truncated, done)
    {
      ghost var v, f, t := visited, frontier, truncated;
      visited, frontier, truncated := ExpandHop(edges, frontier, visited, truncated);
      HopSearches(edges, root, hop, v, f, t, visited, frontier, truncated);
      HopExpands(edges, root, hop, v, f, t, done, visited, frontier, truncated);
      done := |v|;
      hop := hop + 1;
    }
    SearchIsExact(edges, root, hop, d, visited, frontier, truncated);
  }

  // ------------------------------------------------------ the whole operation

  /** The edges an authority lens leaves, in order. */
  function Allowed(edges: seq<Edge>, authorities: Option<set<nat>>): seq<Edge> {
    if edges == [] then []
    else
      var last := edges[|edges| - 1];
      Allowed(edges[..|edges| - 1], authorities) + if authorities.None? || last.authority in authorities.value then [last] else []
  }

  /** The visited ids that are nodes, in order. */
  function Known(ids: seq<nat>, nodes: set<nat>): seq<nat> {
    if ids == [] then []
    else
      var last := ids[|ids| - 1];
      Known(ids[..|ids| - 1], nodes) + if last in nodes then [last] else []
  }

  /** The edges with both ends shown, in order. */
  function Inside(edges: seq<Edge>, ids: set<nat>): seq<Edge> {
    if edges == [] then []
    else
      var last := edges[|edges| - 1];
      Inside(edges[..|edges| - 1], ids) + if last.source in ids && last.target in ids then [last] else []
  }

  lemma ElemsSnoc(s: seq<nat>, x: nat)
    ensures Elems(s + [x]) == Elems(s) + {x}
  {
  }

  lemma {:induction false} KnownFacts(ids: seq<nat>, nodes: set<nat>)
    requires NoDuplicates(ids)
    ensures var known := Known(ids, nodes);
            NoDuplicates(known) && |known| <= |ids| && Elems(known) == Elems(ids) * nodes
  {
    if ids != [] {
      var n := |ids| - 1;
      var before := Known(ids[..n], nodes);
      KnownFacts(ids[..n], nodes);
      ElemsSnoc(ids[..n], ids[n]);
      ElemsSnoc(before, ids[n]);
      assert ids == ids[..n] + [ids[n]];
      assert ids[n] !in Elems(ids[..n]);
      assert ids[n] !in before;
      assert Elems(ids) == Elems(ids[..n]) + {ids[n]};
      if ids[n] in nodes {
        assert Known(ids, nodes) == before + [ids[n]];
      } else {
        assert Known(ids, nodes) == before;
      }
    }
  }

  lemma {:induction false} KnownStart(ids: seq<nat>, nodes: set<nat>)
    ensures ids != [] && ids[0] in nodes ==> Known(ids, nodes) != [] && Known(ids, nodes)[0] == ids[0]
  {
    if ids != [] {
      var n := |ids| - 1;
      KnownStart(ids[..n], nodes);
      assert n == 0 ==> Known(ids[..n], nodes) == [];
    }
  }

  lemma {:induction false} AllKnown(ids: seq<nat>, nodes: set<nat>)
    requires Elems(ids) <= nodes
    ensures Known(ids, nodes) == ids
  {
    if ids != [] {
      var n := |ids| - 1;
      ElemsSnoc(ids[..n], ids[n]);
      assert ids == ids[..n] + [ids[n]];
      AllKnown(ids[..n], nodes);
    }
  }

  lemma {:induction false} BallOfNodes(edges: seq<Edge>, root: nat, d: nat, nodes: set<nat>)
    requires root in nodes && EndsKnown(edges, nodes)
    ensures Ball(edges, root, d) <= nodes
  {
    if d > 0 {
      BallOfNodes(edges, root, d - 1, nodes);
    }
  }

  ghost predicate EndsKnown(edges: seq<Edge>, nodes: set<nat>) {
    forall e | e in edges :: e.source in nodes && e.target in nodes
  }

  /** What the investigation promises about its nodes, for the ball of the allowed edges. */
  ghost predicate Investigated(nodes: set<nat>, allowed: seq<Edge>, root: nat, d: nat, found: seq<nat>, truncated: nat) {
    var ball := Ball(allowed, root, d);
    && NoDuplicates(found) && |found| > 0 && found[0] == root
    && |found| <= MAX_INVESTIGATION_NODES && Elems(found) <= ball * nodes
    && (truncated == 0 <==> |ball| <= MAX_INVESTIGATION_NODES)
    && (truncated == 0 ==> Elems(found) == ball * nodes)
    && (truncated > 0 && EndsKnown(allowed, nodes) ==> |found| == MAX_INVESTIGATION_NODES)
    && (EndsKnown(allowed, nodes) ==>
          NearestFirst(allowed, root, found) && truncated == TurnedAway(allowed, root, d, found, |found|))
  }

  /** `investigationNeighborhood`. */
  method InvestigationNeighborhood(nodes: set<nat>, edges: seq<Edge>, root: nat, depth: int, authorities: Option<set<nat>>)
      returns (found: seq<nat>, kept: seq<Edge>, truncated: nat)
    ensures root !in nodes ==> found == [] && kept == [] && truncated == 0
    ensures root in nodes ==> Investigated(nodes, Allowed(edges, authorities), root, Clamp(depth), found, truncated)
                              && kept == Inside(Allowed(edges, authorities), Elems(found))
  {
    if root !in nodes {
      return [], [], 0;
    }
    var allowed := Allowed(edges, authorities);
    var visited;
    visited, truncated := Search(allowed, root, Clamp(depth));
    found := Known(visited, nodes);
    kept := Inside(allowed, Elems(found));
    KnownFacts(visited, nodes);
    KnownStart(visited, nodes);
    if EndsKnown(allowed, nodes) {
      BallOfNodes(allowed, root, Clamp(depth), nodes);
      AllKnown(visited, nodes);
    }
  }

  lemma {:induction false} InsideIsExact(edges: seq<Edge>, ids: set<nat>, e: Edge)
    ensures e in Inside(edges, ids) <==> e in edges && e.source in ids && e.target in ids
  {
    if edges != [] {
      assert edges == edges[..|edges| - 1] + [edges[|edges| - 1]];
      InsideIsExact(edges[..|edges| - 1], ids, e);
    }
  }

  lemma {:induction false} AllowedIsExact(edges: seq<Edge>, authorities: Option<set<nat>>, e: Edge)
    ensures e in Allowed(edges, authorities) <==> e in edges && (authorities.None? || e.authority in authorities.value)
  {
    if edges != [] {
      assert edges == edges[..|edges| - 1] + [edges[|edges| - 1]];
      AllowedIsExact(edges[..|edges| - 1], authorities, e);
    }
  }
}
