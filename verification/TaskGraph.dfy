/** The task dependency graph: cycle check at edit time and readiness
    (services/api/app/tasks/graph.py). Task ids are compared for equality only,
    so a UUID is a natural number here. */
module TaskGraph {
  import opened Wrappers

  type TaskId = nat
  type Graph = map<TaskId, seq<TaskId>>

  function Deps(g: Graph, n: TaskId): seq<TaskId> {
    if n in g then g[n] else []
  }

  predicate Edge(g: Graph, a: TaskId, b: TaskId) {
    b in Deps(g, a)
  }

  ghost predicate IsPath(g: Graph, p: seq<TaskId>) {
    p != [] && forall i | 0 <= i < |p| - 1 :: Edge(g, p[i], p[i + 1])
  }

  ghost predicate IsCycle(g: Graph, c: seq<TaskId>) {
    |c| >= 2 && IsPath(g, c) && c[0] == c[|c| - 1]
  }

  ghost predicate Acyclic(g: Graph) {
    forall c: seq<TaskId> :: !IsCycle(g, c)
  }

  ghost predicate PathBetween(g: Graph, p: seq<TaskId>, a: TaskId, b: TaskId) {
    IsPath(g, p) && p[0] == a && p[|p| - 1] == b
  }

  ghost predicate Reaches(g: Graph, a: TaskId, b: TaskId) {
    exists p: seq<TaskId> :: PathBetween(g, p, a, b)
  }

  /** No cycle can be reached by following dependencies from `t`. */
  ghost predicate NoCycleFrom(g: Graph, t: TaskId) {
    forall c: seq<TaskId> :: IsCycle(g, c) ==> !Reaches(g, t, c[0])
  }

  /** The graph with the edges `t -> ds` added. */
  function Extend(g: Graph, t: TaskId, ds: seq<TaskId>): Graph {
    g[t := Deps(g, t) + ds]
  }

  // ---------------------------------------------------------------- search

  datatype Color = White | Grey | Black

  /** Every listed node has all its dependencies listed before it. */
  ghost predicate Topological(g: Graph, order: seq<TaskId>) {
    forall i, d | 0 <= i < |order| && d in Deps(g, order[i]) :: d in order[..i]
  }

  ghost predicate DepsWithin(g: Graph, universe: set<TaskId>) {
    forall n, d {:trigger Edge(g, n, d)} :: Edge(g, n, d) ==> d in universe
  }

  ghost function Nodes(g: Graph): (r: set<TaskId>)
    ensures DepsWithin(g, r)
  {
    var r := g.Keys + set n, d | n in g.Keys && d in g[n] :: d;
    assert forall n, d | Edge(g, n, d) :: n in g.Keys && d in g[n];
    r
  }

  class CycleFinder {
    const graph: Graph
    var color: map<TaskId, Color>
    var stack: seq<TaskId>
    ghost var finished: seq<TaskId>

    constructor (graph: Graph)
      ensures this.graph == graph && Valid() && stack == [] && color == map[] && finished == []
    {
      this.graph := graph;
      color := map[];
      stack := [];
      finished := [];
    }

    function ColorOf(n: TaskId): Color
      reads this
    {
      Lookup(color, n)
    }

    /** Grey nodes are the stack, which is a duplicate-free path; black nodes are
        the finished ones, listed dependencies first. */
    ghost predicate Valid()
      reads this
    {
      && StackIsPath(graph, stack)
      && ColorsMatch(color, stack, finished)
      && Topological(graph, finished)
    }

    /** The stack from the first occurrence of `c[0]` on, closed by an edge back to it. */
    ghost predicate ClosesStack(c: seq<TaskId>)
      reads this
    {
      Closes(graph, stack, c)
    }

    /** Colour `node` grey and push it. */
    method Enter(node: TaskId)
      requires Valid() && ColorOf(node) == White
      requires stack != [] ==> Edge(graph, stack[|stack| - 1], node)
      modifies this
      ensures Valid() && color == old(color)[node := Grey] && stack == old(stack) + [node]
      ensures finished == old(finished)
    {
      PushKeepsPath(graph, stack, node);
      PushKeepsColors(color, stack, finished, node);
      color := color[node := Grey];
      stack := stack + [node];
    }

    /** Pop `node` and colour it black, its dependencies being black already. */
    method Leave(node: TaskId)
      requires Valid() && stack != [] && stack[|stack| - 1] == node
      requires Contains(finished, Deps(graph, node))
      modifies this
      ensures Valid() && color == old(color)[node := Black] && stack == old(stack)[..|old(stack)| - 1]
      ensures finished == old(finished) + [node]
    {
      PopKeepsColors(color, stack, finished, node);
      FinishKeepsOrder(graph, finished, node);
      stack := stack[..|stack| - 1];
      color := color[node := Black];
      finished := finished + [node];
    }

    /** One round of the loop in `visit`: a grey dependency closes a cycle, a white
        one is visited, a black one is skipped. */
    method Follow(dep: TaskId, ghost universe: set<TaskId>) returns (found: Option<seq<TaskId>>)
      requires Valid() && stack != [] && Edge(graph, stack[|stack| - 1], dep)
      requires DepsWithin(graph, universe)
      modifies this
      ensures Valid() && old(color).Keys <= color.Keys && old(finished) <= finished
      ensures old(stack) <= stack
      ensures found.None? ==> stack == old(stack) && dep in finished
      ensures found.Some? ==> ClosesStack(found.value)
      ensures old(finished) == [] && Deps(graph, old(stack)[|old(stack)| - 1])[0] == dep ==>
                FirstEdges(graph, old(stack), found)
      decreases universe - color.Keys, 1
    {
      ghost var path := stack;
      if ColorOf(dep) == Grey {
        var k := IndexOf(stack, dep);
        var cycle := stack[k..];
        cycle := cycle + [dep];
        assert ClosesAt(graph, stack, cycle, k);
        if Deps(graph, path[|path| - 1])[0] == dep {
          FirstEdgeCloses(graph, path, k);
        }
        return Some(cycle);
      }
      if ColorOf(dep) == White {
        assert Edge(graph, stack[|stack| - 1], dep);
        found := Visit(dep, universe);
        if Deps(graph, path[|path| - 1])[0] == dep && old(finished) == [] {
          FirstEdgeFollowed(graph, path, dep, found);
        }
      } else {
        found := None;
      }
    }

    /** The nested `visit`: depth-first search from a white node. */
    method Visit(node: TaskId, ghost universe: set<TaskId>) returns (found: Option<seq<TaskId>>)
      requires Valid() && ColorOf(node) == White
      requires stack != [] ==> Edge(graph, stack[|stack| - 1], node)
      requires node in universe && DepsWithin(graph, universe)
      modifies this
      ensures Valid() && old(color).Keys <= color.Keys && old(finished) <= finished
      ensures found.Some? ==> old(stack) + [node] <= stack
      ensures found.None? ==> stack == old(stack) && node in finished
      ensures found.Some? ==> ClosesStack(found.value)
      ensures old(finished) == [] ==> FirstEdges(graph, old(stack) + [node], found)
      decreases universe - color.Keys, 0
    {
      Enter(node);
      found := Scan(node, universe);
      if found.None? {
        Leave(node);
      }
    }

    /** The loop of `visit` over the dependencies of the node on top of the stack. */
    method Scan(node: TaskId, ghost universe: set<TaskId>) returns (found: Option<seq<TaskId>>)
      requires Valid() && stack != [] && stack[|stack| - 1] == node
      requires DepsWithin(graph, universe)
      modifies this
      ensures Valid() && old(color).Keys <= color.Keys && old(finished) <= finished
      ensures old(stack) <= stack
      ensures found.None? ==> stack == old(stack) && Contains(finished, Deps(graph, node))
      ensures found.Some? ==> ClosesStack(found.value)
      ensures old(finished) == [] ==> FirstEdges(graph, old(stack), found)
      decreases universe - color.Keys, 2
    {
      hide FirstEdges, Closes, StackIsPath, ColorsMatch, Topological;
      var deps := Deps(graph, node);
      NoFirstEdge(graph, stack);
      var i := 0;
      found := None;
      while i < |deps| && found.None?
        invariant 0 <= i <= |deps| && (i == 0 ==> found.None?)
        invariant Valid() && old(stack) <= stack
        invariant old(color).Keys <= color.Keys && old(finished) <= finished
        invariant found.None? ==> stack == old(stack) && Contains(finished, deps[..i])
        invariant found.Some? ==> ClosesStack(found.value)
        invariant old(finished) == [] ==> if i == 0 then finished == [] else FirstEdges(graph, old(stack), found)
      {
        assert Edge(graph, node, deps[i]);
        ghost var before := finished;
        found := Follow(deps[i], universe);
        if found.None? {
          ContainsOneMore(before, finished, deps, i);
        }
        if old(finished) == [] && i > 0 {
          NoLassoAhead(graph, old(stack), found);
        }
        i := i + 1;
      }
      assert deps[..|deps|] == deps;
    }
  }

  // ------------------------------------------------- following first edges

  /** From each node of `q` the first listed dependency is the next one, and from the last it is
      `q[j]` again. */
  ghost predicate Lasso(g: Graph, q: seq<TaskId>, j: nat) {
    && NoDuplicates(q) && j < |q|
    && forall i | 0 <= i < |q| ::
         Deps(g, q[i]) != [] && Deps(g, q[i])[0] == if i + 1 < |q| then q[i + 1] else q[j]
  }

  /** Whatever lasso the path has started on, the search reports its loop. */
  ghost predicate FirstEdges(g: Graph, path: seq<TaskId>, found: Option<seq<TaskId>>) {
    forall q: seq<TaskId>, j: nat | Lasso(g, q, j) && path <= q :: found == Some(q[j..] + [q[j]])
  }

  lemma LassoStep(g: Graph, q: seq<TaskId>, j: nat, i: nat)
    requires Lasso(g, q, j) && i < |q|
    ensures Deps(g, q[i]) != [] && Deps(g, q[i])[0] == if i + 1 < |q| then q[i + 1] else q[j]
  {
  }

  /** Where the search went on past a path, no lasso starts with it. */
  lemma NoLassoAhead(g: Graph, path: seq<TaskId>, found: Option<seq<TaskId>>)
    requires FirstEdges(g, path, None)
    ensures FirstEdges(g, path, found)
  {
  }

  lemma NoFirstEdge(g: Graph, path: seq<TaskId>)
    requires path != []
    ensures |Deps(g, path[|path| - 1])| == 0 ==> FirstEdges(g, path, None)
  {
    forall q: seq<TaskId>, j: nat | Lasso(g, q, j) && path <= q ensures Deps(g, path[|path| - 1]) != [] {
      assert q[|path| - 1] == path[|path| - 1];
    }
  }

  lemma FirstEdgeCloses(g: Graph, path: seq<TaskId>, k: nat)
    requires NoDuplicates(path) && k < |path|
    requires var deps := Deps(g, path[|path| - 1]); deps != [] && deps[0] == path[k]
    ensures FirstEdges(g, path, Some(path[k..] + [path[k]]))
  {
    forall q: seq<TaskId>, j: nat | Lasso(g, q, j) && path <= q
      ensures Some(path[k..] + [path[k]]) == Some(q[j..] + [q[j]])
    {
      var n := |path|;
      assert q[n - 1] == path[n - 1] && q[k] == path[k];
      LassoStep(g, q, j, n - 1);
      assert q == path && q[j] == q[k];
    }
  }

  lemma FirstEdgeFollowed(g: Graph, path: seq<TaskId>, dep: TaskId, found: Option<seq<TaskId>>)
    requires path != [] && dep !in path && FirstEdges(g, path + [dep], found)
    requires var deps := Deps(g, path[|path| - 1]); deps != [] && deps[0] == dep
    ensures FirstEdges(g, path, found)
  {
    forall q: seq<TaskId>, j: nat | Lasso(g, q, j) && path <= q ensures found == Some(q[j..] + [q[j]]) {
      assert q[|path| - 1] == path[|path| - 1];
      LassoStep(g, q, j, |path| - 1);
      assert q[j] in q;
      assert path + [dep] <= q;
    }
  }

  ghost predicate Contains(s: seq<TaskId>, part: seq<TaskId>) {
    forall d | d in part :: d in s
  }

  lemma ContainsOneMore(before: seq<TaskId>, after: seq<TaskId>, part: seq<TaskId>, i: nat)
    requires i < |part| && Contains(before, part[..i]) && before <= after && part[i] in after
    ensures Contains(after, part[..i + 1])
  {
    forall d | d in part[..i + 1] ensures d in after {
      assert d in part[..i] || d == part[i];
    }
  }

  ghost predicate StackIsPath(g: Graph, stack: seq<TaskId>) {
    NoDuplicates(stack) && forall i | 0 <= i < |stack| - 1 :: Edge(g, stack[i], stack[i + 1])
  }

  function Lookup(color: map<TaskId, Color>, n: TaskId): Color {
    if n in color then color[n] else White
  }

  ghost predicate ColorsMatch(color: map<TaskId, Color>, stack: seq<TaskId>, finished: seq<TaskId>) {
    && (forall n :: Lookup(color, n) == Grey <==> n in stack)
    && (forall n :: Lookup(color, n) == Black <==> n in finished)
    && (forall n | n in color :: color[n] != White)
  }

  ghost predicate Closes(g: Graph, stack: seq<TaskId>, c: seq<TaskId>) {
    exists k | 0 <= k < |stack| :: ClosesAt(g, stack, c, k)
  }

  ghost predicate ClosesAt(g: Graph, stack: seq<TaskId>, c: seq<TaskId>, k: nat)
    requires k < |stack|
  {
    c == stack[k..] + [stack[k]] && Edge(g, stack[|stack| - 1], stack[k])
  }

  lemma PushKeepsPath(g: Graph, stack: seq<TaskId>, n: TaskId)
    requires StackIsPath(g, stack) && n !in stack
    requires stack != [] ==> Edge(g, stack[|stack| - 1], n)
    ensures StackIsPath(g, stack + [n])
  {
  }

  lemma PushKeepsColors(color: map<TaskId, Color>, stack: seq<TaskId>, finished: seq<TaskId>, n: TaskId)
    requires ColorsMatch(color, stack, finished) && Lookup(color, n) == White
    ensures ColorsMatch(color[n := Grey], stack + [n], finished) && n !in stack
  {
  }

  lemma PopKeepsColors(color: map<TaskId, Color>, stack: seq<TaskId>, finished: seq<TaskId>, n: TaskId)
    requires ColorsMatch(color, stack, finished) && NoDuplicates(stack)
    requires stack != [] && stack[|stack| - 1] == n
    ensures ColorsMatch(color[n := Black], stack[..|stack| - 1], finished + [n])
  {
    var color', stack', finished' := color[n := Black], stack[..|stack| - 1], finished + [n];
    assert stack == stack' + [n];
    forall m ensures Lookup(color', m) == Grey <==> m in stack' {
      assert Lookup(color, m) == Grey <==> m in stack;
    }
    forall m ensures Lookup(color', m) == Black <==> m in finished' {
      assert Lookup(color, m) == Black <==> m in finished;
    }
  }

  lemma FinishKeepsOrder(g: Graph, order: seq<TaskId>, n: TaskId)
    requires Topological(g, order) && Contains(order, Deps(g, n))
    ensures Topological(g, order + [n])
  {
    var order' := order + [n];
    forall i, d | 0 <= i < |order'| && d in Deps(g, order'[i]) ensures d in order'[..i] {
      if i < |order| {
        assert d in order[..i] && order'[..i] == order[..i];
      } else {
        assert order'[..i] == order;
      }
    }
  }

  /** What the search reports when it meets a grey node: a closed path of edges,
      reached from the bottom of the stack, that contains the bottom only if it
      starts there. */
  lemma ClosedStackIsCycle(g: Graph, s: seq<TaskId>, c: seq<TaskId>)
    requires StackIsPath(g, s) && s != [] && Closes(g, s, c)
    ensures IsCycle(g, c) && Reaches(g, s[0], c[0])
    ensures c[0] == s[0] || s[0] !in c
  {
    var k :| 0 <= k < |s| && ClosesAt(g, s, c, k);
    var last := s[|s| - 1];
    assert IsPath(g, s);
    SubPath(g, s, k, |s|);
    assert IsPath(g, [last, s[k]]);
    JoinPaths(g, s[k..|s|], [last, s[k]]);
    assert c == s[k..|s|] + [last, s[k]][1..];
    SubPath(g, s, 0, k + 1);
    assert PathBetween(g, s[0..k + 1], s[0], c[0]);
  }

  lemma {:induction false} PathDescends(g: Graph, order: seq<TaskId>, p: seq<TaskId>, k: nat)
      returns (j: nat)
    requires Topological(g, order) && IsPath(g, p) && k < |order| && p[0] == order[k]
    ensures j + |p| - 1 <= k && p[|p| - 1] == order[j]
    decreases |p|
  {
    if |p| == 1 {
      j := k;
    } else {
      assert Edge(g, p[0], p[1]);
      var k' :| 0 <= k' < k && order[k'] == p[1];
      assert IsPath(g, p[1..]) by {
        forall i | 0 <= i < |p[1..]| - 1 ensures Edge(g, p[1..][i], p[1..][i + 1]) {
          assert Edge(g, p[i + 1], p[i + 2]);
        }
      }
      j := PathDescends(g, order, p[1..], k');
    }
  }

  /** Nothing in a topologically ordered list lies on a cycle. */
  lemma {:induction false} OrderedNotOnCycle(g: Graph, order: seq<TaskId>, c: seq<TaskId>, k: nat)
    requires Topological(g, order) && k < |order| && IsCycle(g, c)
    ensures c[0] != order[k]
  {
    if c[0] == order[k] {
      var j := PathDescends(g, order, c, k);
      OrderedNotOnCycle(g, order, c, j);
    }
  }

  lemma {:induction false} OrderedReachesNoCycle(g: Graph, order: seq<TaskId>, t: TaskId)
    requires Topological(g, order) && t in order
    ensures NoCycleFrom(g, t)
  {
    forall c: seq<TaskId> | IsCycle(g, c) ensures !Reaches(g, t, c[0]) {
      if Reaches(g, t, c[0]) {
        var p: seq<TaskId> :| PathBetween(g, p, t, c[0]);
        var k :| 0 <= k < |order| && order[k] == t;
        var j := PathDescends(g, order, p, k);
        OrderedNotOnCycle(g, order, c, j);
      }
    }
  }

  /** A cycle that avoids `t` survives without the edges added at `t`. */
  lemma CycleAvoiding(g: Graph, t: TaskId, ds: seq<TaskId>, c: seq<TaskId>)
    requires IsCycle(Extend(g, t, ds), c) && t !in c
    ensures IsCycle(g, c)
  {
  }

  lemma SubPath(g: Graph, p: seq<TaskId>, i: nat, j: nat)
    requires IsPath(g, p) && i < j <= |p|
    ensures IsPath(g, p[i..j])
  {
  }

  lemma JoinPaths(g: Graph, p: seq<TaskId>, q: seq<TaskId>)
    requires IsPath(g, p) && IsPath(g, q) && p[|p| - 1] == q[0]
    ensures IsPath(g, p + q[1..])
  {
  }

  /** A cycle may be started at any of its nodes. */
  lemma Rotate(g: Graph, c: seq<TaskId>, i: nat) returns (r: seq<TaskId>)
    requires IsCycle(g, c) && i < |c|
    ensures IsCycle(g, r) && r[0] == c[i] && |r| == |c|
    ensures i < |c| - 1 ==> r[1] == c[i + 1]
  {
    if i == |c| - 1 {
      r := c;
    } else {
      SubPath(g, c, i, |c|);
      SubPath(g, c, 0, i + 1);
      JoinPaths(g, c[i..|c|], c[0..i + 1]);
      r := c[i..|c|] + c[0..i + 1][1..];
      assert r[|r| - 1] == c[i];
    }
  }

  /** Adding edges at one node to an acyclic graph leaves it acyclic exactly when
      no cycle is reachable from that node. */
  lemma LocalCheckIsGlobal(g: Graph, t: TaskId, ds: seq<TaskId>)
    requires Acyclic(g)
    ensures NoCycleFrom(Extend(g, t, ds), t) <==> Acyclic(Extend(g, t, ds))
  {
    var h := Extend(g, t, ds);
    if NoCycleFrom(h, t) {
      forall c: seq<TaskId> ensures !IsCycle(h, c) {
        if IsCycle(h, c) {
          if t !in c {
            CycleAvoiding(g, t, ds, c);
          } else {
            var i :| 0 <= i < |c| && c[i] == t;
            var r := Rotate(h, c, i);
            assert PathBetween(h, [t], t, t);
            assert Reaches(h, t, r[0]);
          }
        }
      }
    }
  }

  /** Every cycle that can be reached from `t` goes through it. */
  ghost predicate AllThrough(g: Graph, t: TaskId) {
    forall c: seq<TaskId> :: IsCycle(g, c) && Reaches(g, t, c[0]) ==> t in c
  }

  /** An edit of an acyclic graph makes no cycle but through its own task. */
  lemma NewCyclesGoThrough(g: Graph, t: TaskId, ds: seq<TaskId>)
    requires Acyclic(g)
    ensures AllThrough(Extend(g, t, ds), t)
  {
    forall c: seq<TaskId> | IsCycle(Extend(g, t, ds), c) && Reaches(Extend(g, t, ds), t, c[0]) ensures t in c {
      if t !in c {
        CycleAvoiding(g, t, ds, c);
      }
    }
  }

  /** `find_cycle`: the search is exact for what `task` reaches, and on an acyclic
      graph it decides whether the edit keeps the whole graph acyclic. The cycle it
      reports starts and ends at the task or avoids it; which one it finds is told
      where following the first listed edges already runs into one. */
  method FindCycle(task: TaskId, dependsOn: seq<TaskId>, existing: Graph)
      returns (r: Option<seq<TaskId>>)
    ensures r.None? <==> NoCycleFrom(Extend(existing, task, dependsOn), task)
    ensures r.Some? ==> IsCycle(Extend(existing, task, dependsOn), r.value)
                        && Reaches(Extend(existing, task, dependsOn), task, r.value[0])
    ensures r.Some? ==> r.value[0] == task || task !in r.value
    ensures r.Some? && AllThrough(Extend(existing, task, dependsOn), task) ==> r.value[0] == task
    ensures FirstEdges(Extend(existing, task, dependsOn), [task], r)
    ensures Acyclic(existing) ==> (r.None? <==> Acyclic(Extend(existing, task, dependsOn)))
    ensures Acyclic(existing) && r.Some? ==> r.value[0] == task
  {
    var graph := Extend(existing, task, dependsOn);
    var finder := new CycleFinder(graph);
    r := finder.Visit(task, Nodes(graph) + {task});
    if r.None? {
      OrderedReachesNoCycle(graph, finder.finished, task);
    } else {
      ClosedStackIsCycle(graph, finder.stack, r.value);
    }
    if Acyclic(existing) {
      LocalCheckIsGlobal(existing, task, dependsOn);
      NewCyclesGoThrough(existing, task, dependsOn);
    }
  }

  /** The promise that the cycle ends with the task fails for a task that depends on a
      cycle it is not on: there is a cycle to report, and none contains the task. */
  lemma CycleElsewhere()
    ensures var h := Extend(map[2 := [2]], 1, [2]);
            !NoCycleFrom(h, 1) && forall c | IsCycle(h, c) :: 1 !in c
  {
    var h := Extend(map[2 := [2]], 1, [2]);
    assert Deps(h, 1) == [2] && Deps(h, 2) == [2];
    assert IsCycle(h, [2, 2]) && PathBetween(h, [1, 2], 1, [2, 2][0]);
    forall c | IsCycle(h, c) ensures 1 !in c {
      forall i | 0 <= i < |c| ensures c[i] != 1 {
        var before := if i > 0 then i - 1 else |c| - 2;
        assert Edge(h, c[before], c[before + 1]);
      }
    }
  }

  // ------------------------------------------------------- the order of the edges

  /** The same edges, each task's listed in some order. */
  ghost predicate SameEdges(g: Graph, h: Graph) {
    g.Keys == h.Keys && forall n | n in g :: multiset(g[n]) == multiset(h[n])
  }

  function Front(deps: seq<TaskId>, d: TaskId): (r: seq<TaskId>)
    requires d in deps
    ensures r != [] && r[0] == d && multiset(r) == multiset(deps)
  {
    var k := IndexOf(deps, d);
    assert deps == deps[..k] + [d] + deps[k + 1..];
    [d] + deps[..k] + deps[k + 1..]
  }

  /** The dependency that should come first, for the nodes of the lasso. */
  function NextOn(q: seq<TaskId>, j: nat, n: TaskId): TaskId
    requires n in q && j < |q|
  {
    var i := IndexOf(q, n);
    if i + 1 < |q| then q[i + 1] else q[j]
  }

  /** A simple walk that runs back into itself. */
  ghost predicate Loops(g: Graph, q: seq<TaskId>, j: nat) {
    && NoDuplicates(q) && j < |q|
    && forall i | 0 <= i < |q| :: Edge(g, q[i], if i + 1 < |q| then q[i + 1] else q[j])
  }

  lemma NextOnIs(g: Graph, q: seq<TaskId>, j: nat, i: nat)
    requires Loops(g, q, j) && i < |q|
    ensures NextOn(q, j, q[i]) == (if i + 1 < |q| then q[i + 1] else q[j])
    ensures q[i] in g && NextOn(q, j, q[i]) in g[q[i]]
  {
    var k := IndexOf(q, q[i]);
    assert q[k] == q[i];
    assert Edge(g, q[i], if i + 1 < |q| then q[i + 1] else q[j]);
  }

  /** The graph with the edges of such a walk listed first. */
  ghost function Fronted(g: Graph, q: seq<TaskId>, j: nat): Graph
    requires j < |q|
  {
    map n | n in g :: if n in q && NextOn(q, j, n) in g[n] then Front(g[n], NextOn(q, j, n)) else g[n]
  }

  /** Listing them first makes it a lasso. */
  lemma LoopMadeFirst(g: Graph, q: seq<TaskId>, j: nat)
    requires Loops(g, q, j)
    ensures SameEdges(g, Fronted(g, q, j)) && Lasso(Fronted(g, q, j), q, j)
  {
    hide NextOn;
    forall i | 0 <= i < |q|
      ensures Deps(Fronted(g, q, j), q[i]) != []
              && Deps(Fronted(g, q, j), q[i])[0] == if i + 1 < |q| then q[i + 1] else q[j]
    {
      NextOnIs(g, q, j, i);
    }
  }

  /** The first repetition in a walk that has one. */
  lemma FirstRepeat(g: Graph, w: seq<TaskId>) returns (q: seq<TaskId>, j: nat)
    requires IsPath(g, w) && !NoDuplicates(w)
    ensures Loops(g, q, j) && q < w && q != [] && w[|q|] == q[j]
  {
    var m := 0;
    assert w[..|w|] == w;
    while NoDuplicates(w[..m + 1])
      invariant m < |w| && NoDuplicates(w[..m])
      decreases |w| - m
    {
      m := m + 1;
    }
    q := w[..m];
    assert w[..m + 1] == q + [w[m]];
    var a, b :| 0 <= a < b < |w[..m + 1]| && w[..m + 1][a] == w[..m + 1][b];
    assert b == m;
    j := a;
    forall i | 0 <= i < |q| ensures Edge(g, q[i], if i + 1 < |q| then q[i + 1] else q[j]) {
      assert Edge(g, w[i], w[i + 1]);
    }
  }

  /** The last stretch of a walk that starts at `t` and never comes back to it. */
  lemma {:induction false} LeaveForGood(g: Graph, p: seq<TaskId>, t: TaskId) returns (r: seq<TaskId>)
    requires IsPath(g, p) && p[0] == t
    ensures IsPath(g, r) && r[0] == t && t !in r[1..] && r[|r| - 1] == p[|p| - 1]
    decreases |p|
  {
    if i :| 1 <= i < |p| && p[i] == t {
      SubPath(g, p, i, |p|);
      r := LeaveForGood(g, p[i..], t);
    } else {
      r := p;
    }
  }

  /** The reported cycle ends with the task in every order of the edges exactly when every cycle
      the task reaches goes through it: otherwise some order makes the search find another. */
  lemma EndsWithTaskInEveryOrder(g: Graph, t: TaskId)
    ensures AllThrough(g, t) <==>
              !exists h: Graph, q: seq<TaskId>, j: nat :: SameEdges(g, h) && Lasso(h, q, j) && q[0] == t && j > 0
  {
    if !AllThrough(g, t) {
      var c: seq<TaskId> :| IsCycle(g, c) && Reaches(g, t, c[0]) && t !in c;
      var p: seq<TaskId> :| PathBetween(g, p, t, c[0]);
      var r := LeaveForGood(g, p, t);
      JoinPaths(g, r, c);
      var w := r + c[1..];
      assert w[|r| - 1] == w[|w| - 1];
      var q, j := FirstRepeat(g, w);
      assert q[0] == t;
      assert forall i | 0 < i < |w| :: w[i] != t;
      LoopMadeFirst(g, q, j);
    } else {
      forall h: Graph, q: seq<TaskId>, j: nat | SameEdges(g, h) && Lasso(h, q, j) && q[0] == t ensures j == 0 {
        LassoIsCycle(g, h, q, j);
      }
    }
  }

  /** The loop of a lasso is a cycle the search's start reaches. */
  lemma LassoIsCycle(g: Graph, h: Graph, q: seq<TaskId>, j: nat)
    requires SameEdges(g, h) && Lasso(h, q, j)
    ensures var c := q[j..] + [q[j]];
            IsCycle(g, c) && Reaches(g, q[0], c[0]) && (j > 0 ==> q[0] !in c)
  {
    var c := q[j..] + [q[j]];
    forall i | 0 <= i < |q| ensures Edge(g, q[i], if i + 1 < |q| then q[i + 1] else q[j]) {
      assert Deps(h, q[i])[0] in multiset(h[q[i]]);
    }
    forall i | 0 <= i < |c| - 1 ensures Edge(g, c[i], c[i + 1]) {
      var k := j + i;
      assert c[i] == q[k] && c[i + 1] == if k + 1 < |q| then q[k + 1] else q[j];
      assert Edge(g, q[k], if k + 1 < |q| then q[k + 1] else q[j]);
    }
    assert IsPath(g, q[..j + 1]);
    assert PathBetween(g, q[..j + 1], q[0], c[0]);
  }

  // ------------------------------------------------------------- the plan editor

  /** The plan service checks one edge against the graph without the task's own
      edges (services/api/app/services/planning/plans.py); that loses nothing. */
  function Without(g: Graph, t: TaskId): Graph {
    g - {t}
  }

  ghost predicate EditAccepted(g: Graph, t: TaskId, d: TaskId) {
    NoCycleFrom(Extend(Without(g, t), t, [d]), t)
  }

  /** First index from `i` on (below the end) where the cycle is back at `t`. */
  lemma {:induction false} FirstReturn(c: seq<TaskId>, t: TaskId, i: nat) returns (j: nat)
    requires 1 <= i < |c| && c[|c| - 1] == t
    ensures i <= j < |c| && c[j] == t && t !in c[i..j]
    decreases |c| - i
  {
    if c[i] == t {
      j := i;
    } else {
      j := FirstReturn(c, t, i + 1);
      assert c[i..j] == [c[i]] + c[i + 1..j];
    }
  }

  /** A cycle of the extended graph that uses the new edge shrinks to one that
      leaves `t` by that edge and returns to `t` only at its end. */
  lemma NewEdgeCycle(g: Graph, t: TaskId, d: TaskId, c: seq<TaskId>)
    requires IsCycle(Extend(g, t, [d]), c) && c[0] == t && c[1] == d
    ensures !EditAccepted(g, t, d)
  {
    var h := Extend(Without(g, t), t, [d]);
    var full := Extend(g, t, [d]);
    var j := FirstReturn(c, t, 1);
    var e := c[..j + 1];
    forall i | 0 <= i < |e| - 1 ensures Edge(h, e[i], e[i + 1]) {
      assert Edge(full, c[i], c[i + 1]);
      if i > 0 {
        assert c[1..j][i - 1] == c[i];
      }
    }
    assert IsCycle(h, e);
    assert PathBetween(h, [t], t, t);
    assert Reaches(h, t, e[0]);
  }

  /** Soundness and completeness of the plan service's reduced check. */
  lemma PlanEditIsExact(g: Graph, t: TaskId, d: TaskId)
    requires Acyclic(g)
    ensures EditAccepted(g, t, d) <==> Acyclic(Extend(g, t, [d]))
  {
    var full := Extend(g, t, [d]);
    var h := Extend(Without(g, t), t, [d]);
    if EditAccepted(g, t, d) {
      forall c: seq<TaskId> ensures !IsCycle(full, c) {
        if IsCycle(full, c) {
          if i :| 0 <= i < |c| - 1 && c[i] == t && c[i + 1] == d {
            var r := Rotate(full, c, i);
            NewEdgeCycle(g, t, d, r);
          } else {
            forall i | 0 <= i < |c| - 1 ensures Edge(g, c[i], c[i + 1]) {
              assert Edge(full, c[i], c[i + 1]);
            }
            assert IsCycle(g, c);
          }
        }
      }
    } else {
      var c: seq<TaskId> :| IsCycle(h, c) && Reaches(h, t, c[0]);
      forall i | 0 <= i < |c| - 1 ensures Edge(full, c[i], c[i + 1]) {
        assert Edge(h, c[i], c[i + 1]);
      }
      assert IsCycle(full, c);
    }
  }

  datatype PlanEdit = PlanEdit(task: TaskId, dep: TaskId)

  /** The graph reached from the empty one by the edits the check accepted;
      a rejected edit changes nothing. */
  ghost function RunEdits(edits: seq<PlanEdit>): Graph {
    if edits == [] then map[]
    else
      var g := RunEdits(edits[..|edits| - 1]);
      var e := edits[|edits| - 1];
      if EditAccepted(g, e.task, e.dep) then Extend(g, e.task, [e.dep]) else g
  }

  lemma {:induction false} RunEditsAcyclic(edits: seq<PlanEdit>)
    ensures Acyclic(RunEdits(edits))
  {
    if edits == [] {
      forall c: seq<TaskId> ensures !IsCycle(map[], c) {
        assert |c| >= 2 ==> !Edge(map[], c[0], c[1]);
      }
    } else {
      var g := RunEdits(edits[..|edits| - 1]);
      RunEditsAcyclic(edits[..|edits| - 1]);
      var e := edits[|edits| - 1];
      PlanEditIsExact(g, e.task, e.dep);
    }
  }

  /** The edit was asked for, and closed no cycle in the graph as it then was. */
  ghost predicate TookEffect(edits: seq<PlanEdit>, i: nat, a: TaskId, b: TaskId) {
    i < |edits| && edits[i] == PlanEdit(a, b) && Acyclic(Extend(RunEdits(edits[..i]), a, [b]))
  }

  /** The edges of the graph are those of the edits that closed no cycle, and no others. */
  lemma {:induction false} EditsTakeEffect(edits: seq<PlanEdit>, a: TaskId, b: TaskId)
    ensures Edge(RunEdits(edits), a, b) <==> exists i: nat :: TookEffect(edits, i, a, b)
  {
    if edits == [] {
      assert !Edge(map[], a, b);
    } else {
      var n := |edits| - 1;
      var e, g := edits[n], RunEdits(edits[..n]);
      EditsTakeEffect(edits[..n], a, b);
      RunEditsAcyclic(edits[..n]);
      PlanEditIsExact(g, e.task, e.dep);
      hide Acyclic, RunEdits;
      OneMoreEdit(edits, a, b);
      LastEdit(edits, a, b);
    }
  }

  lemma LastEdit(edits: seq<PlanEdit>, a: TaskId, b: TaskId)
    requires edits != []
    ensures var n := |edits| - 1;
            var e, g := edits[n], RunEdits(edits[..n]);
            Edge(RunEdits(edits), a, b) <==> Edge(g, a, b) || (EditAccepted(g, e.task, e.dep) && e == PlanEdit(a, b))
  {
    hide Acyclic, EditAccepted;
  }

  lemma OneMoreEdit(edits: seq<PlanEdit>, a: TaskId, b: TaskId)
    requires edits != []
    ensures var n: nat := |edits| - 1;
            (exists i: nat :: TookEffect(edits, i, a, b))
            <==> (exists i: nat :: TookEffect(edits[..n], i, a, b)) || TookEffect(edits, n, a, b)
  {
    hide Acyclic, RunEdits;
    var n: nat := |edits| - 1;
    if i: nat :| TookEffect(edits, i, a, b) && i < n {
      assert edits[..n][..i] == edits[..i];
      assert TookEffect(edits[..n], i, a, b);
    }
    if i: nat :| TookEffect(edits[..n], i, a, b) {
      assert edits[..n][..i] == edits[..i];
      assert TookEffect(edits, i, a, b);
    }
  }

  // -------------------------------------------------------------- readiness

  /** A task is held back by each dependency that is not completed, and by nothing else. */
  lemma ReadyExactly(dependsOn: seq<TaskId>, completed: set<TaskId>)
    ensures ReadyStatus(dependsOn, completed) == "blocked" <==> exists d :: d in dependsOn && d !in completed
    ensures ReadyStatus(dependsOn, completed) == "ready" || ReadyStatus(dependsOn, completed) == "blocked"
  {
  }

  function ReadyStatus(dependsOn: seq<TaskId>, completed: set<TaskId>): (status: string)
  {
    if forall d | d in dependsOn :: d in completed then "ready" else "blocked"
  }

  ghost predicate DependsInto(g: Graph, x: TaskId, u: set<TaskId>) {
    exists y :: y in u && Edge(g, x, y)
  }

  /** Every node of `u` has a dependency in `u`. */
  ghost predicate Stuck(g: Graph, u: set<TaskId>) {
    forall x {:trigger DependsInto(g, x, u)} :: x in u ==> DependsInto(g, x, u)
  }

  ghost predicate Inside(p: seq<TaskId>, u: set<TaskId>) {
    forall i | 0 <= i < |p| :: p[i] in u
  }

  /** A walk inside a stuck set, as long as wanted. */
  lemma {:induction false} Walk(g: Graph, u: set<TaskId>, start: TaskId, n: nat) returns (p: seq<TaskId>)
    requires start in u && Stuck(g, u)
    ensures IsPath(g, p) && |p| == n + 1 && p[0] == start && Inside(p, u)
    decreases n
  {
    if n == 0 {
      p := [start];
    } else {
      assert DependsInto(g, start, u);
      var y :| y in u && Edge(g, start, y);
      var q := Walk(g, u, y, n - 1);
      p := [start] + q;
      JoinPaths(g, [start, y], q);
      assert p == [start, y] + q[1..];
    }
  }

  lemma {:induction false} Pigeonhole(p: seq<TaskId>, u: set<TaskId>)
    requires |p| > |u| && Inside(p, u)
    ensures exists i, j :: 0 <= i < j < |p| && p[i] == p[j]
    decreases |p|
  {
    if p != [] {
      var last := |p| - 1;
      if p[last] in p[..last] {
        var i :| 0 <= i < last && p[..last][i] == p[last];
        assert p[i] == p[last];
      } else {
        assert p[last] in u;
        Pigeonhole(p[..last], u - {p[last]});
        var i, j :| 0 <= i < j < last && p[..last][i] == p[..last][j];
        assert p[i] == p[j];
      }
    }
  }

  /** A finite graph in which every node of a non-empty set depends on the set has a cycle. */
  lemma StuckSetHasCycle(g: Graph, u: set<TaskId>, start: TaskId)
    requires start in u && Stuck(g, u)
    ensures !Acyclic(g)
  {
    var p := Walk(g, u, start, |u|);
    Pigeonhole(p, u);
    var i, j :| 0 <= i < j < |p| && p[i] == p[j];
    SubPath(g, p, i, j + 1);
    assert IsCycle(g, p[i..j + 1]);
  }

  /** No deadlock: whatever edits were tried, while some task is uncompleted some
      uncompleted task is ready. */
  lemma NoDeadlock(edits: seq<PlanEdit>, tasks: set<TaskId>, completed: set<TaskId>)
    requires forall e | e in edits :: e.dep in tasks
    requires exists t :: t in tasks && t !in completed
    ensures exists t :: t in tasks && t !in completed
                        && ReadyStatus(Deps(RunEdits(edits), t), completed) == "ready"
  {
    var g := RunEdits(edits);
    RunEditsAcyclic(edits);
    DepsAreTasks(edits, tasks);
    var u := tasks - completed;
    if forall t | t in u :: ReadyStatus(Deps(g, t), completed) != "ready" {
      forall x | x in u ensures DependsInto(g, x, u) {
        assert ReadyStatus(Deps(g, x), completed) != "ready";
        var y :| y in Deps(g, x) && y !in completed;
        assert Edge(g, x, y) && y in u;
      }
      var start :| start in tasks && start !in completed;
      StuckSetHasCycle(g, u, start);
    }
  }

  lemma {:induction false} DepsAreTasks(edits: seq<PlanEdit>, tasks: set<TaskId>)
    requires forall e | e in edits :: e.dep in tasks
    ensures forall t, d :: d in Deps(RunEdits(edits), t) ==> d in tasks
  {
    if edits != [] {
      var e := edits[|edits| - 1];
      var g := RunEdits(edits[..|edits| - 1]);
      DepsAreTasks(edits[..|edits| - 1], tasks);
      assert e in edits;
      forall t, d | d in Deps(Extend(g, e.task, [e.dep]), t) ensures d in tasks {
        assert d in Deps(g, t) || d == e.dep;
      }
    }
  }
}
