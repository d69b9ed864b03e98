/** Where the two layouts put their nodes: rows and columns of layers
    (layoutDeps and layoutGraph). */
module Placement {
  import opened Wrappers
  import opened TaskGraph
  import opened Layout

  // -------------------------------------------------------- grouping by layer

  /** How many of the first `n` positions have this layer. */
  function CountAt(layerOf: seq<nat>, l: nat, n: nat): nat
    requires n <= |layerOf|
  {
    if n == 0 then 0 else CountAt(layerOf, l, n - 1) + if layerOf[n - 1] == l then 1 else 0
  }

  /** The place of position `k` among those of its layer. */
  function RankOf(layerOf: seq<nat>, k: nat): nat
    requires k < |layerOf|
  {
    CountAt(layerOf, layerOf[k], k)
  }

  function RowOf(layers: map<nat, seq<nat>>, l: nat): seq<nat> {
    if l in layers then layers[l] else []
  }

  /** The row of a layer lists, each at its rank, the positions below `n` with that layer. */
  ghost predicate IsRow(row: seq<nat>, layerOf: seq<nat>, l: nat, n: nat)
    requires n <= |layerOf|
  {
    && |row| == CountAt(layerOf, l, n)
    && (forall i | 0 <= i < |row| :: row[i] < n && layerOf[row[i]] == l && RankOf(layerOf, row[i]) == i)
    && (forall k | 0 <= k < n && layerOf[k] == l :: k in row)
  }

  ghost predicate Grouped(layers: map<nat, seq<nat>>, layerOf: seq<nat>, n: nat)
    requires n <= |layerOf|
  {
    forall l: nat :: IsRow(RowOf(layers, l), layerOf, l, n)
  }

  lemma NothingGrouped(layerOf: seq<nat>)
    ensures Grouped(map[], layerOf, 0)
  {
  }

  lemma RowIs(layers: map<nat, seq<nat>>, layerOf: seq<nat>, l: nat)
    requires Grouped(layers, layerOf, |layerOf|)
    ensures IsRow(RowOf(layers, l), layerOf, l, |layerOf|)
  {
  }

  lemma GroupStep(layers: map<nat, seq<nat>>, layerOf: seq<nat>, n: nat)
    requires n < |layerOf| && Grouped(layers, layerOf, n)
    ensures Grouped(layers[layerOf[n] := RowOf(layers, layerOf[n]) + [n]], layerOf, n + 1)
  {
    var grown := layers[layerOf[n] := RowOf(layers, layerOf[n]) + [n]];
    forall l: nat ensures IsRow(RowOf(grown, l), layerOf, l, n + 1) {
      assert IsRow(RowOf(layers, l), layerOf, l, n);
      if l == layerOf[n] {
        assert RowOf(grown, l)[|RowOf(layers, l)|] == n;
      } else {
        assert RowOf(grown, l) == RowOf(layers, l);
      }
    }
  }

  /** The `layers` / `tasksByDepth` map, with the largest key used. */
  method Group(layerOf: seq<nat>) returns (layers: map<nat, seq<nat>>, deepest: nat)
    ensures Grouped(layers, layerOf, |layerOf|)
    ensures forall k | 0 <= k < |layerOf| :: layerOf[k] <= deepest
    ensures deepest == 0 || deepest in layerOf
  {
    hide Grouped;
    layers := map[];
    deepest := 0;
    NothingGrouped(layerOf);
    var n: nat := 0;
    while n < |layerOf|
      invariant n <= |layerOf| && Grouped(layers, layerOf, n)
      invariant forall k | 0 <= k < n :: layerOf[k] <= deepest
      invariant deepest == 0 || deepest in layerOf
    {
      var l := layerOf[n];
      var row := if l in layers then layers[l] else [];
      GroupStep(layers, layerOf, n);
      assert row == RowOf(layers, l);
      layers := layers[l := row + [n]];
      deepest := Max(deepest, l);
      n := n + 1;
    }
  }

  /** Ranks within a layer grow with the position. */
  lemma {:induction false} RankGrows(layerOf: seq<nat>, j: nat, k: nat)
    requires j < k < |layerOf| && layerOf[j] == layerOf[k]
    ensures RankOf(layerOf, j) < RankOf(layerOf, k)
  {
    CountGrows(layerOf, layerOf[j], j + 1, k);
  }

  lemma {:induction false} CountGrows(layerOf: seq<nat>, l: nat, m: nat, n: nat)
    requires m <= n <= |layerOf|
    ensures CountAt(layerOf, l, m) <= CountAt(layerOf, l, n)
    decreases n
  {
    if m < n {
      CountGrows(layerOf, l, m, n - 1);
    }
  }

  // ------------------------------------------------------------ layoutDeps

  datatype TaskInfo = TaskInfo(id: TaskId, dependsOn: seq<TaskId>)
  datatype DepNode = DepNode(task: nat, id: TaskId, layer: nat, x: nat, y: nat)

  const DEP_STEP_X: nat := 132 + 12
  const DEP_STEP_Y: nat := 34 + 44

  function Inner(deps: seq<TaskId>, ids: set<TaskId>): seq<TaskId> {
    if deps == [] then [] else
      (if deps[0] in ids then [deps[0]] else []) + Inner(deps[1..], ids)
  }

  lemma {:induction false} InnerIs(deps: seq<TaskId>, ids: set<TaskId>, d: TaskId)
    ensures d in Inner(deps, ids) <==> d in deps && d in ids
  {
    if deps != [] {
      InnerIs(deps[1..], ids, d);
    }
  }

  /** The graph the office layout walks: edges to tasks outside the list dropped. */
  function InnerGraph(tasks: seq<TaskInfo>): Graph {
    var ids := set t | t in tasks :: t.id;
    ByLastId(tasks, ids)
  }

  function ByLastId(tasks: seq<TaskInfo>, ids: set<TaskId>): Graph
    ensures forall t | t in tasks :: t.id in ByLastId(tasks, ids)
  {
    if tasks == [] then map[]
    else
      var t := tasks[|tasks| - 1];
      ByLastId(tasks[..|tasks| - 1], ids)[t.id := Inner(t.dependsOn, ids)]
  }

  ghost predicate Listed(tasks: seq<TaskInfo>, id: TaskId) {
    exists k :: 0 <= k < |tasks| && tasks[k].id == id
  }

  /** The last task with its id: the one a lookup by id finds. */
  ghost predicate Found(tasks: seq<TaskInfo>, k: nat) {
    k < |tasks| && forall j | k < j < |tasks| :: tasks[j].id != tasks[k].id
  }

  /** Task `a` names `b` as a dependency, and `b` is listed too. */
  ghost predicate DependsOn(tasks: seq<TaskInfo>, a: TaskId, b: TaskId) {
    Listed(tasks, b) && exists k: nat :: Found(tasks, k) && tasks[k].id == a && b in tasks[k].dependsOn
  }

  ghost predicate IsTaskCycle(tasks: seq<TaskInfo>, c: seq<TaskId>) {
    |c| >= 2 && c[0] == c[|c| - 1] && forall i | 0 <= i < |c| - 1 :: DependsOn(tasks, c[i], c[i + 1])
  }

  ghost predicate NoTaskCycle(tasks: seq<TaskInfo>) {
    forall c: seq<TaskId> :: !IsTaskCycle(tasks, c)
  }

  lemma {:induction false} ByLastIdEdges(tasks: seq<TaskInfo>, ids: set<TaskId>, a: TaskId, b: TaskId)
    ensures Edge(ByLastId(tasks, ids), a, b)
            <==> b in ids && exists k: nat :: Found(tasks, k) && tasks[k].id == a && b in tasks[k].dependsOn
  {
    if tasks != [] {
      var n := |tasks| - 1;
      ByLastIdEdges(tasks[..n], ids, a, b);
      InnerIs(tasks[n].dependsOn, ids, b);
      if tasks[n].id == a {
        assert Found(tasks, n);
      } else {
        forall k: nat | k < n ensures Found(tasks, k) && tasks[k].id == a <==> Found(tasks[..n], k) && tasks[..n][k].id == a {
        }
      }
    }
  }

  /** The edges walked are exactly the dependencies on listed tasks. */
  lemma InnerEdges(tasks: seq<TaskInfo>, a: TaskId, b: TaskId)
    ensures Edge(InnerGraph(tasks), a, b) <==> DependsOn(tasks, a, b)
  {
    ListedIds(tasks);
    ByLastIdEdges(tasks, set t | t in tasks :: t.id, a, b);
  }

  lemma InnerAcyclic(tasks: seq<TaskInfo>)
    ensures Acyclic(InnerGraph(tasks)) <==> NoTaskCycle(tasks)
  {
    forall c: seq<TaskId> ensures IsCycle(InnerGraph(tasks), c) <==> IsTaskCycle(tasks, c) {
      forall i | 0 <= i < |c| - 1 ensures Edge(InnerGraph(tasks), c[i], c[i + 1]) <==> DependsOn(tasks, c[i], c[i + 1]) {
        InnerEdges(tasks, c[i], c[i + 1]);
      }
    }
  }

  ghost predicate OnGrid(n: DepNode, tasks: seq<TaskInfo>, layerOf: seq<nat>)
    requires |layerOf| == |tasks|
  {
    && n.task < |tasks| && n.id == tasks[n.task].id && n.layer == layerOf[n.task]
    && n.x == RankOf(layerOf, n.task) * DEP_STEP_X && n.y == n.layer * DEP_STEP_Y
  }

  ghost predicate AllOnGrid(nodes: seq<DepNode>, tasks: seq<TaskInfo>, layerOf: seq<nat>)
    requires |layerOf| == |tasks|
  {
    forall i | 0 <= i < |nodes| :: OnGrid(nodes[i], tasks, layerOf)
  }

  ghost predicate SamePlace(a: DepNode, b: DepNode) {
    a.x == b.x && a.y == b.y
  }

  ghost predicate DistinctPlaces(nodes: seq<DepNode>) {
    forall i, j | 0 <= i < j < |nodes| :: !SamePlace(nodes[i], nodes[j])
  }

  /** No task has two nodes. */
  ghost predicate OncePlaced(nodes: seq<DepNode>) {
    forall i, j | 0 <= i < j < |nodes| :: nodes[i].task != nodes[j].task
  }

  ghost predicate IsPlaced(nodes: seq<DepNode>, task: nat) {
    exists i | 0 <= i < |nodes| :: nodes[i].task == task
  }

  /** Nodes so far lie in earlier rows, or in this row left of `slot`. */
  ghost predicate Before(nodes: seq<DepNode>, layer: nat, slot: nat) {
    forall i | 0 <= i < |nodes| ::
      nodes[i].layer <= layer && (nodes[i].y < layer * DEP_STEP_Y || (nodes[i].y == layer * DEP_STEP_Y && nodes[i].x < slot * DEP_STEP_X))
  }

  /** Layer by layer, and in the order of the list within a layer. */
  ghost predicate Ordered(nodes: seq<DepNode>) {
    forall i, j | 0 <= i < j < |nodes| ::
      nodes[i].layer < nodes[j].layer || (nodes[i].layer == nodes[j].layer && nodes[i].task < nodes[j].task)
  }

  lemma OrderedOnce(nodes: seq<DepNode>, tasks: seq<TaskInfo>, layerOf: seq<nat>)
    requires |layerOf| == |tasks| && AllOnGrid(nodes, tasks, layerOf) && Ordered(nodes)
    ensures OncePlaced(nodes)
  {
    forall i, j | 0 <= i < j < |nodes| ensures nodes[i].task != nodes[j].task {
      assert OnGrid(nodes[i], tasks, layerOf) && OnGrid(nodes[j], tasks, layerOf);
    }
  }

  lemma RowAscends(row: seq<nat>, layerOf: seq<nat>, l: nat, i: nat, j: nat)
    requires IsRow(row, layerOf, l, |layerOf|) && i < j < |row|
    ensures row[i] < row[j]
  {
    if row[j] < row[i] {
      RankGrows(layerOf, row[j], row[i]);
    }
  }

  /** One row: the `members.forEach` of a layer. */
  method PlaceRow(nodes: seq<DepNode>, row: seq<nat>, layer: nat, tasks: seq<TaskInfo>, ghost layerOf: seq<nat>)
      returns (out: seq<DepNode>)
    requires |layerOf| == |tasks| && IsRow(row, layerOf, layer, |layerOf|)
    requires DistinctPlaces(nodes) && AllOnGrid(nodes, tasks, layerOf) && Ordered(nodes)
    requires layer == 0 ==> nodes == []
    requires layer > 0 ==> Before(nodes, layer - 1, |layerOf|)
    ensures DistinctPlaces(out) && AllOnGrid(out, tasks, layerOf) && Ordered(out) && Before(out, layer, |layerOf|)
    ensures nodes <= out && forall k | k in row :: IsPlaced(out, k)
  {
    out := nodes;
    var i := 0;
    RowFits(row, layerOf, layer);
    while i < |row|
      invariant i <= |row| && nodes <= out && |out| == |nodes| + i
      invariant DistinctPlaces(out) && AllOnGrid(out, tasks, layerOf) && Ordered(out) && Before(out, layer, i)
      invariant forall j | |nodes| <= j < |out| :: out[j].task == row[j - |nodes|] && out[j].layer == layer
      invariant forall j | 0 <= j < |nodes| :: out[j].layer < layer
    {
      var n := DepNode(row[i], tasks[row[i]].id, layer, i * DEP_STEP_X, layer * DEP_STEP_Y);
      forall j | 0 <= j < i ensures row[j] < row[i] {
        RowAscends(row, layerOf, layer, j, i);
      }
      out := out + [n];
      i := i + 1;
    }
    forall k | k in row ensures IsPlaced(out, k) {
      var j :| 0 <= j < |row| && row[j] == k;
      assert out[|nodes| + j].task == k;
    }
  }

  lemma RowFits(row: seq<nat>, layerOf: seq<nat>, l: nat)
    requires IsRow(row, layerOf, l, |layerOf|)
    ensures |row| <= |layerOf|
  {
    CountWithin(layerOf, l, |layerOf|);
  }

  lemma {:induction false} CountWithin(layerOf: seq<nat>, l: nat, n: nat)
    requires n <= |layerOf|
    ensures CountAt(layerOf, l, n) <= n
  {
    if n > 0 {
      CountWithin(layerOf, l, n - 1);
    }
  }

  ghost predicate RowsPlaced(nodes: seq<DepNode>, layerOf: seq<nat>, layer: nat) {
    forall k | 0 <= k < |layerOf| && layerOf[k] < layer :: IsPlaced(nodes, k)
  }

  function TasksOf(nodes: seq<DepNode>): set<nat> {
    set n | n in nodes :: n.task
  }

  lemma {:induction false} TasksOfSize(nodes: seq<DepNode>)
    requires OncePlaced(nodes)
    ensures |TasksOf(nodes)| == |nodes|
  {
    if nodes != [] {
      var n := |nodes| - 1;
      TasksOfSize(nodes[..n]);
      assert nodes == nodes[..n] + [nodes[n]];
      assert TasksOf(nodes) == TasksOf(nodes[..n]) + {nodes[n].task};
    }
  }

  function Below(n: nat): set<nat> {
    if n == 0 then {} else Below(n - 1) + {n - 1}
  }

  lemma {:induction false} BelowIs(n: nat)
    ensures |Below(n)| == n && forall k: nat :: k in Below(n) <==> k < n
  {
    if n > 0 {
      BelowIs(n - 1);
    }
  }

  /** Every task has a node and none has two, so there are as many nodes as tasks. */
  lemma OneNodeEach(nodes: seq<DepNode>, tasks: seq<TaskInfo>, layerOf: seq<nat>)
    requires |layerOf| == |tasks| && AllOnGrid(nodes, tasks, layerOf) && OncePlaced(nodes)
    requires forall k | 0 <= k < |tasks| :: IsPlaced(nodes, k)
    ensures |nodes| == |tasks|
  {
    BelowIs(|tasks|);
    forall k: nat ensures k in TasksOf(nodes) <==> k in Below(|tasks|) {
      if k in TasksOf(nodes) {
        var i :| 0 <= i < |nodes| && nodes[i].task == k;
        assert OnGrid(nodes[i], tasks, layerOf);
      }
      if k < |tasks| {
        assert IsPlaced(nodes, k);
      }
    }
    assert TasksOf(nodes) == Below(|tasks|);
    TasksOfSize(nodes);
  }

  method PlaceLayers(tasks: seq<TaskInfo>, layerOf: seq<nat>) returns (nodes: seq<DepNode>)
    requires |layerOf| == |tasks|
    ensures DistinctPlaces(nodes) && AllOnGrid(nodes, tasks, layerOf) && Ordered(nodes)
    ensures forall k | 0 <= k < |tasks| :: IsPlaced(nodes, k)
    ensures OncePlaced(nodes) && |nodes| == |tasks|
  {
    var layers, deepest := Group(layerOf);
    nodes := [];
    var layer := 0;
    while layer <= deepest
      invariant layer <= deepest + 1
      invariant DistinctPlaces(nodes) && AllOnGrid(nodes, tasks, layerOf) && Ordered(nodes)
      invariant if layer == 0 then nodes == [] else Before(nodes, layer - 1, |layerOf|)
      invariant RowsPlaced(nodes, layerOf, layer)
    {
      var row := if layer in layers then layers[layer] else [];
      assert IsRow(RowOf(layers, layer), layerOf, layer, |layerOf|);
      var out := PlaceRow(nodes, row, layer, tasks, layerOf);
      MoreRowsPlaced(nodes, out, layerOf, layer, row);
      nodes := out;
      layer := layer + 1;
    }
    OrderedOnce(nodes, tasks, layerOf);
    OneNodeEach(nodes, tasks, layerOf);
  }

  lemma MoreRowsPlaced(nodes: seq<DepNode>, out: seq<DepNode>, layerOf: seq<nat>, layer: nat, row: seq<nat>)
    requires RowsPlaced(nodes, layerOf, layer) && IsRow(row, layerOf, layer, |layerOf|)
    requires nodes <= out && forall k | k in row :: IsPlaced(out, k)
    ensures RowsPlaced(out, layerOf, layer + 1)
  {
    forall k | 0 <= k < |layerOf| && layerOf[k] < layer ensures IsPlaced(out, k) {
      assert IsPlaced(nodes, k);
      var i :| 0 <= i < |nodes| && nodes[i].task == k;
      assert out[i].task == k;
    }
  }

  /** Longest chain of `id` inside the listed tasks. */
  ghost predicate LayerIsDepth(n: DepNode, g: Graph) {
    LongestChain(g, n.id, n.layer)
  }

  /** Every node lies strictly below the nodes of the listed tasks it depends on. */
  ghost predicate DependenciesAbove(nodes: seq<DepNode>, tasks: seq<TaskInfo>) {
    forall i, j | 0 <= i < |nodes| && 0 <= j < |nodes| && DependsOn(tasks, nodes[i].id, nodes[j].id) ::
      nodes[j].layer < nodes[i].layer
  }

  datatype DepEdge = DepEdge(from: TaskId, to: TaskId)

  /** `layoutDeps`: every task gets one node, no two nodes share a place, rows come in order and
      are filled from the left. When no task depends on itself through others, the row is the
      length of the longest dependency chain and every dependency lies in a row above. */
  method LayoutDeps(tasks: seq<TaskInfo>) returns (nodes: seq<DepNode>, edges: seq<DepEdge>, ghost layerOf: seq<nat>)
    ensures |layerOf| == |tasks| && DistinctPlaces(nodes) && AllOnGrid(nodes, tasks, layerOf) && Ordered(nodes)
    ensures (forall k | 0 <= k < |tasks| :: IsPlaced(nodes, k)) && OncePlaced(nodes) && |nodes| == |tasks|
    ensures NoTaskCycle(tasks) ==>
              DependenciesAbove(nodes, tasks) && forall i | 0 <= i < |nodes| :: LayerIsDepth(nodes[i], InnerGraph(tasks))
    ensures forall e :: e in edges <==> IsDepEdge(tasks, e, |tasks|)
  {
    var g := InnerGraph(tasks);
    var memo := new DepthMemo(g);
    var i := 0;
    while i < |tasks|
      invariant i <= |tasks| && memo.g == g && fresh(memo)
      invariant forall k | 0 <= k < i :: tasks[k].id in memo.depth
      invariant Acyclic(g) ==> memo.Exact()
    {
      var id := tasks[i].id;
      assert tasks[i] in tasks && id in g;
      assert LeadsTo(g, [], id);
      var _ := memo.Visit(id, []);
      i := i + 1;
    }
    var depth := memo.depth;
    var layers := seq(|tasks|, k requires 0 <= k < |tasks| && tasks[k].id in depth => depth[tasks[k].id]);
    nodes := PlaceLayers(tasks, layers);
    layerOf := layers;
    edges := DepEdges(tasks);
    InnerAcyclic(tasks);
    if Acyclic(g) {
      LayersAreDepths(tasks, nodes, layers);
    }
  }

  lemma LayersAreDepths(tasks: seq<TaskInfo>, nodes: seq<DepNode>, layerOf: seq<nat>)
    requires var g := InnerGraph(tasks); Acyclic(g) && |layerOf| == |tasks| && AllOnGrid(nodes, tasks, layerOf)
    requires forall k | 0 <= k < |tasks| :: layerOf[k] == DepthOf(InnerGraph(tasks), tasks[k].id, [])
    ensures DependenciesAbove(nodes, tasks) && forall i | 0 <= i < |nodes| :: LayerIsDepth(nodes[i], InnerGraph(tasks))
  {
    var g := InnerGraph(tasks);
    forall j | 0 <= j < |nodes| ensures LayerIsDepth(nodes[j], g) && nodes[j].layer == DepthOf(g, nodes[j].id, []) {
      assert OnGrid(nodes[j], tasks, layerOf);
      assert LeadsTo(g, [], nodes[j].id);
      DepthIsLongestChain(g, nodes[j].id, []);
    }
    forall i, j | 0 <= i < |nodes| && 0 <= j < |nodes| && DependsOn(tasks, nodes[i].id, nodes[j].id)
      ensures nodes[j].layer < nodes[i].layer
    {
      InnerEdges(tasks, nodes[i].id, nodes[j].id);
      DependencyIsLower(g, nodes[i].id, nodes[j].id);
    }
  }

  /** One of the first `n` tasks names a listed task as its dependency. */
  ghost predicate IsDepEdge(tasks: seq<TaskInfo>, e: DepEdge, n: nat)
    requires n <= |tasks|
  {
    Listed(tasks, e.from) && exists k :: 0 <= k < n && tasks[k].id == e.to && e.from in tasks[k].dependsOn
  }

  method DepEdges(tasks: seq<TaskInfo>) returns (edges: seq<DepEdge>)
    ensures forall e :: e in edges <==> IsDepEdge(tasks, e, |tasks|)
  {
    edges := [];
    var ids := set t | t in tasks :: t.id;
    for i := 0 to |tasks|
      invariant forall e :: e in edges <==> IsDepEdge(tasks, e, i)
    {
      var more: seq<DepEdge> := [];
      for d := 0 to |tasks[i].dependsOn|
        invariant forall e :: e in more <==> e.to == tasks[i].id && e.from in tasks[i].dependsOn[..d] && e.from in ids
      {
        var dep := tasks[i].dependsOn[d];
        assert tasks[i].dependsOn[..d + 1] == tasks[i].dependsOn[..d] + [dep];
        if dep in ids {
          more := more + [DepEdge(dep, tasks[i].id)];
        }
      }
      assert tasks[i].dependsOn[..|tasks[i].dependsOn|] == tasks[i].dependsOn;
      ListedIds(tasks);
      forall e ensures e in edges + more <==> IsDepEdge(tasks, e, i + 1) {
        assert e in edges <==> IsDepEdge(tasks, e, i);
      }
      edges := edges + more;
    }
  }

  lemma ListedIds(tasks: seq<TaskInfo>)
    ensures forall id :: Listed(tasks, id) <==> id in set t | t in tasks :: t.id
  {
    forall id | Listed(tasks, id) ensures id in set t | t in tasks :: t.id {
      var k :| 0 <= k < |tasks| && tasks[k].id == id;
      assert tasks[k] in tasks;
    }
    forall t | t in tasks ensures Listed(tasks, t.id) {
      var k :| 0 <= k < |tasks| && tasks[k] == t;
      assert tasks[k].id == t.id;
    }
  }

  // ------------------------------------------------------------ layoutGraph

  datatype Kind = Requirement | Task | Agent | File | Commit | Test | Evidence
  datatype GraphNode = GraphNode(id: TaskId, kind: Kind, dependsOn: seq<TaskId>)
  datatype Position = Position(x: nat, y: nat)

  const GRAPH_STEP_Y: nat := 46 + 16

  /** Ids of the nodes of one kind, in order. */
  function OfKind(nodes: seq<GraphNode>, kind: Kind): seq<TaskId> {
    if nodes == [] then [] else
      (if nodes[0].kind == kind then [nodes[0].id] else []) + OfKind(nodes[1..], kind)
  }

  /** `taskDeps`: the dependencies that are nodes of the graph. */
  function TaskDeps(nodes: seq<GraphNode>, ids: set<TaskId>): Graph {
    if nodes == [] then map[]
    else
      var n := nodes[|nodes| - 1];
      var rest := TaskDeps(nodes[..|nodes| - 1], ids);
      if n.kind == Task then rest[n.id := Inner(n.dependsOn, ids)] else rest
  }

  /** The last task node with its id. */
  ghost predicate FoundTask(nodes: seq<GraphNode>, k: nat) {
    && k < |nodes| && nodes[k].kind == Task
    && forall j | k < j < |nodes| && nodes[j].kind == Task :: nodes[j].id != nodes[k].id
  }

  /** Task node `a` names `b` as a dependency, and `b` is a node too. */
  ghost predicate LinksTo(nodes: seq<GraphNode>, a: TaskId, b: TaskId) {
    b in IdSet(nodes) && exists k: nat :: FoundTask(nodes, k) && nodes[k].id == a && b in nodes[k].dependsOn
  }

  ghost predicate IsLinkCycle(nodes: seq<GraphNode>, c: seq<TaskId>) {
    |c| >= 2 && c[0] == c[|c| - 1] && forall i | 0 <= i < |c| - 1 :: LinksTo(nodes, c[i], c[i + 1])
  }

  ghost predicate NoLinkCycle(nodes: seq<GraphNode>) {
    forall c: seq<TaskId> :: !IsLinkCycle(nodes, c)
  }

  lemma {:induction false} TaskDepsEdges(nodes: seq<GraphNode>, ids: set<TaskId>, a: TaskId, b: TaskId)
    ensures Edge(TaskDeps(nodes, ids), a, b)
            <==> b in ids && exists k: nat :: FoundTask(nodes, k) && nodes[k].id == a && b in nodes[k].dependsOn
  {
    if nodes != [] {
      var n := |nodes| - 1;
      TaskDepsEdges(nodes[..n], ids, a, b);
      InnerIs(nodes[n].dependsOn, ids, b);
      if nodes[n].id == a && nodes[n].kind == Task {
        assert FoundTask(nodes, n);
      } else {
        forall k: nat | k < n ensures FoundTask(nodes, k) && nodes[k].id == a <==> FoundTask(nodes[..n], k) && nodes[..n][k].id == a {
        }
      }
    }
  }

  lemma LinksAcyclic(nodes: seq<GraphNode>)
    ensures Acyclic(TaskDeps(nodes, IdSet(nodes))) <==> NoLinkCycle(nodes)
  {
    var g := TaskDeps(nodes, IdSet(nodes));
    forall c: seq<TaskId> ensures IsCycle(g, c) <==> IsLinkCycle(nodes, c) {
      forall i | 0 <= i < |c| - 1 ensures Edge(g, c[i], c[i + 1]) <==> LinksTo(nodes, c[i], c[i + 1]) {
        TaskDepsEdges(nodes, IdSet(nodes), c[i], c[i + 1]);
      }
    }
  }

  ghost predicate Injective(pos: map<TaskId, Position>) {
    forall a, b | a in pos && b in pos && a != b :: pos[a] != pos[b]
  }

  /** No placed node stands in column `x` or to its right. */
  ghost predicate LeftOf(pos: map<TaskId, Position>, x: nat) {
    forall a | a in pos :: pos[a].x < x
  }

  /** No placed node stands at row `i` of column `x` or below or right of it. */
  ghost predicate Above(pos: map<TaskId, Position>, x: nat, i: nat) {
    forall a | a in pos :: pos[a].x < x || (pos[a].x == x && pos[a].y < i * GRAPH_STEP_Y)
  }

  /** The list stands in this column, from the top. */
  ghost predicate InColumn(pos: map<TaskId, Position>, list: seq<TaskId>, x: nat) {
    forall i | 0 <= i < |list| :: list[i] in pos && pos[list[i]] == Position(x, i * GRAPH_STEP_Y)
  }

  /** `place`: one column, top to bottom. */
  method Place(pos: map<TaskId, Position>, list: seq<TaskId>, x: nat) returns (out: map<TaskId, Position>)
    requires Injective(pos) && LeftOf(pos, x)
    ensures Injective(out) && LeftOf(out, x + 1)
    ensures out.Keys == pos.Keys + set id | id in list
    ensures NoDuplicates(list) ==> InColumn(out, list, x)
    ensures forall id | id in pos && id !in list :: out[id] == pos[id]
  {
    out := pos;
    var i := 0;
    while i < |list|
      invariant i <= |list| && Injective(out) && Above(out, x, i)
      invariant out.Keys == pos.Keys + set id | id in list[..i]
      invariant NoDuplicates(list) ==> InColumn(out, list[..i], x)
      invariant forall id | id in pos && id !in list[..i] :: out[id] == pos[id]
    {
      out := out[list[i] := Position(x, i * GRAPH_STEP_Y)];
      assert list[..i + 1] == list[..i] + [list[i]];
      i := i + 1;
    }
    assert list[..|list|] == list;
  }

  /** Each task in the column of its layer, at its rank among the tasks of that layer. */
  ghost predicate InLayers(pos: map<TaskId, Position>, tasks: seq<TaskId>, layerOf: seq<nat>, layer: nat)
    requires |layerOf| == |tasks|
  {
    forall k | 0 <= k < |tasks| && layerOf[k] < layer ::
      tasks[k] in pos && pos[tasks[k]] == Position(1 + layerOf[k], RankOf(layerOf, k) * GRAPH_STEP_Y)
  }

  /** The task columns: `1 + depth` for a task of that depth. */
  method PlaceTasks(pos: map<TaskId, Position>, tasks: seq<TaskId>, layerOf: seq<nat>)
      returns (out: map<TaskId, Position>, maxDepth: nat)
    requires |layerOf| == |tasks| && Injective(pos) && LeftOf(pos, 1)
    ensures Injective(out) && LeftOf(out, 2 + maxDepth)
    ensures out.Keys == pos.Keys + set id | id in tasks
    ensures NoDuplicates(tasks) ==> InLayers(out, tasks, layerOf, maxDepth + 1)
    ensures forall k | 0 <= k < |tasks| :: layerOf[k] <= maxDepth
    ensures maxDepth == 0 || maxDepth in layerOf
    ensures forall id | id in pos && id !in tasks :: out[id] == pos[id]
  {
    hide ColumnsDone, Injective, LeftOf, NoDuplicates, InColumn, Grouped, InLayers;
    var layers, deepest := Group(layerOf);
    maxDepth := deepest;
    out := pos;
    var layer := 0;
    NoColumnsYet(pos, tasks, layerOf);
    while layer <= maxDepth
      invariant layer <= maxDepth + 1 && Injective(out) && LeftOf(out, 1 + layer)
      invariant ColumnsDone(pos, out, tasks, layerOf, layer)
    {
      out := PlaceColumn(pos, out, tasks, layerOf, layers, layer);
      layer := layer + 1;
    }
    AllColumnsDone(pos, out, tasks, layerOf, layer);
  }

  /** One task column: the tasks of this layer in list order. */
  method PlaceColumn(ghost start: map<TaskId, Position>, pos: map<TaskId, Position>, tasks: seq<TaskId>, layerOf: seq<nat>,
                     layers: map<nat, seq<nat>>, layer: nat) returns (out: map<TaskId, Position>)
    requires |layerOf| == |tasks| && Grouped(layers, layerOf, |layerOf|)
    requires Injective(pos) && LeftOf(pos, 1 + layer) && ColumnsDone(start, pos, tasks, layerOf, layer)
    ensures Injective(out) && LeftOf(out, 2 + layer) && ColumnsDone(start, out, tasks, layerOf, layer + 1)
  {
    hide ColumnsDone, Injective, LeftOf, NoDuplicates, InColumn, Grouped;
    var row := if layer in layers then layers[layer] else [];
    RowIs(layers, layerOf, layer);
    var list := seq(|row|, i requires 0 <= i < |row| => tasks[row[i]]);
    out := Place(pos, list, 1 + layer);
    ColumnStep(start, pos, out, tasks, layerOf, layer, row, list);
  }

  lemma NoColumnsYet(pos: map<TaskId, Position>, tasks: seq<TaskId>, layerOf: seq<nat>)
    requires |layerOf| == |tasks|
    ensures ColumnsDone(pos, pos, tasks, layerOf, 0)
  {
  }

  lemma AllColumnsDone(pos: map<TaskId, Position>, out: map<TaskId, Position>, tasks: seq<TaskId>, layerOf: seq<nat>, layer: nat)
    requires |layerOf| == |tasks| && ColumnsDone(pos, out, tasks, layerOf, layer)
    requires forall k | 0 <= k < |tasks| :: layerOf[k] < layer
    ensures out.Keys == pos.Keys + set id | id in tasks
    ensures NoDuplicates(tasks) ==> InLayers(out, tasks, layerOf, layer)
    ensures forall id | id in pos && id !in tasks :: out[id] == pos[id]
  {
    forall id | id in tasks ensures id in out {
      var k :| 0 <= k < |tasks| && tasks[k] == id;
    }
  }

  ghost predicate ColumnsDone(pos: map<TaskId, Position>, out: map<TaskId, Position>,
                              tasks: seq<TaskId>, layerOf: seq<nat>, layer: nat)
    requires |layerOf| == |tasks|
  {
    && pos.Keys <= out.Keys <= pos.Keys + (set id | id in tasks)
    && (forall k | 0 <= k < |tasks| && layerOf[k] < layer :: tasks[k] in out)
    && (NoDuplicates(tasks) ==> InLayers(out, tasks, layerOf, layer))
    && (forall id | id in pos && id !in tasks :: out[id] == pos[id])
  }

  lemma ColumnStep(pos: map<TaskId, Position>, before: map<TaskId, Position>, out: map<TaskId, Position>,
                   tasks: seq<TaskId>, layerOf: seq<nat>, layer: nat, row: seq<nat>, list: seq<TaskId>)
    requires |layerOf| == |tasks| && ColumnsDone(pos, before, tasks, layerOf, layer) && IsRow(row, layerOf, layer, |layerOf|)
    requires |list| == |row| && forall i | 0 <= i < |row| :: list[i] == tasks[row[i]]
    requires out.Keys == before.Keys + set id | id in list
    requires NoDuplicates(list) ==> InColumn(out, list, 1 + layer)
    requires forall id | id in before && id !in list :: out[id] == before[id]
    ensures ColumnsDone(pos, out, tasks, layerOf, layer + 1)
  {
    forall id | id in list ensures id in tasks {
      var i :| 0 <= i < |list| && list[i] == id;
    }
    forall k | 0 <= k < |tasks| && layerOf[k] == layer ensures tasks[k] in list {
      assert k in row;
      var i :| 0 <= i < |row| && row[i] == k;
      assert list[i] == tasks[k];
    }
    if NoDuplicates(tasks) {
      ListDistinct(tasks, layerOf, layer, row, list);
      LayerDone(before, out, tasks, layerOf, layer, row, list);
    }
  }

  lemma ListDistinct(tasks: seq<TaskId>, layerOf: seq<nat>, layer: nat, row: seq<nat>, list: seq<TaskId>)
    requires |layerOf| == |tasks| && NoDuplicates(tasks) && IsRow(row, layerOf, layer, |layerOf|)
    requires |list| == |row| && forall i | 0 <= i < |row| :: list[i] == tasks[row[i]]
    ensures NoDuplicates(list)
  {
    forall i, j | 0 <= i < j < |list| ensures list[i] != list[j] {
      RowAscends(row, layerOf, layer, i, j);
    }
  }

  lemma LayerDone(before: map<TaskId, Position>, out: map<TaskId, Position>,
                  tasks: seq<TaskId>, layerOf: seq<nat>, layer: nat, row: seq<nat>, list: seq<TaskId>)
    requires |layerOf| == |tasks| && NoDuplicates(tasks) && IsRow(row, layerOf, layer, |layerOf|)
    requires |list| == |row| && forall i | 0 <= i < |row| :: list[i] == tasks[row[i]]
    requires InLayers(before, tasks, layerOf, layer) && before.Keys <= out.Keys && InColumn(out, list, 1 + layer)
    requires forall id | id in before && id !in list :: out[id] == before[id]
    ensures InLayers(out, tasks, layerOf, layer + 1)
  {
    forall k | 0 <= k < |tasks| && layerOf[k] < layer + 1
      ensures tasks[k] in out && out[tasks[k]] == Position(1 + layerOf[k], RankOf(layerOf, k) * GRAPH_STEP_Y)
    {
      TaskDone(before, out, tasks, layerOf, layer, row, list, k);
    }
  }

  lemma TaskDone(before: map<TaskId, Position>, out: map<TaskId, Position>,
                 tasks: seq<TaskId>, layerOf: seq<nat>, layer: nat, row: seq<nat>, list: seq<TaskId>, k: nat)
    requires |layerOf| == |tasks| && NoDuplicates(tasks) && IsRow(row, layerOf, layer, |layerOf|)
    requires |list| == |row| && forall i | 0 <= i < |row| :: list[i] == tasks[row[i]]
    requires InLayers(before, tasks, layerOf, layer) && before.Keys <= out.Keys && InColumn(out, list, 1 + layer)
    requires forall id | id in before && id !in list :: out[id] == before[id]
    requires k < |tasks| && layerOf[k] < layer + 1
    ensures tasks[k] in out && out[tasks[k]] == Position(1 + layerOf[k], RankOf(layerOf, k) * GRAPH_STEP_Y)
  {
    hide RankOf;
    if layerOf[k] == layer {
      assert k in row;
      var i :| 0 <= i < |row| && row[i] == k;
      assert list[i] == tasks[k];
    } else {
      assert forall i | 0 <= i < |list| :: row[i] != k && list[i] != tasks[k];
    }
  }

  const LANES: nat := 4

  /** The typed lanes, left to right. */
  function Lane(i: nat): Kind
    requires i < LANES
  {
    match i
    case 0 => File
    case 1 => Commit
    case 2 => Test
    case 3 => Evidence
  }

  /** How many of the first `n` lanes have a node. */
  function Filled(nodes: seq<GraphNode>, n: nat): nat
    requires n <= LANES
  {
    if n == 0 then 0 else Filled(nodes, n - 1) + if OfKind(nodes, Lane(n - 1)) != [] then 1 else 0
  }

  ghost predicate KeepsPlaces(before: map<TaskId, Position>, after: map<TaskId, Position>, ids: seq<TaskId>) {
    forall id | id in ids && id in before :: id in after && after[id] == before[id]
  }

  /** This lane is placed, and with distinct ids right of the filled lanes before it. */
  ghost predicate LaneDone(pos: map<TaskId, Position>, nodes: seq<GraphNode>, x: nat, j: nat)
    requires j < LANES
  {
    var list := OfKind(nodes, Lane(j));
    AllPlaced(pos, list) && (DistinctIds(nodes) ==> InColumn(pos, list, x + Filled(nodes, j)))
  }

  /** The typed lanes right of the agents; empty lanes take no column. */
  method PlaceLanes(start: map<TaskId, Position>, nodes: seq<GraphNode>, x: nat) returns (pos: map<TaskId, Position>)
    requires Injective(start) && LeftOf(start, x)
    ensures Injective(pos) && LanesDone(start, pos, nodes, x, LANES)
  {
    hide Injective, LeftOf, LanesDone, OfKind, Put, Lane, Filled;
    pos := start;
    var leafX := x;
    var i := 0;
    LanesStart(start, nodes, x);
    while i < LANES
      invariant i <= LANES && Injective(pos) && LeftOf(pos, leafX)
      invariant leafX == x + Filled(nodes, i) && LanesDone(start, pos, nodes, x, i)
    {
      var list := OfKind(nodes, Lane(i));
      ghost var before := pos;
      pos := PlaceLane(pos, list, leafX);
      LaneStep(start, before, pos, nodes, x, i);
      leafX := if list != [] then leafX + 1 else leafX;
      i := i + 1;
    }
  }

  /** One lane, if it has a node. */
  method PlaceLane(pos: map<TaskId, Position>, list: seq<TaskId>, x: nat) returns (out: map<TaskId, Position>)
    requires Injective(pos) && LeftOf(pos, x)
    ensures Injective(out) && LeftOf(out, if list == [] then x else x + 1) && Put(pos, out, list, x)
  {
    out := pos;
    if list != [] {
      out := Place(pos, list, x);
    }
  }

  /** The first `n` lanes are placed, and with distinct ids no node of another kind has moved. */
  ghost predicate LanesDone(start: map<TaskId, Position>, pos: map<TaskId, Position>, nodes: seq<GraphNode>, x: nat, n: nat)
    requires n <= LANES
  {
    && start.Keys <= pos.Keys
    && (forall j | 0 <= j < n :: LaneDone(pos, nodes, x, j))
    && (DistinctIds(nodes) ==> OthersStand(start, pos, nodes))
  }

  ghost predicate OthersStand(start: map<TaskId, Position>, pos: map<TaskId, Position>, nodes: seq<GraphNode>) {
    && KeepsPlaces(start, pos, OfKind(nodes, Requirement)) && KeepsPlaces(start, pos, OfKind(nodes, Task))
    && KeepsPlaces(start, pos, OfKind(nodes, Agent))
  }

  /** `pos` is `before` with this list put in column `x`, if it is not empty. */
  ghost predicate Put(before: map<TaskId, Position>, pos: map<TaskId, Position>, list: seq<TaskId>, x: nat) {
    && before.Keys <= pos.Keys && AllPlaced(pos, list)
    && (list == [] ==> pos == before) && (NoDuplicates(list) && list != [] ==> InColumn(pos, list, x))
    && forall id | id in before && id !in list :: pos[id] == before[id]
  }

  lemma LanesStart(start: map<TaskId, Position>, nodes: seq<GraphNode>, x: nat)
    ensures LanesDone(start, start, nodes, x, 0) && Filled(nodes, 0) == 0
  {
    hide OfKind, DistinctIds;
  }

  lemma LaneStep(start: map<TaskId, Position>, before: map<TaskId, Position>, pos: map<TaskId, Position>,
                 nodes: seq<GraphNode>, x: nat, i: nat)
    requires i < LANES && LanesDone(start, before, nodes, x, i)
    requires Put(before, pos, OfKind(nodes, Lane(i)), x + Filled(nodes, i))
    ensures LanesDone(start, pos, nodes, x, i + 1)
    ensures Filled(nodes, i + 1) == Filled(nodes, i) + if OfKind(nodes, Lane(i)) == [] then 0 else 1
  {
    hide Put, LaneDone, OfKind, DistinctIds, OthersStand, Lane;
    PutKeys(before, pos, OfKind(nodes, Lane(i)), x + Filled(nodes, i));
    forall j | 0 <= j < i ensures LaneDone(pos, nodes, x, j) {
      LaneStands(before, pos, nodes, x, j, i);
    }
    LanePut(before, pos, nodes, x, i);
    if DistinctIds(nodes) {
      OthersStill(start, before, pos, nodes, i, x + Filled(nodes, i));
    }
  }

  lemma PutKeys(before: map<TaskId, Position>, pos: map<TaskId, Position>, list: seq<TaskId>, x: nat)
    requires Put(before, pos, list, x)
    ensures before.Keys <= pos.Keys
  {
  }

  lemma LanePut(before: map<TaskId, Position>, pos: map<TaskId, Position>, nodes: seq<GraphNode>, x: nat, i: nat)
    requires i < LANES && Put(before, pos, OfKind(nodes, Lane(i)), x + Filled(nodes, i))
    ensures LaneDone(pos, nodes, x, i)
  {
    if DistinctIds(nodes) {
      TasksDistinct(nodes, Lane(i));
    }
  }

  lemma LaneStands(before: map<TaskId, Position>, pos: map<TaskId, Position>, nodes: seq<GraphNode>, x: nat, j: nat, i: nat)
    requires j < i < LANES && LaneDone(before, nodes, x, j)
    requires Put(before, pos, OfKind(nodes, Lane(i)), x + Filled(nodes, i))
    ensures LaneDone(pos, nodes, x, j)
  {
    hide OfKind, DistinctIds, Filled, Put, InColumn, AllPlaced;
    PutKeeps(before, pos, OfKind(nodes, Lane(j)), OfKind(nodes, Lane(i)), x + Filled(nodes, i));
    if DistinctIds(nodes) {
      KindsDisjoint(nodes, Lane(j), Lane(i));
      ColumnStands(before, pos, OfKind(nodes, Lane(j)), OfKind(nodes, Lane(i)), x + Filled(nodes, j), x + Filled(nodes, i));
    }
  }

  lemma PutKeeps(before: map<TaskId, Position>, pos: map<TaskId, Position>, list: seq<TaskId>, put: seq<TaskId>, y: nat)
    requires AllPlaced(before, list) && Put(before, pos, put, y)
    ensures AllPlaced(pos, list)
  {
  }

  lemma ColumnStands(before: map<TaskId, Position>, pos: map<TaskId, Position>, list: seq<TaskId>, put: seq<TaskId>, x: nat, y: nat)
    requires InColumn(before, list, x) && Put(before, pos, put, y) && forall id | id in list :: id !in put
    ensures InColumn(pos, list, x)
  {
  }

  lemma PlacesStand(start: map<TaskId, Position>, before: map<TaskId, Position>, pos: map<TaskId, Position>,
                    ids: seq<TaskId>, put: seq<TaskId>, y: nat)
    requires KeepsPlaces(start, before, ids) && Put(before, pos, put, y) && forall id | id in ids :: id !in put
    ensures KeepsPlaces(start, pos, ids)
  {
  }

  lemma OthersStill(start: map<TaskId, Position>, before: map<TaskId, Position>, pos: map<TaskId, Position>,
                    nodes: seq<GraphNode>, i: nat, y: nat)
    requires i < LANES && DistinctIds(nodes) && OthersStand(start, before, nodes)
    requires Put(before, pos, OfKind(nodes, Lane(i)), y)
    ensures OthersStand(start, pos, nodes)
  {
    hide OfKind, DistinctIds, Put, KeepsPlaces;
    var lane := Lane(i);
    KindsDisjoint(nodes, Requirement, lane);
    KindsDisjoint(nodes, Task, lane);
    KindsDisjoint(nodes, Agent, lane);
    PlacesStand(start, before, pos, OfKind(nodes, Requirement), OfKind(nodes, lane), y);
    PlacesStand(start, before, pos, OfKind(nodes, Task), OfKind(nodes, lane), y);
    PlacesStand(start, before, pos, OfKind(nodes, Agent), OfKind(nodes, lane), y);
  }

  ghost predicate ColumnIsDepth(pos: map<TaskId, Position>, g: Graph, id: TaskId) {
    id in pos && pos[id].x >= 1 && LongestChain(g, id, pos[id].x - 1)
  }

  ghost predicate AllColumns(pos: map<TaskId, Position>, g: Graph, ids: seq<TaskId>) {
    forall id | id in ids :: ColumnIsDepth(pos, g, id)
  }

  lemma ColumnsAreDepths(g: Graph, tasks: seq<TaskId>, layerOf: seq<nat>, columns: map<TaskId, Position>)
    requires Acyclic(g) && |layerOf| == |tasks|
    requires forall k | 0 <= k < |tasks| :: layerOf[k] == DepthOf(g, tasks[k], [])
    requires forall k | 0 <= k < |tasks| :: tasks[k] in columns && columns[tasks[k]].x == 1 + layerOf[k]
    ensures AllColumns(columns, g, tasks)
  {
    forall id | id in tasks ensures ColumnIsDepth(columns, g, id) {
      var k :| 0 <= k < |tasks| && tasks[k] == id;
      assert LeadsTo(g, [], id);
      DepthIsLongestChain(g, id, []);
    }
  }

  lemma AllKindsPlaced(pos: map<TaskId, Position>, nodes: seq<GraphNode>)
    requires forall k: Kind :: AllPlaced(pos, OfKind(nodes, k))
    ensures forall n | n in nodes :: n.id in pos
  {
    forall n | n in nodes ensures n.id in pos {
      KindListed(nodes, n);
      assert AllPlaced(pos, OfKind(nodes, n.kind));
    }
  }

  /** Requirements first, the tasks by layer, the agents right of the deepest task. */
  ghost predicate ColumnsPlaced(pos: map<TaskId, Position>, nodes: seq<GraphNode>, layerOf: seq<nat>, deepest: nat) {
    && |layerOf| == |OfKind(nodes, Task)|
    && (forall k | 0 <= k < |layerOf| :: layerOf[k] <= deepest) && (deepest == 0 || deepest in layerOf)
    && InColumn(pos, OfKind(nodes, Requirement), 0) && InLayers(pos, OfKind(nodes, Task), layerOf, deepest + 1)
    && InColumn(pos, OfKind(nodes, Agent), 2 + deepest)
  }

  /** The requirement, task and agent columns. */
  method PlaceColumns(nodes: seq<GraphNode>, g: Graph)
      returns (pos: map<TaskId, Position>, next: nat, ghost layerOf: seq<nat>, ghost deepest: nat)
    ensures Injective(pos) && LeftOf(pos, next) && next == 3 + deepest
    ensures AllPlaced(pos, OfKind(nodes, Requirement)) && AllPlaced(pos, OfKind(nodes, Task))
    ensures AllPlaced(pos, OfKind(nodes, Agent))
    ensures DistinctIds(nodes) ==> ColumnsPlaced(pos, nodes, layerOf, deepest)
    ensures DistinctIds(nodes) && Acyclic(g) ==> AllColumns(pos, g, OfKind(nodes, Task))
  {
    hide Injective, LeftOf, DistinctIds, NoDuplicates, InLayers, InColumn, OfKind, ColumnsPlaced, AllColumns;
    var requirements, tasks, agents := OfKind(nodes, Requirement), OfKind(nodes, Task), OfKind(nodes, Agent);
    NothingInjective();
    var first := Place(map[], requirements, 0);
    var layers := seq(|tasks|, k requires 0 <= k < |tasks| => DepthOf(g, tasks[k], []));
    var columns, maxDepth := PlaceTasks(first, tasks, layers);
    pos := Place(columns, agents, 2 + maxDepth);
    next, layerOf, deepest := 2 + maxDepth + 1, layers, maxDepth;
    if DistinctIds(nodes) {
      ColumnsStand(nodes, layers, maxDepth, first, columns, pos);
      if Acyclic(g) {
        TaskColumns(pos, tasks, layers, maxDepth);
        ColumnsAreDepths(g, tasks, layers, pos);
      }
    }
  }

  lemma NothingInjective()
    ensures Injective(map[]) && LeftOf(map[], 0)
  {
  }

  lemma TaskColumns(pos: map<TaskId, Position>, tasks: seq<TaskId>, layerOf: seq<nat>, deepest: nat)
    requires |layerOf| == |tasks| && InLayers(pos, tasks, layerOf, deepest + 1)
    requires forall k | 0 <= k < |tasks| :: layerOf[k] <= deepest
    ensures forall k | 0 <= k < |tasks| :: tasks[k] in pos && pos[tasks[k]].x == 1 + layerOf[k]
  {
  }

  /** What one column was given stays when the others follow. */
  lemma ColumnsStand(nodes: seq<GraphNode>, layerOf: seq<nat>, deepest: nat,
                     first: map<TaskId, Position>, columns: map<TaskId, Position>, pos: map<TaskId, Position>)
    requires DistinctIds(nodes)
    requires var requirements, tasks, agents := OfKind(nodes, Requirement), OfKind(nodes, Task), OfKind(nodes, Agent);
             && |layerOf| == |tasks| && (NoDuplicates(requirements) ==> InColumn(first, requirements, 0))
             && (NoDuplicates(tasks) ==> InLayers(columns, tasks, layerOf, deepest + 1))
             && (NoDuplicates(agents) ==> InColumn(pos, agents, 2 + deepest))
             && first.Keys <= columns.Keys <= pos.Keys
             && (forall id | id in first && id !in tasks :: columns[id] == first[id])
             && (forall id | id in columns && id !in agents :: pos[id] == columns[id])
    requires (forall k | 0 <= k < |layerOf| :: layerOf[k] <= deepest) && (deepest == 0 || deepest in layerOf)
    ensures ColumnsPlaced(pos, nodes, layerOf, deepest) && InLayers(pos, OfKind(nodes, Task), layerOf, deepest + 1)
  {
    TasksDistinct(nodes, Requirement);
    TasksDistinct(nodes, Task);
    TasksDistinct(nodes, Agent);
    KindsDisjoint(nodes, Requirement, Task);
    KindsDisjoint(nodes, Requirement, Agent);
    KindsDisjoint(nodes, Task, Agent);
  }

  /** A task stands right of every task it depends on. */
  ghost predicate DependenciesLeft(pos: map<TaskId, Position>, nodes: seq<GraphNode>) {
    forall i, j | 0 <= i < |nodes| && 0 <= j < |nodes| && nodes[i].kind == Task && nodes[j].kind == Task
                  && LinksTo(nodes, nodes[i].id, nodes[j].id) ::
      nodes[i].id in pos && nodes[j].id in pos && pos[nodes[j].id].x < pos[nodes[i].id].x
  }

  lemma DependenciesStandLeft(pos: map<TaskId, Position>, nodes: seq<GraphNode>)
    requires var g := TaskDeps(nodes, IdSet(nodes)); Acyclic(g) && AllColumns(pos, g, OfKind(nodes, Task))
    ensures DependenciesLeft(pos, nodes)
  {
    var g := TaskDeps(nodes, IdSet(nodes));
    forall i, j | 0 <= i < |nodes| && 0 <= j < |nodes| && nodes[i].kind == Task && nodes[j].kind == Task
                  && LinksTo(nodes, nodes[i].id, nodes[j].id)
      ensures nodes[i].id in pos && nodes[j].id in pos && pos[nodes[j].id].x < pos[nodes[i].id].x
    {
      var a, b := nodes[i].id, nodes[j].id;
      KindListed(nodes, nodes[i]);
      KindListed(nodes, nodes[j]);
      TaskDepsEdges(nodes, IdSet(nodes), a, b);
      assert ColumnIsDepth(pos, g, a) && ColumnIsDepth(pos, g, b);
      assert LeadsTo(g, [], a) && LeadsTo(g, [], b);
      DepthIsLongestChain(g, a, []);
      DepthIsLongestChain(g, b, []);
      LongestChainUnique(g, a, DepthOf(g, a, []), pos[a].x - 1);
      LongestChainUnique(g, b, DepthOf(g, b, []), pos[b].x - 1);
      DependencyIsLower(g, a, b);
    }
  }

  /** Files, commits, tests and evidence side by side from column `x` on, without a gap for a kind
      that has no node. */
  ghost predicate SideBySide(pos: map<TaskId, Position>, nodes: seq<GraphNode>, x: nat) {
    var files, commits, tests := OfKind(nodes, File), OfKind(nodes, Commit), OfKind(nodes, Test);
    var afterFiles := if files == [] then x else x + 1;
    var afterCommits := if commits == [] then afterFiles else afterFiles + 1;
    var afterTests := if tests == [] then afterCommits else afterCommits + 1;
    && InColumn(pos, files, x) && InColumn(pos, commits, afterFiles) && InColumn(pos, tests, afterCommits)
    && InColumn(pos, OfKind(nodes, Evidence), afterTests)
  }

  lemma LanesSideBySide(pos: map<TaskId, Position>, nodes: seq<GraphNode>, x: nat)
    requires LanesStand(pos, nodes, x) && DistinctIds(nodes)
    ensures SideBySide(pos, nodes, x)
  {
    hide InColumn, OfKind, AllPlaced;
    assert LaneDone(pos, nodes, x, 0) && LaneDone(pos, nodes, x, 1) && LaneDone(pos, nodes, x, 2) && LaneDone(pos, nodes, x, 3);
    assert Filled(nodes, 0) == 0;
    assert Filled(nodes, 1) == if OfKind(nodes, File) != [] then 1 else 0;
    assert Filled(nodes, 2) == Filled(nodes, 1) + if OfKind(nodes, Commit) != [] then 1 else 0;
    assert Filled(nodes, 3) == Filled(nodes, 2) + if OfKind(nodes, Test) != [] then 1 else 0;
  }

  ghost predicate LanesStand(pos: map<TaskId, Position>, nodes: seq<GraphNode>, x: nat) {
    forall j | 0 <= j < LANES :: LaneDone(pos, nodes, x, j)
  }

  /** `layoutGraph`: every node is placed, and different ids never share a place. With distinct ids
      the place of every node is known: its kind or layer gives the column, and its rank there the
      height. When no task depends on itself through others, its column is one more than its
      longest dependency chain, right of every task it depends on. */
  method LayoutGraph(nodes: seq<GraphNode>)
      returns (pos: map<TaskId, Position>, ghost layerOf: seq<nat>, ghost deepest: nat)
    ensures Injective(pos)
    ensures forall n | n in nodes :: n.id in pos
    ensures DistinctIds(nodes) ==>
              ColumnsPlaced(pos, nodes, layerOf, deepest) && SideBySide(pos, nodes, 3 + deepest)
    ensures DistinctIds(nodes) && NoLinkCycle(nodes) ==>
              DependenciesLeft(pos, nodes) && AllColumns(pos, TaskDeps(nodes, IdSet(nodes)), OfKind(nodes, Task))
  {
    hide InColumn, InLayers, LongestChain;
    var g := TaskDeps(nodes, IdSet(nodes));
    var next: nat;
    var columns;
    columns, next, layerOf, deepest := PlaceColumns(nodes, g);
    pos := PlaceLanes(columns, nodes, next);
    forall k: Kind ensures AllPlaced(pos, OfKind(nodes, k)) {
      assert LaneDone(pos, nodes, next, 0) && LaneDone(pos, nodes, next, 1);
      assert LaneDone(pos, nodes, next, 2) && LaneDone(pos, nodes, next, 3);
    }
    AllKindsPlaced(pos, nodes);
    LinksAcyclic(nodes);
    if DistinctIds(nodes) {
      ColumnsKept(nodes, layerOf, deepest, columns, pos);
      LanesSideBySide(pos, nodes, next);
      if Acyclic(g) {
        ChainsKept(nodes, g, columns, pos);
        DependenciesStandLeft(pos, nodes);
      }
    }
  }

  lemma ColumnsKept(nodes: seq<GraphNode>, layerOf: seq<nat>, deepest: nat, columns: map<TaskId, Position>, pos: map<TaskId, Position>)
    requires ColumnsPlaced(columns, nodes, layerOf, deepest)
    requires OthersStand(columns, pos, nodes)
    ensures ColumnsPlaced(pos, nodes, layerOf, deepest)
  {
  }

  lemma ChainsKept(nodes: seq<GraphNode>, g: Graph, columns: map<TaskId, Position>, pos: map<TaskId, Position>)
    requires AllColumns(columns, g, OfKind(nodes, Task))
    requires OthersStand(columns, pos, nodes)
    ensures AllColumns(pos, g, OfKind(nodes, Task))
  {
    forall id | id in OfKind(nodes, Task) ensures ColumnIsDepth(pos, g, id) {
      assert ColumnIsDepth(columns, g, id);
    }
  }

  /** How many of the first `n` nodes are of this kind. */
  function KindRank(nodes: seq<GraphNode>, kind: Kind, n: nat): nat
    requires n <= |nodes|
    decreases |nodes|
  {
    if n == 0 then 0 else (if nodes[0].kind == kind then 1 else 0) + KindRank(nodes[1..], kind, n - 1)
  }

  /** The nodes of a kind are listed in order: each at its rank. */
  lemma {:induction false} OfKindInOrder(nodes: seq<GraphNode>, kind: Kind, i: nat)
    requires i < |nodes| && nodes[i].kind == kind
    ensures KindRank(nodes, kind, i) < |OfKind(nodes, kind)| && OfKind(nodes, kind)[KindRank(nodes, kind, i)] == nodes[i].id
    ensures |OfKind(nodes, kind)| == KindRank(nodes, kind, |nodes|)
    decreases |nodes|
  {
    if i > 0 {
      OfKindInOrder(nodes[1..], kind, i - 1);
    } else {
      KindCount(nodes[1..], kind);
    }
  }

  lemma {:induction false} KindCount(nodes: seq<GraphNode>, kind: Kind)
    ensures |OfKind(nodes, kind)| == KindRank(nodes, kind, |nodes|)
  {
    if nodes != [] {
      KindCount(nodes[1..], kind);
    }
  }

  ghost predicate AllPlaced(pos: map<TaskId, Position>, list: seq<TaskId>) {
    forall id | id in list :: id in pos
  }

  function IdSet(nodes: seq<GraphNode>): set<TaskId> {
    set n | n in nodes :: n.id
  }

  ghost predicate DistinctIds(nodes: seq<GraphNode>) {
    forall i, j | 0 <= i < j < |nodes| :: nodes[i].id != nodes[j].id
  }

  lemma {:induction false} KindListed(nodes: seq<GraphNode>, n: GraphNode)
    requires n in nodes
    ensures n.id in OfKind(nodes, n.kind)
  {
    if nodes[0] != n {
      KindListed(nodes[1..], n);
    }
  }

  lemma {:induction false} KindFrom(nodes: seq<GraphNode>, kind: Kind, id: TaskId) returns (k: nat)
    requires id in OfKind(nodes, kind)
    ensures k < |nodes| && nodes[k].id == id && nodes[k].kind == kind
  {
    if nodes[0].kind == kind && nodes[0].id == id {
      k := 0;
    } else {
      k := KindFrom(nodes[1..], kind, id);
      k := k + 1;
    }
  }

  lemma KindsDisjoint(nodes: seq<GraphNode>, a: Kind, b: Kind)
    requires a != b
    ensures DistinctIds(nodes) ==> forall id | id in OfKind(nodes, a) :: id !in OfKind(nodes, b)
  {
    forall id | id in OfKind(nodes, a) && id in OfKind(nodes, b) ensures !DistinctIds(nodes) {
      var i := KindFrom(nodes, a, id);
      var j := KindFrom(nodes, b, id);
    }
  }

  lemma {:induction false} TasksDistinct(nodes: seq<GraphNode>, kind: Kind)
    requires DistinctIds(nodes)
    ensures NoDuplicates(OfKind(nodes, kind))
  {
    if nodes != [] {
      TasksDistinct(nodes[1..], kind);
      assert nodes[0].id !in OfKind(nodes[1..], kind) by {
        if nodes[0].id in OfKind(nodes[1..], kind) {
          var k := KindFrom(nodes[1..], kind, nodes[0].id);
        }
      }
    }
  }
}
