/**
 * The mind-map canvas: how the editor turns the project's mind-map nodes
 * into the nodes and edges of the graph view, how it folds later upstream
 * changes into the canvas nodes it already shows, and what it reports when
 * the selection changes.
 */
module Canvas {
  import opened Wrappers
  import opened MindMap
  import opened StableSort

  /** The semantic part of a canvas node: the five fields the canvas copies
      from its mind-map node.  The `onUpdate`/`onDelete` callbacks it also
      carries are bound to the node's id and are not modelled. */
  datatype NodeData = NodeData(
    title: string,
    description: string,
    status: Status,
    priority: Priority,
    estimatedHours: Option<int>)

  /** A graph-view node.  `selected` stands for the view state the graph
      library keeps on the node (selection, dragging), which the canvas never
      writes but must carry along. */
  datatype CanvasNode = CanvasNode(
    id: string,
    kind: NodeType,
    position: Position,
    data: NodeData,
    dragHandle: string,
    selected: bool)

  /** A graph-view edge; every edge the canvas builds is a grey
      `smoothstep` edge, so only the id and the two ends vary. */
  datatype Edge = Edge(id: string, source: string, target: string)

  function DataOf(n: MindMapNode): NodeData {
    NodeData(n.title, n.description, n.status, n.priority, n.estimatedHours)
  }

  /** The horizontal, three-row staggered placement of the `i`-th node. */
  function CanvasPosition(i: nat): Position {
    Position(50 + i * 280, 150 + (i % 3) * 120)
  }

  function ToCanvasNode(n: MindMapNode, i: nat): CanvasNode {
    CanvasNode(n.id, n.kind, CanvasPosition(i), DataOf(n), ".drag-handle", false)
  }

  /** The `initialNodes` mapping: one canvas node per mind-map node, in
      order, placed by index. */
  function InitialNodes(nodes: seq<MindMapNode>): (r: seq<CanvasNode>)
    ensures |r| == |nodes|
    ensures forall i :: 0 <= i < |nodes| ==>
      && r[i].id == nodes[i].id
      && r[i].kind == nodes[i].kind
      && r[i].data == DataOf(nodes[i])
      && r[i].position == Position(50 + 280 * i, 150 + 120 * (i % 3))
      && r[i].dragHandle == ".drag-handle" && !r[i].selected
  {
    seq(|nodes|, i requires 0 <= i < |nodes| => ToCanvasNode(nodes[i], i))
  }

  /** The placement ignores the positions the mind-map nodes carry: two
      node lists that differ only in positions give the same canvas. */
  lemma InitialNodesIgnorePositions(a: seq<MindMapNode>, b: seq<MindMapNode>)
    requires |a| == |b|
    requires forall i :: 0 <= i < |a| ==> SameButPosition(a[i], b[i])
    ensures InitialNodes(a) == InitialNodes(b)
  {
    forall i | 0 <= i < |a| ensures InitialNodes(a)[i] == InitialNodes(b)[i] {
      assert a[i].(position := b[i].position) == b[i];
    }
  }

  /** The canvas node keeps everything the mind-map node says except its
      position: the mind-map node can be read back from it. */
  lemma InitialNodesRoundTrip(nodes: seq<MindMapNode>, i: nat)
    requires i < |nodes|
    ensures var c := InitialNodes(nodes)[i];
      MindMapNode(c.id, c.data.title, c.data.description, c.kind, nodes[i].position,
                  c.data.status, c.data.priority, c.data.estimatedHours, nodes[i].dependencies)
      == nodes[i]
  {
  }

  // ---------------------------------------------------------------------
  // Edges
  // ---------------------------------------------------------------------

  /** The edge from dependency `dep` to the node `target` that declares it. */
  function DependencyEdge(dep: string, target: string): Edge {
    Edge(dep + "-" + target, dep, target)
  }

  /** The edges node `n` contributes for the dependencies `deps`, keeping
      only those naming an id in `ids`. */
  function EdgesOf(n: MindMapNode, deps: seq<string>, ids: set<string>): (r: seq<Edge>)
    ensures |r| <= |deps|
  {
    if deps == [] then []
    else
      var d := deps[|deps| - 1];
      EdgesOf(n, deps[..|deps| - 1], ids) + (if d in ids then [DependencyEdge(d, n.id)] else [])
  }

  /** The dependency edges of the nodes `ns`, in node order and, within a
      node, in dependency order; `ids` are the ids that exist. */
  function DependencyEdgesOf(ns: seq<MindMapNode>, ids: set<string>): seq<Edge> {
    if ns == [] then []
    else
      var last := ns[|ns| - 1];
      DependencyEdgesOf(ns[..|ns| - 1], ids) + EdgesOf(last, last.dependencies, ids)
  }

  /** Every dependency edge of the canvas. */
  function DependencyEdges(nodes: seq<MindMapNode>): seq<Edge> {
    DependencyEdgesOf(nodes, IdSet(nodes))
  }

  /** A dependency edge is declared: `n` lists `d` among `deps`, and `d`
      names an existing node. */
  ghost predicate Declares(ns: seq<MindMapNode>, ids: set<string>, e: Edge) {
    exists n, d :: n in ns && d in n.dependencies && d in ids && e == DependencyEdge(d, n.id)
  }

  lemma {:induction false} EdgesOfMeaning(n: MindMapNode, deps: seq<string>, ids: set<string>, e: Edge)
    ensures e in EdgesOf(n, deps, ids) <==> exists d :: d in deps && d in ids && e == DependencyEdge(d, n.id)
  {
    if deps != [] {
      var init := deps[..|deps| - 1];
      var d := deps[|deps| - 1];
      EdgesOfMeaning(n, init, ids, e);
      assert deps == init + [d];
      assert forall x :: x in deps <==> x in init || x == d;
    }
  }

  /** Soundness and completeness of the dependency edges: an edge is
      produced exactly when some node lists an existing id as dependency. */
  lemma {:induction false} DependencyEdgesOfMeaning(ns: seq<MindMapNode>, ids: set<string>, e: Edge)
    ensures e in DependencyEdgesOf(ns, ids) <==> Declares(ns, ids, e)
  {
    if ns != [] {
      var init := ns[..|ns| - 1];
      var last := ns[|ns| - 1];
      DependencyEdgesOfMeaning(init, ids, e);
      EdgesOfMeaning(last, last.dependencies, ids, e);
      assert ns == init + [last];
      assert forall x :: x in ns <==> x in init || x == last;
      if Declares(ns, ids, e) && !Declares(init, ids, e) {
        var n, d :| n in ns && d in n.dependencies && d in ids && e == DependencyEdge(d, n.id);
        assert n == last;
      }
    }
  }

  /** Every dependency edge joins two existing nodes, runs from the
      dependency to the node that declares it, and is named after both. */
  lemma DependencyEdgeSound(nodes: seq<MindMapNode>, e: Edge)
    requires e in DependencyEdges(nodes)
    ensures e.source in IdSet(nodes) && e.target in IdSet(nodes)
    ensures exists n :: n in nodes && n.id == e.target && e.source in n.dependencies
    ensures e.id == e.source + "-" + e.target
  {
    DependencyEdgesOfMeaning(nodes, IdSet(nodes), e);
  }

  /** Every dependency naming an existing node yields its edge; a
      dependency naming no node yields none. */
  lemma DependencyEdgeComplete(nodes: seq<MindMapNode>, n: MindMapNode, d: string)
    requires n in nodes && d in n.dependencies
    ensures DependencyEdge(d, n.id) in DependencyEdges(nodes) <==> d in IdSet(nodes)
  {
    DependencyEdgesOfMeaning(nodes, IdSet(nodes), DependencyEdge(d, n.id));
    if DependencyEdge(d, n.id) in DependencyEdges(nodes) {
      var m, d' :| m in nodes && d' in m.dependencies && d' in IdSet(nodes)
        && DependencyEdge(d, n.id) == DependencyEdge(d', m.id);
      DependencyEdgeEnds(d, n.id, d', m.id);
    }
  }

  lemma DependencyEdgeEnds(d: string, t: string, d': string, t': string)
    requires DependencyEdge(d, t) == DependencyEdge(d', t')
    ensures d == d' && t == t'
  {
  }

  /** No dependency edge at all exactly when no node lists an existing id. */
  lemma NoDependencyEdges(nodes: seq<MindMapNode>)
    ensures DependencyEdges(nodes) == [] <==>
      forall n, d :: n in nodes && d in n.dependencies ==> d !in IdSet(nodes)
  {
    if DependencyEdges(nodes) != [] {
      var e := DependencyEdges(nodes)[0];
      DependencyEdgesOfMeaning(nodes, IdSet(nodes), e);
    } else {
      forall n, d | n in nodes && d in n.dependencies ensures d !in IdSet(nodes) {
        DependencyEdgeComplete(nodes, n, d);
      }
    }
  }

  /** The edges of a list of nodes are the edges of a prefix followed by
      those of the rest: edges come in node order. */
  lemma {:induction false} DependencyEdgesSplit(ns: seq<MindMapNode>, k: nat, ids: set<string>)
    requires k <= |ns|
    ensures DependencyEdgesOf(ns, ids) == DependencyEdgesOf(ns[..k], ids) + DependencyEdgesOf(ns[k..], ids)
    decreases |ns|
  {
    if k == |ns| {
      assert ns[..k] == ns;
      assert ns[k..] == [];
    } else {
      var init := ns[..|ns| - 1];
      var last := ns[|ns| - 1];
      DependencyEdgesSplit(init, k, ids);
      assert init[..k] == ns[..k];
      assert ns[k..][..|ns[k..]| - 1] == init[k..];
      assert ns[k..][|ns[k..]| - 1] == last;
      AppendAssoc(DependencyEdgesOf(ns[..k], ids), DependencyEdgesOf(init[k..], ids),
                  EdgesOf(last, last.dependencies, ids));
    }
  }

  /** The fallback order's rank: start nodes first, end nodes last, every
      other node in between. */
  function ChainRank(n: MindMapNode): nat {
    match n.kind
    case Start => 0
    case End => 2
    case _ => 1
  }

  /** The fallback order: the stable sort of the nodes by `ChainRank`. */
  function ChainOrder(nodes: seq<MindMapNode>): (r: seq<MindMapNode>)
    ensures |r| == |nodes| && multiset(r) == multiset(nodes)
    ensures SortedBy(r, ChainRank)
  {
    Sort(nodes, ChainRank)
  }

  function ChainEdge(a: MindMapNode, b: MindMapNode): Edge {
    Edge(a.id + "-" + b.id, a.id, b.id)
  }

  /** The chain through `s`: an edge from each node to the next. */
  function ChainEdges(s: seq<MindMapNode>): (r: seq<Edge>)
    ensures |r| == if s == [] then 0 else |s| - 1
    ensures forall i :: 0 <= i < |r| ==> r[i] == ChainEdge(s[i], s[i + 1])
  {
    if |s| < 2 then [] else seq(|s| - 1, i requires 0 <= i < |s| - 1 => ChainEdge(s[i], s[i + 1]))
  }

  /** Each chain edge goes from a node to the one after it. */
  lemma ChainEdgesLink(s: seq<MindMapNode>, i: nat)
    requires i + 1 < |s|
    ensures ChainEdges(s)[i].source == s[i].id && ChainEdges(s)[i].target == s[i + 1].id
    ensures ChainEdges(s)[i].id == s[i].id + "-" + s[i + 1].id
  {
  }

  /** The `initialEdges` of the canvas: the dependency edges, or, when
      there is none, the chain through the fallback order. */
  function CanvasEdges(nodes: seq<MindMapNode>): seq<Edge> {
    var deps := DependencyEdges(nodes);
    if deps == [] then ChainEdges(ChainOrder(nodes)) else deps
  }

  /** The fallback chain is used exactly when no dependency produced an
      edge, dangling ones included, and then links consecutive nodes of the
      fallback order, one edge fewer than there are nodes. */
  lemma CanvasEdgesFallback(nodes: seq<MindMapNode>)
    ensures (forall n, d :: n in nodes && d in n.dependencies ==> d !in IdSet(nodes)) ==>
      && CanvasEdges(nodes) == ChainEdges(ChainOrder(nodes))
      && |CanvasEdges(nodes)| == (if nodes == [] then 0 else |nodes| - 1)
    ensures (exists n, d :: n in nodes && d in n.dependencies && d in IdSet(nodes)) ==>
      CanvasEdges(nodes) == DependencyEdges(nodes)
  {
    NoDependencyEdges(nodes);
  }

  /** The fallback order is the stable partition into start nodes, the
      other nodes and end nodes, each group in input order. */
  lemma ChainOrderIsPartition(nodes: seq<MindMapNode>)
    ensures ChainOrder(nodes)
         == WithRank(nodes, ChainRank, 0) + WithRank(nodes, ChainRank, 1) + WithRank(nodes, ChainRank, 2)
  {
    SortIsBuckets(nodes, ChainRank, 2);
    assert Buckets(nodes, ChainRank, 1) == WithRank(nodes, ChainRank, 0) + WithRank(nodes, ChainRank, 1);
  }

  /** When there is a start node, the fallback chain begins at a start
      node. */
  lemma ChainOrderStartsAtStart(nodes: seq<MindMapNode>, n: MindMapNode)
    requires n in nodes && n.kind == Start
    ensures ChainOrder(nodes)[0].kind == Start
  {
    SortEnds(nodes, ChainRank, n);
  }

  /** When there is an end node, the fallback chain finishes at an end
      node. */
  lemma ChainOrderEndsAtEnd(nodes: seq<MindMapNode>, n: MindMapNode)
    requires n in nodes && n.kind == End
    ensures ChainOrder(nodes)[|nodes| - 1].kind == End
  {
    SortEnds(nodes, ChainRank, n);
    RankTwoIsEnd(ChainOrder(nodes)[|nodes| - 1]);
  }

  lemma RankTwoIsEnd(n: MindMapNode)
    requires ChainRank(n) == 2
    ensures n.kind == End
  {
  }

  /** The comparator of the fallback sort, as written. */
  function Compare(a: MindMapNode, b: MindMapNode): int {
    if a.kind == Start then -1
    else if b.kind == Start then 1
    else if a.kind == End then 1
    else if b.kind == End then -1
    else 0
  }

  /** Unless both nodes are start nodes or both are end nodes, the
      comparator orders exactly as `ChainRank` does. */
  lemma CompareAgreesWithRank(a: MindMapNode, b: MindMapNode)
    requires !(a.kind == Start && b.kind == Start) && !(a.kind == End && b.kind == End)
    ensures Compare(a, b) < 0 <==> ChainRank(a) < ChainRank(b)
    ensures Compare(a, b) == 0 <==> ChainRank(a) == ChainRank(b)
    ensures Compare(a, b) > 0 <==> ChainRank(a) > ChainRank(b)
  {
  }

  /** Two start nodes (likewise two end nodes) each claim to come before
      (after) the other: the comparator is not consistent, so the order the
      sort gives them is left to the engine. */
  lemma CompareInconsistent(a: MindMapNode, b: MindMapNode)
    requires (a.kind == Start && b.kind == Start) || (a.kind == End && b.kind == End)
    ensures Compare(a, b) == Compare(b, a) != 0
  {
  }

  /** The `initialEdges` computation: the nested dependency loops, then,
      when they pushed nothing, the chain loop. */
  method InitialEdges(nodes: seq<MindMapNode>) returns (edges: seq<Edge>)
    ensures edges == CanvasEdges(nodes)
  {
    var ids := Ids(nodes);
    ghost var idSet := IdSet(nodes);
    assert forall x :: x in ids <==> x in idSet by {
      forall x ensures x in ids <==> x in idSet {
        IdSetOfIds(nodes, x);
      }
    }
    edges := [];
    var i := 0;
    while i < |nodes|
      invariant 0 <= i <= |nodes|
      invariant edges == DependencyEdgesOf(nodes[..i], idSet)
    {
      var node := nodes[i];
      edges := PushDependencyEdges(node, ids, idSet, edges);
      assert nodes[..i + 1][..i] == nodes[..i];
      i := i + 1;
    }
    assert nodes[..i] == nodes;
    if |edges| == 0 {
      edges := ChainLoop(ChainOrder(nodes));
    }
  }

  /** The `for` loop of the fallback: link each node to the next. */
  method ChainLoop(sorted: seq<MindMapNode>) returns (edges: seq<Edge>)
    ensures edges == ChainEdges(sorted)
  {
    edges := [];
    var k := 0;
    while k + 1 < |sorted|
      invariant |edges| == k
      invariant k == 0 || k < |sorted|
      invariant forall j :: 0 <= j < k ==> edges[j] == ChainEdge(sorted[j], sorted[j + 1])
    {
      edges := edges + [ChainEdge(sorted[k], sorted[k + 1])];
      k := k + 1;
    }
  }

  /** The inner `dependencies.forEach` of one node: push an edge for each
      dependency whose id exists. */
  method PushDependencyEdges(node: MindMapNode, ids: seq<string>, ghost idSet: set<string>, edges0: seq<Edge>)
    returns (edges: seq<Edge>)
    requires forall x :: x in ids <==> x in idSet
    ensures edges == edges0 + EdgesOf(node, node.dependencies, idSet)
  {
    edges := edges0;
    var deps := node.dependencies;
    if |deps| > 0 {
      var j := 0;
      while j < |deps|
        invariant 0 <= j <= |deps|
        invariant edges == edges0 + EdgesOf(node, deps[..j], idSet)
      {
        var depId := deps[j];
        assert deps[..j + 1][..j] == deps[..j];
        if depId in ids {
          edges := edges + [DependencyEdge(depId, node.id)];
        }
        j := j + 1;
      }
      assert deps[..j] == deps;
    }
  }

  // ---------------------------------------------------------------------
  // Reconciliation
  // ---------------------------------------------------------------------

  /** A canvas node differs from its upstream mind-map node in one of the
      five copied fields. */
  predicate NeedsUpdate(c: CanvasNode, u: MindMapNode) {
    || c.data.title != u.title
    || c.data.description != u.description
    || c.data.status != u.status
    || c.data.priority != u.priority
    || c.data.estimatedHours != u.estimatedHours
  }

  /** One node of the reconciliation: the first upstream node with the
      same id supplies the five fields when one of them differs. */
  function ReconcileNode(c: CanvasNode, upstream: seq<MindMapNode>): CanvasNode {
    match FindById(upstream, c.id)
    case None => c
    case Some(u) => if NeedsUpdate(c, u) then c.(data := DataOf(u)) else c
  }

  predicate Changes(c: CanvasNode, upstream: seq<MindMapNode>) {
    var u := FindById(upstream, c.id);
    u.Some? && NeedsUpdate(c, u.value)
  }

  /** The reconciled canvas. */
  function Reconciled(current: seq<CanvasNode>, upstream: seq<MindMapNode>): (r: seq<CanvasNode>)
    ensures |r| == |current|
  {
    seq(|current|, i requires 0 <= i < |current| => ReconcileNode(current[i], upstream))
  }

  /** The `setNodes` updater of the reconciliation effect: map every node,
      noting whether any changed, and hand back the original list when none
      did. */
  method Reconcile(current: seq<CanvasNode>, upstream: seq<MindMapNode>)
    returns (r: seq<CanvasNode>, hasChanges: bool)
    ensures hasChanges <==> exists i :: 0 <= i < |current| && Changes(current[i], upstream)
    ensures r == Reconciled(current, upstream)
    ensures !hasChanges ==> r == current
  {
    hasChanges := false;
    var updated := [];
    var i := 0;
    while i < |current|
      invariant 0 <= i <= |current|
      invariant |updated| == i
      invariant forall j :: 0 <= j < i ==> updated[j] == ReconcileNode(current[j], upstream)
      invariant hasChanges <==> exists j :: 0 <= j < i && Changes(current[j], upstream)
      invariant !hasChanges ==> updated == current[..i]
    {
      var c := current[i];
      var next := c;
      var u := FindById(upstream, c.id);
      if u.Some? {
        if NeedsUpdate(c, u.value) {
          hasChanges := true;
          next := c.(data := DataOf(u.value));
        }
      }
      updated := updated + [next];
      i := i + 1;
    }
    r := if hasChanges then updated else current;
  }

  /** Reconciliation keeps the count, the order, the ids, the types, the
      positions and the view state of every node. */
  lemma ReconcileKeepsLayout(current: seq<CanvasNode>, upstream: seq<MindMapNode>, i: nat)
    requires i < |current|
    ensures Reconciled(current, upstream)[i] == current[i].(data := Reconciled(current, upstream)[i].data)
  {
  }

  /** A node with no upstream match is left as it is; a matched node ends up
      holding exactly the upstream node's five fields. */
  lemma ReconcileData(current: seq<CanvasNode>, upstream: seq<MindMapNode>, i: nat)
    requires i < |current|
    ensures current[i].id !in IdSet(upstream) ==> Reconciled(current, upstream)[i] == current[i]
    ensures current[i].id in IdSet(upstream) ==>
      Reconciled(current, upstream)[i].data == DataOf(FindById(upstream, current[i].id).value)
  {
  }

  /** A node is rewritten only when one of the five fields differs. */
  lemma ReconcileOnlyChanged(current: seq<CanvasNode>, upstream: seq<MindMapNode>, i: nat)
    requires i < |current|
    ensures Reconciled(current, upstream)[i] != current[i] <==> Changes(current[i], upstream)
  {
  }

  /** Reconciling twice against the same upstream nodes changes nothing
      more. */
  lemma ReconcileIdempotent(current: seq<CanvasNode>, upstream: seq<MindMapNode>)
    ensures Reconciled(Reconciled(current, upstream), upstream) == Reconciled(current, upstream)
  {
  }

  /** Reconciling the canvas built from the same nodes changes nothing. */
  lemma ReconcileInitialUnchanged(nodes: seq<MindMapNode>)
    requires UniqueIds(nodes)
    ensures Reconciled(InitialNodes(nodes), nodes) == InitialNodes(nodes)
  {
    var c := InitialNodes(nodes);
    forall i | 0 <= i < |c| ensures ReconcileNode(c[i], nodes) == c[i] {
      var u := FindById(nodes, c[i].id);
      assert nodes[i] in nodes;
      UniqueIdsDetermine(nodes, u.value, nodes[i]);
    }
  }

  /** `onSelectionChange`: the id of the first selected node, or `null`. */
  function SelectedId(selected: seq<CanvasNode>): (r: Option<string>)
    ensures r.None? <==> selected == []
    ensures r.Some? ==> r.value == selected[0].id
  {
    if |selected| > 0 then Some(selected[0].id) else None
  }
}
