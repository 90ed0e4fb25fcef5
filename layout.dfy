/**
 * The automatic layouts of the mind-map editor (lib/layout.ts): the
 * type-ordered row layout, and the hierarchical layout that places a node
 * one column to the right of the latest of its dependencies, with a
 * fallback column for nodes the dependency walk never reaches.
 */
module Layout {
  import opened Wrappers
  import opened MindMap
  import opened StableSort

  // ---------------------------------------------------------------------
  // calculateAutoLayout

  /** The type order of the auto layout: start first, end last, tasks and
      components sharing a rank. */
  function TypeRank(n: MindMapNode): nat {
    match n.kind
    case Start => 0
    case Task => 1
    case Component => 1
    case Milestone => 2
    case End => 3
  }

  /** The staggered slot of the `i`-th node of the auto layout. */
  function AutoPosition(i: nat): Position {
    Position(100 + 350 * i, 200 + 150 * (i % 3))
  }

  /** `calculateAutoLayout`: sort by type rank (a stable sort), then place
      the nodes left to right in their slots. */
  function AutoLayout(nodes: seq<MindMapNode>): (r: seq<MindMapNode>)
    ensures |r| == |nodes|
  {
    if nodes == [] then []
    else
      var sorted := Sort(nodes, TypeRank);
      seq(|sorted|, i requires 0 <= i < |sorted| => sorted[i].(position := AutoPosition(i)))
  }

  /** The start nodes, then the task and component nodes, then the
      milestones, then the end nodes, each group in input order. */
  function TypeGroups(nodes: seq<MindMapNode>): seq<MindMapNode> {
    WithRank(nodes, TypeRank, 0) + WithRank(nodes, TypeRank, 1)
    + WithRank(nodes, TypeRank, 2) + WithRank(nodes, TypeRank, 3)
  }

  /** The auto layout is the type groups, in order, each node moved to the
      slot of its index; no node is lost or duplicated. */
  lemma AutoLayoutIsTypeGroups(nodes: seq<MindMapNode>)
    ensures |TypeGroups(nodes)| == |nodes|
    ensures multiset(TypeGroups(nodes)) == multiset(nodes)
    ensures forall i :: 0 <= i < |nodes| ==>
      AutoLayout(nodes)[i] == TypeGroups(nodes)[i].(position := AutoPosition(i))
  {
    SortIsBuckets(nodes, TypeRank, 3);
    assert Buckets(nodes, TypeRank, 1) == WithRank(nodes, TypeRank, 0) + WithRank(nodes, TypeRank, 1);
    assert Buckets(nodes, TypeRank, 2) == Buckets(nodes, TypeRank, 1) + WithRank(nodes, TypeRank, 2);
    assert Buckets(nodes, TypeRank, 3) == TypeGroups(nodes);
    if nodes != [] {
      var sorted := Sort(nodes, TypeRank);
      forall i | 0 <= i < |nodes|
        ensures AutoLayout(nodes)[i] == TypeGroups(nodes)[i].(position := AutoPosition(i))
      {
        assert AutoLayout(nodes)[i] == sorted[i].(position := AutoPosition(i));
      }
    }
  }

  /** In the auto layout the type ranks never decrease from left to right. */
  lemma AutoLayoutOrdered(nodes: seq<MindMapNode>)
    ensures forall i, j :: 0 <= i < j < |nodes| ==>
      TypeRank(AutoLayout(nodes)[i]) <= TypeRank(AutoLayout(nodes)[j])
  {
    var sorted := Sort(nodes, TypeRank);
    forall i, j | 0 <= i < j < |nodes|
      ensures TypeRank(AutoLayout(nodes)[i]) <= TypeRank(AutoLayout(nodes)[j])
    {
      assert TypeRank(AutoLayout(nodes)[i]) == TypeRank(sorted[i]);
      assert TypeRank(AutoLayout(nodes)[j]) == TypeRank(sorted[j]);
    }
  }

  // ---------------------------------------------------------------------
  // calculateHierarchicalLayout

  /** Where a node of a dependency level lands: one column per level, one
      row per index within the level. */
  function LevelPosition(level: nat, index: nat): Position {
    Position(100 + level * 350, 150 + index * 120)
  }

  /** The nodes of one level, each moved to its row of column `level`. */
  function LevelRow(s: seq<MindMapNode>, level: nat): (r: seq<MindMapNode>)
    ensures |r| == |s|
    ensures forall k :: 0 <= k < |s| ==> r[k] == s[k].(position := LevelPosition(level, k))
  {
    seq(|s|, k requires 0 <= k < |s| => s[k].(position := LevelPosition(level, k)))
  }

  /** Every dependency of `n` is in `positioned`. */
  predicate DepsIn(n: MindMapNode, positioned: set<string>) {
    forall d :: d in n.dependencies ==> d in positioned
  }

  /** The nodes without dependencies, in input order: the first level. */
  function Roots(s: seq<MindMapNode>): (r: seq<MindMapNode>)
    ensures forall n :: n in r <==> n in s && n.dependencies == []
    ensures IdSet(r) <= IdSet(s)
    ensures UniqueIds(s) ==> UniqueIds(r)
  {
    if s == [] then []
    else
      var rest := Roots(s[1..]);
      IdSetCons(s);
      assert forall n :: n in s <==> n == s[0] || n in s[1..] by {
        assert s == [s[0]] + s[1..];
      }
      if s[0].dependencies == [] then
        RootsConsUnique(s, rest);
        [s[0]] + rest
      else
        assert UniqueIds(s) ==> UniqueIds(s[1..]) by {
          if UniqueIds(s) { UniqueIdsTail(s); }
        }
        rest
  }

  lemma RootsConsUnique(s: seq<MindMapNode>, rest: seq<MindMapNode>)
    requires s != []
    requires IdSet(rest) <= IdSet(s[1..])
    requires UniqueIds(s[1..]) ==> UniqueIds(rest)
    ensures UniqueIds(s) ==> UniqueIds([s[0]] + rest)
  {
    if UniqueIds(s) {
      UniqueIdsTail(s);
      UniqueIdsCons(s[0], rest);
    }
  }

  /** The nodes whose id is not in `placed`, in input order: what the
      fallback pass appends. */
  function Unreached(s: seq<MindMapNode>, placed: set<string>): (r: seq<MindMapNode>)
    ensures |r| <= |s|
    ensures forall n :: n in r <==> n in s && n.id !in placed
  {
    if s == [] then []
    else
      var init := s[..|s| - 1];
      var last := s[|s| - 1];
      assert s == init + [last];
      Unreached(init, placed) + (if last.id in placed then [] else [last])
  }

  /** Each node comes after every node it depends on: the dependencies of
      the last node are among the ids before it, and so on for the rest. */
  predicate TopologicallyOrdered(s: seq<MindMapNode>) {
    s == [] || (TopologicallyOrdered(s[..|s| - 1]) && DepsIn(s[|s| - 1], IdSet(s[..|s| - 1])))
  }

  /** The indexed reading: the dependencies of the `i`-th node are ids of
      nodes before it. */
  lemma {:induction false} TopologicallyOrderedAt(s: seq<MindMapNode>, i: nat)
    requires TopologicallyOrdered(s) && i < |s|
    ensures DepsIn(s[i], IdSet(s[..i]))
  {
    if i < |s| - 1 {
      var init := s[..|s| - 1];
      TopologicallyOrderedAt(init, i);
      assert init[..i] == s[..i];
    }
  }

  /** `r` is one of `nodes`, possibly moved. */
  predicate MovedFrom(r: MindMapNode, nodes: seq<MindMapNode>) {
    exists n :: n in nodes && SameButPosition(r, n)
  }

  /** What the dependency walk keeps true of its running state: `positioned`
      is the set of ids in `result`, each id is placed once, every placed
      node is an input node moved, and nodes come after their dependencies. */
  predicate LayoutInvariant(nodes: seq<MindMapNode>, positioned: set<string>, result: seq<MindMapNode>) {
    && positioned == IdSet(result)
    && positioned <= IdSet(nodes)
    && UniqueIds(result)
    && (forall r :: r in result ==> MovedFrom(r, nodes))
    && TopologicallyOrdered(result)
  }

  lemma TopologicallyOrderedAppend(s: seq<MindMapNode>, n: MindMapNode)
    requires TopologicallyOrdered(s)
    requires DepsIn(n, IdSet(s))
    ensures TopologicallyOrdered(s + [n])
  {
    assert (s + [n])[..|s|] == s;
  }

  /** Placing an unplaced input node whose dependencies are all placed keeps
      the walk's invariant. */
  lemma PlaceKeepsInvariant(nodes: seq<MindMapNode>, positioned: set<string>, result: seq<MindMapNode>,
                            node: MindMapNode, p: Position)
    requires LayoutInvariant(nodes, positioned, result)
    requires node in nodes && node.id !in positioned && DepsIn(node, positioned)
    ensures LayoutInvariant(nodes, positioned + {node.id}, result + [node.(position := p)])
  {
    var moved := node.(position := p);
    IdSetAppend(result, moved);
    UniqueIdsAppend(result, moved);
    TopologicallyOrderedAppend(result, moved);
    assert SameButPosition(moved, node);
    forall r | r in result + [moved] ensures MovedFrom(r, nodes) {
      if r != moved {
        assert r in result;
      }
    }
  }

  /** The value of `reverseDependencyMap.get(p) || []`. */
  function Lookup(rev: map<string, seq<string>>, p: string): seq<string> {
    if p in rev then rev[p] else []
  }

  /** `id` repeated `k` times. */
  function Copies(id: string, k: nat): (r: seq<string>)
    ensures |r| == k && forall x :: x in r ==> x == id
  {
    if k == 0 then [] else Copies(id, k - 1) + [id]
  }

  /** How often `p` occurs in `deps`. */
  function Occurrences(deps: seq<string>, p: string): (k: nat)
    ensures k > 0 <==> p in deps
  {
    if deps == [] then 0
    else
      assert deps == deps[..|deps| - 1] + [deps[|deps| - 1]];
      Occurrences(deps[..|deps| - 1], p) + (if deps[|deps| - 1] == p then 1 else 0)
  }

  /** The ids of the nodes that list `p` among their dependencies, in input
      order, once per listing. */
  function DependentsOf(nodes: seq<MindMapNode>, p: string): seq<string> {
    if nodes == [] then []
    else
      var last := nodes[|nodes| - 1];
      DependentsOf(nodes[..|nodes| - 1], p) + Copies(last.id, Occurrences(last.dependencies, p))
  }

  /** An id is a dependent of `p` exactly when a node with that id lists `p`. */
  lemma {:induction false} DependentsOfMeaning(nodes: seq<MindMapNode>, p: string, x: string)
    ensures x in DependentsOf(nodes, p) <==> exists n :: n in nodes && n.id == x && p in n.dependencies
  {
    if nodes != [] {
      var init := nodes[..|nodes| - 1];
      var last := nodes[|nodes| - 1];
      var copies := Copies(last.id, Occurrences(last.dependencies, p));
      assert nodes == init + [last];
      assert DependentsOf(nodes, p) == DependentsOf(init, p) + copies;
      DependentsOfMeaning(init, p, x);
      if x in copies {
        assert last in nodes && last.id == x && p in last.dependencies;
      }
      if exists n :: n in nodes && n.id == x && p in n.dependencies {
        var n :| n in nodes && n.id == x && p in n.dependencies;
        if n == last {
          assert copies[0] in copies;
        } else {
          assert n in init;
        }
      }
    }
  }

  lemma DependentsOfSnoc(nodes: seq<MindMapNode>, i: nat, p: string)
    requires i < |nodes|
    ensures DependentsOf(nodes[..i + 1], p)
         == DependentsOf(nodes[..i], p) + Copies(nodes[i].id, Occurrences(nodes[i].dependencies, p))
  {
    assert nodes[..i + 1][..i] == nodes[..i];
  }

  lemma OccurrencesSnoc(deps: seq<string>, j: nat, p: string)
    requires j < |deps|
    ensures Occurrences(deps[..j + 1], p) == Occurrences(deps[..j], p) + (if deps[j] == p then 1 else 0)
  {
    assert deps[..j + 1][..j] == deps[..j];
  }

  /** One `push` of the inner loop keeps the entry for `p` equal to the
      start entry plus the dependents recorded so far. */
  lemma RecordDependent(base: seq<string>, before: seq<string>, after: seq<string>,
                        id: string, deps: seq<string>, j: nat, p: string)
    requires j < |deps|
    requires before == base + Copies(id, Occurrences(deps[..j], p))
    requires after == if p == deps[j] then before + [id] else before
    ensures after == base + Copies(id, Occurrences(deps[..j + 1], p))
  {
    OccurrencesSnoc(deps, j, p);
    if p == deps[j] {
      var k := Occurrences(deps[..j], p);
      assert Copies(id, k + 1) == Copies(id, k) + [id];
    }
  }

  /** The inner `forEach` over one node's dependencies: record `node` as a
      dependent of each id it lists, once per listing. */
  method AddDependents(rev0: map<string, seq<string>>, node: MindMapNode) returns (rev: map<string, seq<string>>)
    ensures forall p :: Lookup(rev, p) == Lookup(rev0, p) + Copies(node.id, Occurrences(node.dependencies, p))
  {
    var id, deps := node.id, node.dependencies;
    rev := rev0;
    var j := 0;
    while j < |deps|
      invariant 0 <= j <= |deps|
      invariant forall p :: Lookup(rev, p) == Lookup(rev0, p) + Copies(id, Occurrences(deps[..j], p))
    {
      var depId := deps[j];
      ghost var revBefore := rev;
      if depId !in rev {
        rev := rev[depId := []];
      }
      rev := rev[depId := rev[depId] + [id]];
      forall p ensures Lookup(rev, p) == Lookup(rev0, p) + Copies(id, Occurrences(deps[..j + 1], p)) {
        RecordDependent(Lookup(rev0, p), Lookup(revBefore, p), Lookup(rev, p), id, deps, j, p);
      }
      j := j + 1;
    }
    assert deps[..j] == deps;
  }

  /** The outer `nodes.forEach` that fills `reverseDependencyMap`. */
  method BuildReverseDependencies(nodes: seq<MindMapNode>) returns (rev: map<string, seq<string>>)
    ensures forall p :: Lookup(rev, p) == DependentsOf(nodes, p)
  {
    rev := map[];
    var i := 0;
    while i < |nodes|
      invariant 0 <= i <= |nodes|
      invariant forall p :: Lookup(rev, p) == DependentsOf(nodes[..i], p)
    {
      rev := AddDependents(rev, nodes[i]);
      forall p ensures Lookup(rev, p) == DependentsOf(nodes[..i + 1], p) {
        DependentsOfSnoc(nodes, i, p);
      }
      i := i + 1;
    }
    assert nodes[..i] == nodes;
  }

  /** `d` names an input node (the first carrying it) that is not placed
      yet and whose dependencies are all placed: the queueing condition. */
  predicate Eligible(nodes: seq<MindMapNode>, positioned: set<string>, d: string) {
    && d !in positioned
    && FindById(nodes, d).Some?
    && DepsIn(FindById(nodes, d).value, positioned)
  }

  /** The `dependents.forEach` of one freshly placed node: queue each
      dependent that exists, is not placed yet, has all its dependencies
      placed, and is not queued already. */
  method QueueDependents(nodes: seq<MindMapNode>, dependents: seq<string>, positioned: set<string>,
                         next0: seq<MindMapNode>) returns (next: seq<MindMapNode>)
    requires forall n :: n in next0 ==> n in nodes && DepsIn(n, positioned)
    ensures forall n :: n in next ==> n in nodes && DepsIn(n, positioned)
    ensures |next0| <= |next| && next[..|next0|] == next0
    ensures forall k :: |next0| <= k < |next| ==>
      next[k].id in dependents && next[k].id !in positioned && next[k].id !in IdSet(next[..k])
    ensures UniqueIds(next0) ==> UniqueIds(next)
    // every eligible dependent ends up queued
    ensures forall d :: d in dependents && Eligible(nodes, positioned, d) ==> d in IdSet(next)
  {
    next := next0;
    var j := 0;
    while j < |dependents|
      invariant 0 <= j <= |dependents|
      invariant QueueInvariant(nodes, dependents, positioned, next0, j, next)
    {
      var depId := dependents[j];
      var depNode := FindById(nodes, depId);
      if depNode.Some? && depId !in positioned && DepsIn(depNode.value, positioned)
         && FindById(next, depId).None? {
        QueuePush(nodes, dependents, positioned, next0, j, next);
        next := next + [depNode.value];
      } else {
        QueueSkip(nodes, dependents, positioned, next0, j, next);
      }
      j := j + 1;
    }
    forall d | d in dependents && Eligible(nodes, positioned, d) ensures d in IdSet(next) {
      var k :| 0 <= k < |dependents| && dependents[k] == d;
    }
  }

  /** What holds after the first `j` dependents are handled. */
  ghost predicate QueueInvariant(nodes: seq<MindMapNode>, dependents: seq<string>, positioned: set<string>,
                                 next0: seq<MindMapNode>, j: nat, next: seq<MindMapNode>)
  {
    && (forall n :: n in next ==> n in nodes && DepsIn(n, positioned))
    && |next0| <= |next| && next[..|next0|] == next0
    && (forall k :: |next0| <= k < |next| ==>
         next[k].id in dependents && next[k].id !in positioned && next[k].id !in IdSet(next[..k]))
    && (UniqueIds(next0) ==> UniqueIds(next))
    && (forall k :: 0 <= k < j <= |dependents| && Eligible(nodes, positioned, dependents[k]) ==>
         dependents[k] in IdSet(next))
  }

  /** Queueing the `j`-th dependent keeps the invariant. */
  lemma QueuePush(nodes: seq<MindMapNode>, dependents: seq<string>, positioned: set<string>,
                  next0: seq<MindMapNode>, j: nat, next: seq<MindMapNode>)
    requires j < |dependents| && QueueInvariant(nodes, dependents, positioned, next0, j, next)
    requires Eligible(nodes, positioned, dependents[j]) && dependents[j] !in IdSet(next)
    ensures QueueInvariant(nodes, dependents, positioned, next0, j + 1,
                           next + [FindById(nodes, dependents[j]).value])
  {
    var n := FindById(nodes, dependents[j]).value;
    var grown := next + [n];
    assert grown[..|next0|] == next0 by {
      assert grown[..|next0|] == next[..|next0|];
    }
    assert forall m :: m in grown ==> m in nodes && DepsIn(m, positioned) by {
      assert forall m :: m in grown ==> m in next || m == n;
    }
    assert forall k :: |next0| <= k < |grown| ==>
      grown[k].id in dependents && grown[k].id !in positioned && grown[k].id !in IdSet(grown[..k])
    by {
      assert grown[..|next|] == next;
      forall k | |next0| <= k < |next| ensures grown[..k] == next[..k] {
      }
    }
    IdSetAppend(next, n);
    assert forall k :: 0 <= k < j + 1 <= |dependents| && Eligible(nodes, positioned, dependents[k]) ==>
      dependents[k] in IdSet(grown);
    if UniqueIds(next0) {
      UniqueIdsAppend(next, n);
    }
  }

  /** Passing over the `j`-th dependent keeps the invariant. */
  lemma QueueSkip(nodes: seq<MindMapNode>, dependents: seq<string>, positioned: set<string>,
                  next0: seq<MindMapNode>, j: nat, next: seq<MindMapNode>)
    requires j < |dependents| && QueueInvariant(nodes, dependents, positioned, next0, j, next)
    requires !Eligible(nodes, positioned, dependents[j]) || dependents[j] in IdSet(next)
    ensures QueueInvariant(nodes, dependents, positioned, next0, j + 1, next)
  {
  }

  lemma LevelRowSnoc(s: seq<MindMapNode>, i: nat, level: nat)
    requires i < |s|
    ensures LevelRow(s[..i + 1], level) == LevelRow(s[..i], level) + [s[i].(position := LevelPosition(level, i))]
  {
  }

  /** `n` is the input node its id finds, and all its dependencies are
      placed: the walk owes it a place. */
  predicate Ready(nodes: seq<MindMapNode>, n: MindMapNode, positioned: set<string>) {
    n in nodes && FindById(nodes, n.id) == Some(n) && DepsIn(n, positioned)
  }

  /** `rev` is the reverse dependency map of `nodes`. */
  ghost predicate ReverseOf(rev: map<string, seq<string>>, nodes: seq<MindMapNode>) {
    forall p :: Lookup(rev, p) == DependentsOf(nodes, p)
  }

  /** The callback of `currentLevelNodes.forEach` for the node at `index`:
      when its id is not placed yet, place it in its row of column `level`
      and queue its dependents; otherwise change nothing. */
  method PlaceNode(nodes: seq<MindMapNode>, rev: map<string, seq<string>>, node: MindMapNode, index: nat,
                   level: nat, positioned0: set<string>, result0: seq<MindMapNode>, next0: seq<MindMapNode>)
    returns (positioned: set<string>, result: seq<MindMapNode>, next: seq<MindMapNode>)
    requires ReverseOf(rev, nodes)
    requires LayoutInvariant(nodes, positioned0, result0)
    requires node in nodes && DepsIn(node, positioned0)
    requires forall n :: n in next0 ==> n in nodes && DepsIn(n, positioned0)
    ensures LayoutInvariant(nodes, positioned, result)
    ensures node.id in positioned0 ==> positioned == positioned0 && result == result0 && next == next0
    ensures node.id !in positioned0 ==>
      && positioned == positioned0 + {node.id}
      && result == result0 + [node.(position := LevelPosition(level, index))]
    ensures forall n :: n in next ==> n in nodes && DepsIn(n, positioned)
    ensures next0 <= next && (UniqueIds(next0) ==> UniqueIds(next))
    // what is queued is new, and is queued because `node` was just placed
    ensures forall k :: |next0| <= k < |next| ==> next[k].id !in positioned && node.id !in positioned0
    ensures UniqueIds(nodes) ==> forall k :: |next0| <= k < |next| ==> node.id in next[k].dependencies
    // every node that placing `node` made ready is placed or queued
    ensures forall n :: Ready(nodes, n, positioned) ==>
      DepsIn(n, positioned0) || n.id in positioned || n.id in IdSet(next)
  {
    positioned, result, next := positioned0, result0, next0;
    if node.id !in positioned {
      var p := LevelPosition(level, index);
      PlaceKeepsInvariant(nodes, positioned, result, node, p);
      result := result + [node.(position := p)];
      positioned := positioned + {node.id};
      var dependents := Lookup(rev, node.id);
      next := QueueDependents(nodes, dependents, positioned, next);
      assert next0 <= next by {
        assert next[..|next0|] == next0;
      }
      forall n | Ready(nodes, n, positioned)
        ensures DepsIn(n, positioned0) || n.id in positioned || n.id in IdSet(next)
      {
        if !DepsIn(n, positioned0) && n.id !in positioned {
          DependentOfPlaced(nodes, node.id, positioned0, n);
          assert Eligible(nodes, positioned, n.id);
        }
      }
      if UniqueIds(nodes) {
        forall k | |next0| <= k < |next| ensures node.id in next[k].dependencies {
          QueuedListsPlaced(nodes, node.id, next[k]);
        }
      }
    }
  }

  /** A node that became ready when `placed` joined `before` lists `placed`,
      so it is among the dependents of `placed`. */
  lemma DependentOfPlaced(nodes: seq<MindMapNode>, placed: string, before: set<string>, n: MindMapNode)
    requires n in nodes && DepsIn(n, before + {placed}) && !DepsIn(n, before)
    ensures n.id in DependentsOf(nodes, placed)
  {
    var d :| d in n.dependencies && d !in before;
    DependentsOfMeaning(nodes, placed, n.id);
  }

  /** With unique ids, a node queued as a dependent of `placed` lists it. */
  lemma QueuedListsPlaced(nodes: seq<MindMapNode>, placed: string, q: MindMapNode)
    requires UniqueIds(nodes) && q in nodes && q.id in DependentsOf(nodes, placed)
    ensures placed in q.dependencies
  {
    DependentsOfMeaning(nodes, placed, q.id);
    var m :| m in nodes && m.id == q.id && placed in m.dependencies;
    UniqueIdsDetermine(nodes, m, q);
  }

  /** `q` waits on this level: some dependency of `q` was placed during it,
      by a node of `current`. */
  predicate WaitedOn(q: MindMapNode, current: seq<MindMapNode>, before: set<string>) {
    !DepsIn(q, before) && exists d :: d in q.dependencies && d in IdSet(current)
  }

  /** The `currentLevelNodes.forEach` of one level: place each node of the
      level that is not placed yet, at its index in column `level`, and
      collect the next level. */
  method PlaceLevel(nodes: seq<MindMapNode>, rev: map<string, seq<string>>, current: seq<MindMapNode>,
                    level: nat, positioned0: set<string>, result0: seq<MindMapNode>)
    returns (positioned: set<string>, result: seq<MindMapNode>, next: seq<MindMapNode>)
    requires ReverseOf(rev, nodes)
    requires LayoutInvariant(nodes, positioned0, result0)
    requires forall c :: c in current ==> c in nodes && DepsIn(c, positioned0)
    ensures LayoutInvariant(nodes, positioned, result)
    ensures result0 <= result
    ensures positioned0 <= positioned
    ensures positioned == positioned0 ==> next == []
    ensures forall n :: n in next ==> n in nodes && DepsIn(n, positioned)
    ensures UniqueIds(current) && (forall c :: c in current ==> c.id !in positioned0) ==>
      result == result0 + LevelRow(current, level)
    // every node of the level ends up placed
    ensures forall c :: c in current ==> c.id in positioned
    // every node the level made ready is placed or queued for the next one
    ensures forall n :: Ready(nodes, n, positioned) ==>
      DepsIn(n, positioned0) || n.id in positioned || n.id in IdSet(next)
    // the next level is new nodes, each waiting on a node of this one
    ensures UniqueIds(next)
    ensures UniqueIds(nodes) ==> forall q :: q in next ==> q.id !in positioned && WaitedOn(q, current, positioned0)
  {
    ghost var unplacedLevel := UniqueIds(current) && (forall c :: c in current ==> c.id !in positioned0);
    positioned, result, next := positioned0, result0, [];
    var i := 0;
    while i < |current|
      invariant 0 <= i <= |current|
      invariant LevelInvariant(nodes, current, level, positioned0, result0, unplacedLevel, i, positioned, result, next)
    {
      positioned, result, next := PlaceStep(nodes, rev, current, level, positioned0, result0, unplacedLevel, i,
                                            positioned, result, next);
      i := i + 1;
    }
    assert current[..i] == current;
    forall c | c in current ensures c.id in positioned {
      var k :| 0 <= k < |current| && current[k] == c;
    }
  }

  /** What holds after the first `i` nodes of a level are handled. */
  ghost predicate LevelInvariant(nodes: seq<MindMapNode>, current: seq<MindMapNode>, level: nat,
                                 positioned0: set<string>, result0: seq<MindMapNode>, unplacedLevel: bool,
                                 i: nat, positioned: set<string>, result: seq<MindMapNode>,
                                 next: seq<MindMapNode>)
  {
    && i <= |current|
    && LayoutInvariant(nodes, positioned, result)
    && result0 <= result
    && positioned0 <= positioned
    && (positioned == positioned0 ==> next == [])
    && (forall n :: n in next ==> n in nodes && DepsIn(n, positioned))
    && (unplacedLevel ==> result == result0 + LevelRow(current[..i], level))
    && (forall k :: 0 <= k < i ==> current[k].id in positioned)
    && (forall n :: Ready(nodes, n, positioned) ==>
         DepsIn(n, positioned0) || n.id in positioned || n.id in IdSet(next))
    && UniqueIds(next)
    && (UniqueIds(nodes) ==> forall q :: q in next ==> q.id !in positioned && WaitedOn(q, current, positioned0))
  }

  /** One iteration of the level loop: handle the `i`-th node. */
  method PlaceStep(nodes: seq<MindMapNode>, rev: map<string, seq<string>>, current: seq<MindMapNode>,
                   level: nat, positioned0: set<string>, result0: seq<MindMapNode>, ghost unplacedLevel: bool,
                   i: nat, positioned1: set<string>, result1: seq<MindMapNode>, next1: seq<MindMapNode>)
    returns (positioned: set<string>, result: seq<MindMapNode>, next: seq<MindMapNode>)
    requires ReverseOf(rev, nodes)
    requires i < |current|
    requires forall c :: c in current ==> c in nodes && DepsIn(c, positioned0)
    requires unplacedLevel ==> UniqueIds(current) && (forall c :: c in current ==> c.id !in positioned0)
    requires positioned0 == IdSet(result0)
    requires LevelInvariant(nodes, current, level, positioned0, result0, unplacedLevel, i, positioned1, result1, next1)
    ensures LevelInvariant(nodes, current, level, positioned0, result0, unplacedLevel, i + 1, positioned, result, next)
  {
    var node := current[i];
    assert node in current;
    if unplacedLevel {
      LevelStep(current, i, level, positioned0, result0, result1);
    }
    DepsInGrow(node, positioned0, positioned1);
    positioned, result, next := PlaceNode(nodes, rev, node, i, level, positioned1, result1, next1);
    PrefixTransitive(result0, result1, result);
    if unplacedLevel {
      AppendAssoc(result0, LevelRow(current[..i], level), [node.(position := LevelPosition(level, i))]);
    }
    IdSetPrefix(next1, next);
    StepReady(nodes, positioned0, positioned1, next1, positioned, next);
    if UniqueIds(nodes) {
      StepQueued(nodes, current, i, positioned0, positioned1, next1, positioned, next);
    }
  }

  /** The readiness bookkeeping of one step composes with that of the
      steps before it. */
  lemma StepReady(nodes: seq<MindMapNode>, positioned0: set<string>, positioned1: set<string>,
                  next1: seq<MindMapNode>, positioned: set<string>, next: seq<MindMapNode>)
    requires positioned1 <= positioned && IdSet(next1) <= IdSet(next)
    requires forall n :: Ready(nodes, n, positioned1) ==>
      DepsIn(n, positioned0) || n.id in positioned1 || n.id in IdSet(next1)
    requires forall n :: Ready(nodes, n, positioned) ==>
      DepsIn(n, positioned1) || n.id in positioned || n.id in IdSet(next)
    ensures forall n :: Ready(nodes, n, positioned) ==>
      DepsIn(n, positioned0) || n.id in positioned || n.id in IdSet(next)
  {
    forall n | Ready(nodes, n, positioned)
      ensures DepsIn(n, positioned0) || n.id in positioned || n.id in IdSet(next)
    {
      if DepsIn(n, positioned1) {
        assert Ready(nodes, n, positioned1);
      }
    }
  }

  /** With unique ids, what is queued stays unplaced for the rest of the
      level: a queued node waits on this level, while every node of the
      level had its dependencies placed before it. */
  lemma StepQueued(nodes: seq<MindMapNode>, current: seq<MindMapNode>, i: nat, positioned0: set<string>,
                   positioned1: set<string>, next1: seq<MindMapNode>,
                   positioned: set<string>, next: seq<MindMapNode>)
    requires UniqueIds(nodes) && i < |current|
    requires current[i] in nodes && DepsIn(current[i], positioned0)
    requires positioned0 <= positioned1 && next1 <= next
    requires forall q :: q in next ==> q in nodes
    requires forall q :: q in next1 ==> q.id !in positioned1 && WaitedOn(q, current, positioned0)
    requires positioned == positioned1 || positioned == positioned1 + {current[i].id}
    requires forall k :: |next1| <= k < |next| ==> next[k].id !in positioned && current[i].id !in positioned1
    requires forall k :: |next1| <= k < |next| ==> current[i].id in next[k].dependencies
    ensures forall q :: q in next ==> q.id !in positioned && WaitedOn(q, current, positioned0)
  {
    var node := current[i];
    forall q | q in next ensures q.id !in positioned && WaitedOn(q, current, positioned0) {
      var k :| 0 <= k < |next| && next[k] == q;
      if k < |next1| {
        assert next1[k] == q && q in next1;
        if q.id == node.id {
          UniqueIdsDetermine(nodes, q, node);
        }
      } else {
        assert node in current;
      }
    }
  }

  /** The ids of a prefix are ids of the whole. */
  lemma IdSetPrefix(a: seq<MindMapNode>, b: seq<MindMapNode>)
    requires a <= b
    ensures IdSet(a) <= IdSet(b)
  {
    assert b == a + b[|a|..];
    IdSetConcat(a, b[|a|..]);
  }

  lemma DepsInGrow(n: MindMapNode, small: set<string>, large: set<string>)
    requires DepsIn(n, small) && small <= large
    ensures DepsIn(n, large)
  {
  }

  /** One step of a level whose nodes are all new: the `i`-th node is not
      placed yet, and placing it extends the row by one. */
  lemma LevelStep(current: seq<MindMapNode>, i: nat, level: nat, positioned0: set<string>,
                  result0: seq<MindMapNode>, result: seq<MindMapNode>)
    requires i < |current| && UniqueIds(current)
    requires forall c :: c in current ==> c.id !in positioned0
    requires positioned0 == IdSet(result0)
    requires result == result0 + LevelRow(current[..i], level)
    ensures current[i].id !in IdSet(result)
    ensures LevelRow(current[..i + 1], level)
         == LevelRow(current[..i], level) + [current[i].(position := LevelPosition(level, i))]
  {
    LevelRowSnoc(current, i, level);
    var row := LevelRow(current[..i], level);
    assert current[i].id !in IdSet(row) by {
      UniqueIdsPrefix(current, i);
      forall m | m in row ensures m.id in IdSet(current[..i]) {
        var j :| 0 <= j < |row| && row[j] == m;
        assert current[..i][j] in current[..i];
      }
    }
    assert current[i].id !in IdSet(result0) by {
      assert current[i] in current;
    }
    IdSetConcat(result0, row);
  }

  lemma PrefixTransitive<T>(a: seq<T>, b: seq<T>, c: seq<T>)
    requires a <= b && b <= c
    ensures a <= c
  {
    assert forall i :: 0 <= i < |a| ==> a[i] == b[i] == c[i];
  }

  lemma UnplacedShrinks(all: set<string>, before: set<string>, after: set<string>)
    requires before <= after <= all && before != after
    ensures |all - after| < |all - before|
  {
    var x :| x in after && x !in before;
    var big := all - before;
    var small := all - after;
    assert big == small + (big - small);
    assert x in big - small;
  }

  /** The levels of a walk laid out side by side: level `l` is column `l`,
      its nodes in rows 0, 1, ... in level order. */
  function Columns(walk: seq<seq<MindMapNode>>): seq<MindMapNode> {
    if walk == [] then []
    else Columns(walk[..|walk| - 1]) + LevelRow(walk[|walk| - 1], |walk| - 1)
  }

  lemma ColumnsSnoc(walk: seq<seq<MindMapNode>>, level: seq<MindMapNode>)
    ensures Columns(walk + [level]) == Columns(walk) + LevelRow(level, |walk|)
  {
    assert (walk + [level])[..|walk|] == walk;
  }

  /** Placing a level does not change its ids. */
  lemma IdSetLevelRow(s: seq<MindMapNode>, level: nat)
    ensures IdSet(LevelRow(s, level)) == IdSet(s)
  {
    var r := LevelRow(s, level);
    forall x | x in IdSet(s) ensures x in IdSet(r) {
      var n :| n in s && n.id == x;
      var k :| 0 <= k < |s| && s[k] == n;
      assert r[k] in r;
    }
  }

  /** The first level is the first column of every walk that has one. */
  lemma {:induction false} ColumnsFirst(walk: seq<seq<MindMapNode>>)
    requires walk != []
    ensures LevelRow(walk[0], 0) <= Columns(walk)
  {
    if |walk| > 1 {
      var init := walk[..|walk| - 1];
      ColumnsFirst(init);
      PrefixTransitive(LevelRow(walk[0], 0), Columns(init), Columns(walk));
    }
  }

  /** Level `cur`, following the levels `prev`, is well formed: it is not
      empty, repeats no id, holds input nodes not placed before it whose
      dependencies all are, and each of its nodes depends on a node of the
      level just before it. */
  predicate LevelOk(nodes: seq<MindMapNode>, prev: seq<seq<MindMapNode>>, cur: seq<MindMapNode>) {
    && cur != []
    && UniqueIds(cur)
    && (forall n :: n in cur ==>
         n in nodes && DepsIn(n, IdSet(Columns(prev))) && n.id !in IdSet(Columns(prev)))
    && (prev != [] ==> forall n :: n in cur ==>
         exists d :: d in n.dependencies && d in IdSet(prev[|prev| - 1]))
  }

  /** Every level of the walk is well formed. */
  predicate Leveled(nodes: seq<MindMapNode>, walk: seq<seq<MindMapNode>>) {
    walk == [] || (Leveled(nodes, walk[..|walk| - 1]) && LevelOk(nodes, walk[..|walk| - 1], walk[|walk| - 1]))
  }

  /** The indexed reading of `Leveled`: level `l` is well formed after the
      levels before it. */
  lemma {:induction false} LeveledAt(nodes: seq<MindMapNode>, walk: seq<seq<MindMapNode>>, l: nat)
    requires Leveled(nodes, walk) && l < |walk|
    ensures LevelOk(nodes, walk[..l], walk[l])
  {
    if l < |walk| - 1 {
      var init := walk[..|walk| - 1];
      LeveledAt(nodes, init, l);
      assert init[..l] == walk[..l];
    }
  }

  /** The `while` loop over dependency levels: level 0 is the roots; each
      level places its unplaced nodes and queues the dependents that became
      ready.  Returns the placed set, the placed nodes and the number of
      levels walked; the ghost `walk` lists the levels. */
  method WalkLevels(nodes: seq<MindMapNode>, rev: map<string, seq<string>>, roots: seq<MindMapNode>)
    returns (positioned: set<string>, result: seq<MindMapNode>, level: nat, ghost walk: seq<seq<MindMapNode>>)
    requires ReverseOf(rev, nodes)
    requires roots == Roots(nodes)
    ensures LayoutInvariant(nodes, positioned, result)
    ensures |walk| == level
    ensures walk == [] <==> roots == []
    ensures walk != [] ==> walk[0] == roots
    // the walk stops only when no node it owes a place is left out
    ensures forall n :: Ready(nodes, n, positioned) ==> n.id in positioned
    // with unique ids, the result is the levels side by side
    ensures UniqueIds(nodes) ==> result == Columns(walk) && Leveled(nodes, walk)
  {
    positioned, result := {}, [];
    level := 0;
    walk := [];
    var current := roots;
    RootsReady(nodes);
    while current != []
      invariant WalkLoopInvariant(nodes, roots, level, walk, current, positioned, result)
      decreases |IdSet(nodes) - positioned|, |current|
    {
      ghost var before := positioned;
      positioned, result, level, walk, current := WalkStep(nodes, rev, roots, level, walk, current, positioned, result);
      if positioned != before {
        UnplacedShrinks(IdSet(nodes), before, positioned);
      }
    }
    WalkDone(nodes, roots, level, walk, positioned, result);
  }

  /** What holds at the head of the level loop. */
  ghost predicate WalkLoopInvariant(nodes: seq<MindMapNode>, roots: seq<MindMapNode>, level: nat,
                                    walk: seq<seq<MindMapNode>>, current: seq<MindMapNode>,
                                    positioned: set<string>, result: seq<MindMapNode>)
  {
    && LayoutInvariant(nodes, positioned, result)
    && (forall c :: c in current ==> c in nodes && DepsIn(c, positioned))
    && level == |walk|
    && (level == 0 ==> result == [] && positioned == {} && current == roots)
    && (level > 0 ==> roots != [] && walk[0] == roots)
    && (forall n :: Ready(nodes, n, positioned) ==> n.id in positioned || n.id in IdSet(current))
    && (UniqueIds(nodes) ==> WalkInvariant(nodes, walk, current, positioned, result))
  }

  /** At the start every node without dependencies is a root, and the roots
      are a well-formed first level. */
  lemma RootsReady(nodes: seq<MindMapNode>)
    ensures WalkLoopInvariant(nodes, Roots(nodes), 0, [], Roots(nodes), {}, [])
  {
    var roots := Roots(nodes);
    forall n | Ready(nodes, n, {}) ensures n.id in IdSet(roots) {
      NoDepsPlaced(n);
      assert n in roots;
    }
    assert TopologicallyOrdered([]);
  }

  /** Only a node without dependencies has them all placed before anything is. */
  lemma NoDepsPlaced(n: MindMapNode)
    ensures DepsIn(n, {}) <==> n.dependencies == []
  {
    if n.dependencies != [] {
      assert !DepsIn(n, {}) by {
        assert n.dependencies[0] in n.dependencies;
      }
    }
  }

  /** When the level loop stops, its invariant gives the walk's results. */
  lemma WalkDone(nodes: seq<MindMapNode>, roots: seq<MindMapNode>, level: nat, walk: seq<seq<MindMapNode>>,
                 positioned: set<string>, result: seq<MindMapNode>)
    requires WalkLoopInvariant(nodes, roots, level, walk, [], positioned, result)
    ensures LayoutInvariant(nodes, positioned, result)
    ensures |walk| == level
    ensures walk == [] <==> roots == []
    ensures walk != [] ==> walk[0] == roots
    ensures forall n :: Ready(nodes, n, positioned) ==> n.id in positioned
    ensures UniqueIds(nodes) ==> result == Columns(walk) && Leveled(nodes, walk)
  {
    assert IdSet([]) == {};
  }

  /** One iteration of the level loop: place the current level and move on
      to the next. */
  method WalkStep(nodes: seq<MindMapNode>, rev: map<string, seq<string>>, roots: seq<MindMapNode>, level0: nat,
                  ghost walk0: seq<seq<MindMapNode>>, current0: seq<MindMapNode>,
                  positioned0: set<string>, result0: seq<MindMapNode>)
    returns (positioned: set<string>, result: seq<MindMapNode>, level: nat,
             ghost walk: seq<seq<MindMapNode>>, current: seq<MindMapNode>)
    requires ReverseOf(rev, nodes)
    requires current0 != []
    requires WalkLoopInvariant(nodes, roots, level0, walk0, current0, positioned0, result0)
    ensures WalkLoopInvariant(nodes, roots, level, walk, current, positioned, result)
    ensures positioned0 <= positioned <= IdSet(nodes)
    ensures positioned == positioned0 ==> current == []
  {
    positioned, result, current := PlaceLevel(nodes, rev, current0, level0, positioned0, result0);
    ReadyCarried(nodes, current0, positioned0, positioned, current);
    if UniqueIds(nodes) {
      WalkLevelKept(nodes, walk0, current0, positioned0, result0, positioned, result, current);
    }
    level := level0 + 1;
    walk := walk0 + [current0];
  }

  /** What the walk keeps true, with unique ids: the result is the levels
      so far side by side, and the pending level is well formed after them. */
  ghost predicate WalkInvariant(nodes: seq<MindMapNode>, walk: seq<seq<MindMapNode>>, current: seq<MindMapNode>,
                                positioned: set<string>, result: seq<MindMapNode>)
  {
    && result == Columns(walk)
    && Leveled(nodes, walk)
    && UniqueIds(current)
    && (forall q :: q in current ==> q.id !in positioned)
    && (walk != [] ==> forall q :: q in current ==>
         exists d :: d in q.dependencies && d in IdSet(walk[|walk| - 1]))
  }

  /** After a level, every node the walk owes a place is placed or pending. */
  lemma ReadyCarried(nodes: seq<MindMapNode>, current: seq<MindMapNode>, before: set<string>,
                     positioned: set<string>, next: seq<MindMapNode>)
    requires before <= positioned
    requires forall n :: Ready(nodes, n, before) ==> n.id in before || n.id in IdSet(current)
    requires forall c :: c in current ==> c.id in positioned
    requires forall n :: Ready(nodes, n, positioned) ==>
      DepsIn(n, before) || n.id in positioned || n.id in IdSet(next)
    ensures forall n :: Ready(nodes, n, positioned) ==> n.id in positioned || n.id in IdSet(next)
  {
    forall n | Ready(nodes, n, positioned) ensures n.id in positioned || n.id in IdSet(next) {
      if DepsIn(n, before) {
        assert Ready(nodes, n, before);
        if n.id in IdSet(current) {
          var c :| c in current && c.id == n.id;
        }
      }
    }
  }

  /** One level of the walk, with unique ids, keeps `WalkInvariant`. */
  lemma WalkLevelKept(nodes: seq<MindMapNode>, walk: seq<seq<MindMapNode>>, current: seq<MindMapNode>,
                 before: set<string>, resultBefore: seq<MindMapNode>,
                 positioned: set<string>, result: seq<MindMapNode>, next: seq<MindMapNode>)
    requires UniqueIds(nodes) && current != []
    requires LayoutInvariant(nodes, before, resultBefore)
    requires forall c :: c in current ==> c in nodes && DepsIn(c, before)
    requires WalkInvariant(nodes, walk, current, before, resultBefore)
    requires UniqueIds(current) && (forall c :: c in current ==> c.id !in before) ==>
      result == resultBefore + LevelRow(current, |walk|)
    requires UniqueIds(next)
    requires forall q :: q in next ==> q.id !in positioned && WaitedOn(q, current, before)
    ensures WalkInvariant(nodes, walk + [current], next, positioned, result)
  {
    var walk' := walk + [current];
    ColumnsSnoc(walk, current);
    assert walk'[..|walk|] == walk && walk'[|walk|] == current;
    assert LevelOk(nodes, walk, current);
    forall q | q in next ensures exists d :: d in q.dependencies && d in IdSet(walk'[|walk'| - 1]) {
      assert WaitedOn(q, current, before);
    }
  }

  /** The fallback pass over `nodes`: each node whose id is not in
      `reached` is appended, in column `levels`, at the row counting on from
      the `start` nodes placed before the pass. */
  function FallbackColumn(nodes: seq<MindMapNode>, reached: set<string>, levels: nat, start: nat)
    : seq<MindMapNode>
  {
    if nodes == [] then []
    else
      var init := FallbackColumn(nodes[..|nodes| - 1], reached, levels, start);
      var last := nodes[|nodes| - 1];
      init + (if last.id in reached then [] else [last.(position := LevelPosition(levels, start + |init|))])
  }

  /** The fallback column holds exactly the unreached nodes, in input
      order, stacked one row apart. */
  lemma {:induction false} FallbackColumnIsUnreached(nodes: seq<MindMapNode>, reached: set<string>,
                                                     levels: nat, start: nat)
    ensures |FallbackColumn(nodes, reached, levels, start)| == |Unreached(nodes, reached)|
    ensures forall k :: 0 <= k < |Unreached(nodes, reached)| ==>
      FallbackColumn(nodes, reached, levels, start)[k]
        == Unreached(nodes, reached)[k].(position := LevelPosition(levels, start + k))
  {
    if nodes != [] {
      FallbackColumnIsUnreached(nodes[..|nodes| - 1], reached, levels, start);
    }
  }

  /** The ids of the fallback column are exactly the ids not reached. */
  lemma {:induction false} FallbackColumnIds(nodes: seq<MindMapNode>, reached: set<string>,
                                             levels: nat, start: nat)
    ensures IdSet(FallbackColumn(nodes, reached, levels, start)) == IdSet(nodes) - reached
  {
    if nodes != [] {
      var init := nodes[..|nodes| - 1];
      var last := nodes[|nodes| - 1];
      var column := FallbackColumn(init, reached, levels, start);
      var moved := last.(position := LevelPosition(levels, start + |column|));
      assert IdSet(column) == IdSet(init) - reached by {
        FallbackColumnIds(init, reached, levels, start);
      }
      assert IdSet(nodes) == IdSet(init) + {last.id} by {
        assert nodes == init + [last];
        IdSetAppend(init, last);
      }
      if last.id in reached {
        assert FallbackColumn(nodes, reached, levels, start) == column;
      } else {
        assert FallbackColumn(nodes, reached, levels, start) == column + [moved];
        IdSetAppend(column, moved);
      }
    }
  }

  /** Every node of the fallback column is an input node, moved. */
  lemma {:induction false} FallbackColumnMoved(nodes: seq<MindMapNode>, reached: set<string>,
                                               levels: nat, start: nat)
    ensures forall r :: r in FallbackColumn(nodes, reached, levels, start) ==> MovedFrom(r, nodes)
  {
    if nodes != [] {
      var init := nodes[..|nodes| - 1];
      var last := nodes[|nodes| - 1];
      var column := FallbackColumn(init, reached, levels, start);
      FallbackColumnMoved(init, reached, levels, start);
      forall r | r in column ensures MovedFrom(r, nodes) {
        var n :| n in init && SameButPosition(r, n);
        assert n in nodes;
      }
      var moved := last.(position := LevelPosition(levels, start + |column|));
      assert SameButPosition(moved, last);
    }
  }

  /** The fallback column repeats no id when the input does not. */
  lemma {:induction false} FallbackColumnUnique(nodes: seq<MindMapNode>, reached: set<string>,
                                                levels: nat, start: nat)
    requires UniqueIds(nodes)
    ensures UniqueIds(FallbackColumn(nodes, reached, levels, start))
  {
    if nodes != [] {
      var init := nodes[..|nodes| - 1];
      var last := nodes[|nodes| - 1];
      var column := FallbackColumn(init, reached, levels, start);
      FallbackColumnUnique(init, reached, levels, start);
      if last.id !in reached {
        FallbackColumnIds(init, reached, levels, start);
        UniqueIdsPrefix(nodes, |nodes| - 1);
        UniqueIdsAppend(column, last.(position := LevelPosition(levels, start + |column|)));
      }
    }
  }

  /** Two id-disjoint lists without repeated ids concatenate to one. */
  lemma UniqueIdsConcat(a: seq<MindMapNode>, b: seq<MindMapNode>)
    requires UniqueIds(a) && UniqueIds(b)
    requires IdSet(a) !! IdSet(b)
    ensures UniqueIds(a + b)
  {
    var t := a + b;
    forall i, j | 0 <= i < j < |t| ensures t[i].id != t[j].id {
      if j < |a| {
        assert t[i] == a[i] && t[j] == a[j];
      } else if i < |a| {
        assert t[i] == a[i] && t[j] == b[j - |a|];
        assert a[i].id in IdSet(a) && b[j - |a|].id in IdSet(b);
      } else {
        assert t[i] == b[i - |a|] && t[j] == b[j - |a|];
      }
    }
  }

  /** The final `nodes.forEach`: every node whose id the walk did not place
      is appended, in input order, in column `level`, at the row of its
      position in the result.  The fallback never marks a node placed. */
  method PlaceUnreached(nodes: seq<MindMapNode>, positioned: set<string>, result0: seq<MindMapNode>, level: nat)
    returns (result: seq<MindMapNode>)
    ensures result == result0 + FallbackColumn(nodes, positioned, level, |result0|)
  {
    result := result0;
    var k := 0;
    while k < |nodes|
      invariant 0 <= k <= |nodes|
      invariant result == result0 + FallbackColumn(nodes[..k], positioned, level, |result0|)
    {
      var node := nodes[k];
      assert nodes[..k + 1][..k] == nodes[..k];
      if node.id !in positioned {
        result := result + [node.(position := LevelPosition(level, |result|))];
      }
      k := k + 1;
    }
    assert nodes[..k] == nodes;
  }

  /** `calculateHierarchicalLayout`.  The ghost results name the part of the
      result placed level by level (`placed` nodes), the number of levels
      walked (`levels`), which fixes the fallback column, and the levels
      themselves (`walk`). */
  method HierarchicalLayout(nodes: seq<MindMapNode>)
    returns (result: seq<MindMapNode>, ghost placed: nat, ghost levels: nat, ghost walk: seq<seq<MindMapNode>>)
    ensures nodes == [] ==> result == []
    // every placed node is an input node, moved; every input id is placed
    ensures forall r :: r in result ==> MovedFrom(r, nodes)
    ensures IdSet(result) == IdSet(nodes)
    ensures UniqueIds(nodes) ==> |result| == |nodes| && UniqueIds(result)
    // the level walk places each node after all its dependencies
    ensures placed <= |result|
    ensures TopologicallyOrdered(result[..placed]) && UniqueIds(result[..placed])
    // the walk has `levels` levels, the first being the roots
    ensures |walk| == levels
    ensures walk == [] <==> Roots(nodes) == []
    ensures walk != [] ==> walk[0] == Roots(nodes)
    // with unique ids, level l is column l, each node one level right of
    // the latest of its dependencies, and the roots form the first column
    ensures UniqueIds(nodes) ==> result[..placed] == Columns(walk) && Leveled(nodes, walk)
    ensures UniqueIds(nodes) ==> LevelRow(Roots(nodes), 0) <= result[..placed]
    // with unique ids, the walk places every node whose dependencies it
    // placed, so what it leaves out is blocked
    ensures UniqueIds(nodes) ==> forall n :: n in nodes && DepsIn(n, IdSet(result[..placed])) ==>
      n.id in IdSet(result[..placed])
    ensures UniqueIds(nodes) ==> Blocked(nodes, IdSet(nodes) - IdSet(result[..placed]))
    // the nodes the walk never reached follow in input order, in one column
    ensures result[placed..] == FallbackColumn(nodes, IdSet(result[..placed]), levels, placed)
  {
    if nodes == [] {
      return [], 0, 0, [];
    }
    var rev := BuildReverseDependencies(nodes);
    var roots := Roots(nodes);
    var positioned, walked, level;
    positioned, walked, level, walk := WalkLevels(nodes, rev, roots);
    placed, levels := |walked|, level;
    result := PlaceUnreached(nodes, positioned, walked, level);
    ghost var column := FallbackColumn(nodes, positioned, level, placed);
    assert result[..placed] == walked && result[placed..] == column;
    FallbackColumnIds(nodes, positioned, level, placed);
    FallbackColumnMoved(nodes, positioned, level, placed);
    IdSetConcat(walked, column);
    forall r | r in result ensures MovedFrom(r, nodes) {
      assert r in walked || r in column;
    }
    if UniqueIds(nodes) {
      FallbackColumnUnique(nodes, positioned, level, placed);
      UniqueIdsConcat(walked, column);
      UniqueIdsCount(nodes);
      UniqueIdsCount(result);
      if walk != [] {
        ColumnsFirst(walk);
      }
      WalkClosed(nodes, positioned);
    }
  }

  /** With unique ids, once every ready node is placed, every node whose
      dependencies are placed is placed, and the unplaced ids are blocked. */
  lemma WalkClosed(nodes: seq<MindMapNode>, positioned: set<string>)
    requires UniqueIds(nodes)
    requires forall n :: Ready(nodes, n, positioned) ==> n.id in positioned
    ensures forall n :: n in nodes && DepsIn(n, positioned) ==> n.id in positioned
    ensures Blocked(nodes, IdSet(nodes) - positioned)
  {
    forall n | n in nodes ensures FindById(nodes, n.id) == Some(n) {
      UniqueIdsDetermine(nodes, FindById(nodes, n.id).value, n);
    }
    forall n | n in nodes && n.id in IdSet(nodes) - positioned
      ensures exists d :: d in n.dependencies && (d in IdSet(nodes) - positioned || d !in IdSet(nodes))
    {
      assert !Ready(nodes, n, positioned);
      var d :| d in n.dependencies && d !in positioned;
    }
  }

  /** `optimizeLayout` is the hierarchical layout, with all its guarantees. */
  method OptimizeLayout(nodes: seq<MindMapNode>)
    returns (result: seq<MindMapNode>, ghost placed: nat, ghost levels: nat, ghost walk: seq<seq<MindMapNode>>)
    ensures nodes == [] ==> result == []
    ensures forall r :: r in result ==> MovedFrom(r, nodes)
    ensures IdSet(result) == IdSet(nodes)
    ensures UniqueIds(nodes) ==> |result| == |nodes| && UniqueIds(result)
    ensures placed <= |result|
    ensures TopologicallyOrdered(result[..placed]) && UniqueIds(result[..placed])
    ensures |walk| == levels
    ensures walk == [] <==> Roots(nodes) == []
    ensures walk != [] ==> walk[0] == Roots(nodes)
    ensures UniqueIds(nodes) ==> result[..placed] == Columns(walk) && Leveled(nodes, walk)
    ensures UniqueIds(nodes) ==> LevelRow(Roots(nodes), 0) <= result[..placed]
    ensures UniqueIds(nodes) ==> forall n :: n in nodes && DepsIn(n, IdSet(result[..placed])) ==>
      n.id in IdSet(result[..placed])
    ensures UniqueIds(nodes) ==> Blocked(nodes, IdSet(nodes) - IdSet(result[..placed]))
    ensures result[placed..] == FallbackColumn(nodes, IdSet(result[..placed]), levels, placed)
  {
    result, placed, levels, walk := HierarchicalLayout(nodes);
  }

  // ---------------------------------------------------------------------
  // What the level walk cannot place

  /** A set of ids no node of which can ever have all its dependencies
      placed before it: every node carrying one of these ids depends on
      another id of the set or on an id no node carries.  Dependency cycles
      and everything hanging on a missing node are blocked. */
  predicate Blocked(nodes: seq<MindMapNode>, c: set<string>) {
    forall n :: n in nodes && n.id in c ==>
      exists d :: d in n.dependencies && (d in c || d !in IdSet(nodes))
  }

  /** A topologically ordered sequence of input nodes never contains a
      blocked id. */
  lemma {:induction false} BlockedNeverPlaced(nodes: seq<MindMapNode>, head: seq<MindMapNode>,
                                              c: set<string>, i: nat)
    requires i <= |head|
    requires TopologicallyOrdered(head)
    requires forall r :: r in head ==> MovedFrom(r, nodes)
    requires Blocked(nodes, c)
    ensures forall j :: 0 <= j < i ==> head[j].id !in c
    decreases i
  {
    if i > 0 {
      BlockedNeverPlaced(nodes, head, c, i - 1);
      var h := head[i - 1];
      TopologicallyOrderedAt(head, i - 1);
      forall d | d in h.dependencies ensures d !in c && d in IdSet(nodes) {
        var g :| g in head[..i - 1] && g.id == d;
        var j :| 0 <= j < i - 1 && head[..i - 1][j] == g;
        assert head[j] == g && g in head;
        var mg :| mg in nodes && SameButPosition(g, mg);
        assert mg.id == d;
      }
      assert h in head;
      var m :| m in nodes && SameButPosition(h, m);
      assert m.dependencies == h.dependencies;
    }
  }

  /** Hence nodes on a dependency cycle, or hanging on a dependency no node
      carries, always land in the fallback column. */
  lemma BlockedFallsBack(nodes: seq<MindMapNode>, head: seq<MindMapNode>, c: set<string>, n: MindMapNode)
    requires TopologicallyOrdered(head)
    requires forall r :: r in head ==> MovedFrom(r, nodes)
    requires Blocked(nodes, c)
    requires n in nodes && n.id in c
    ensures n in Unreached(nodes, IdSet(head))
  {
    BlockedNeverPlaced(nodes, head, c, |head|);
  }
}
