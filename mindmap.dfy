/**
 * The mind-map node: one unit of work in a project plan, with the fields
 * the editor reads.  `dependencies` is the optional id list of the source;
 * an absent list behaves as the empty one everywhere in the core, so the
 * model keeps only the list.
 */
module MindMap {
  import opened Wrappers

  datatype NodeType = Start | Task | Milestone | Component | End
  datatype Status = Pending | InProgress | Completed
  datatype Priority = Low | Medium | High | Critical

  datatype Position = Position(x: int, y: int)

  datatype MindMapNode = MindMapNode(
    id: string,
    title: string,
    description: string,
    kind: NodeType,
    position: Position,
    status: Status,
    priority: Priority,
    estimatedHours: Option<int>,
    dependencies: seq<string>)

  /** The ids of a node list, in order. */
  function Ids(s: seq<MindMapNode>): (r: seq<string>)
    ensures |r| == |s|
    ensures forall i :: 0 <= i < |s| ==> r[i] == s[i].id
  {
    seq(|s|, i requires 0 <= i < |s| => s[i].id)
  }

  /** The set of ids occurring in a node list. */
  function IdSet(s: seq<MindMapNode>): set<string> {
    set n | n in s :: n.id
  }

  predicate UniqueIds(s: seq<MindMapNode>) {
    forall i, j :: 0 <= i < j < |s| ==> s[i].id != s[j].id
  }

  /** `a` is `b` moved somewhere else: every field but the position agrees. */
  predicate SameButPosition(a: MindMapNode, b: MindMapNode) {
    a.(position := b.position) == b
  }

  /** `s.find(n => n.id === id)`: the first node carrying `id`. */
  function FindById(s: seq<MindMapNode>, id: string): (r: Option<MindMapNode>)
    ensures r.Some? ==> r.value in s && r.value.id == id
    ensures r.None? <==> id !in IdSet(s)
  {
    if s == [] then None
    else
      IdSetCons(s);
      if s[0].id == id then Some(s[0]) else FindById(s[1..], id)
  }

  /** `find` returns the first match: the node at the first index carrying
      `id`. */
  lemma {:induction false} FindByIdIsFirst(s: seq<MindMapNode>, id: string, i: nat)
    requires i < |s| && s[i].id == id
    requires forall j :: 0 <= j < i ==> s[j].id != id
    ensures FindById(s, id) == Some(s[i])
  {
    if i > 0 {
      FindByIdIsFirst(s[1..], id, i - 1);
    }
  }

  lemma IdSetCons(s: seq<MindMapNode>)
    requires s != []
    ensures IdSet(s) == {s[0].id} + IdSet(s[1..])
  {
    assert forall m :: m in s <==> m == s[0] || m in s[1..] by {
      assert s == [s[0]] + s[1..];
    }
  }

  lemma IdSetAppend(s: seq<MindMapNode>, n: MindMapNode)
    ensures IdSet(s + [n]) == IdSet(s) + {n.id}
  {
    assert forall m :: m in s + [n] <==> m in s || m == n;
  }

  lemma IdSetConcat(a: seq<MindMapNode>, b: seq<MindMapNode>)
    ensures IdSet(a + b) == IdSet(a) + IdSet(b)
  {
    assert forall m :: m in a + b <==> m in a || m in b;
  }

  lemma IdSetOfIds(s: seq<MindMapNode>, x: string)
    ensures x in IdSet(s) <==> x in Ids(s)
  {
    if x in IdSet(s) {
      var n :| n in s && n.id == x;
      var i :| 0 <= i < |s| && s[i] == n;
      assert Ids(s)[i] == x;
    }
  }

  /** With unique ids, a node list has as many distinct ids as nodes. */
  lemma {:induction false} UniqueIdsCount(s: seq<MindMapNode>)
    requires UniqueIds(s)
    ensures |IdSet(s)| == |s|
  {
    if s != [] {
      var p := s[..|s| - 1];
      var last := s[|s| - 1];
      assert s == p + [last];
      UniqueIdsCount(p);
      IdSetAppend(p, last);
    }
  }

  /** Appending a node whose id is new keeps the ids unique. */
  lemma UniqueIdsAppend(s: seq<MindMapNode>, n: MindMapNode)
    requires UniqueIds(s)
    requires n.id !in IdSet(s)
    ensures UniqueIds(s + [n])
  {
    var t := s + [n];
    forall i, j | 0 <= i < j < |t| ensures t[i].id != t[j].id {
      if j == |s| {
        assert t[i] == s[i];
        assert s[i] in s;
      }
    }
  }

  lemma UniqueIdsTail(s: seq<MindMapNode>)
    requires s != [] && UniqueIds(s)
    ensures UniqueIds(s[1..]) && s[0].id !in IdSet(s[1..])
  {
    assert forall m :: m in s[1..] ==> m.id != s[0].id by {
      forall m | m in s[1..] ensures m.id != s[0].id {
        var j :| 0 <= j < |s[1..]| && s[1..][j] == m;
        assert s[j + 1] == m;
      }
    }
  }

  lemma UniqueIdsCons(n: MindMapNode, s: seq<MindMapNode>)
    requires UniqueIds(s)
    requires n.id !in IdSet(s)
    ensures UniqueIds([n] + s)
  {
    var t := [n] + s;
    forall i, j | 0 <= i < j < |t| ensures t[i].id != t[j].id {
      assert t[j] == s[j - 1];
      if i == 0 {
        assert s[j - 1] in s;
      } else {
        assert t[i] == s[i - 1];
      }
    }
  }

  /** With unique ids, the id of the k-th node does not occur before it. */
  lemma UniqueIdsPrefix(s: seq<MindMapNode>, k: nat)
    requires UniqueIds(s) && k < |s|
    ensures s[k].id !in IdSet(s[..k])
  {
    forall m | m in s[..k] ensures m.id != s[k].id {
      var j :| 0 <= j < k && s[..k][j] == m;
      assert s[j] == m;
    }
  }

  /** With unique ids, a node is determined by its id. */
  lemma UniqueIdsDetermine(s: seq<MindMapNode>, a: MindMapNode, b: MindMapNode)
    requires UniqueIds(s) && a in s && b in s && a.id == b.id
    ensures a == b
  {
    var i :| 0 <= i < |s| && s[i] == a;
    var j :| 0 <= j < |s| && s[j] == b;
  }
}
