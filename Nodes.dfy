/**
 * The graph model of the journey builder: node records, the seed chain and
 * the pure reposition operation (`moveNode`) with the `find` lookup used by
 * the renderer.
 */
module Nodes {
  import opened Wrappers

  /** A point in canvas coordinates. */
  datatype Point = Point(x: int, y: int)

  /**
   * One step of the journey. `indegree` is the id of the predecessor and
   * `outdegree` the id of the successor; either may be null.
   */
  datatype Node = Node(id: int, position: Point, indegree: Option<int>, outdegree: Option<int>)

  /** The part of a node that repositioning and dragging never change. */
  datatype Link = Link(id: int, indegree: Option<int>, outdegree: Option<int>)

  function LinkOf(n: Node): Link {
    Link(n.id, n.indegree, n.outdegree)
  }

  /** The links of a node list, in list order. */
  function Links(nodes: seq<Node>): (r: seq<Link>)
    ensures |r| == |nodes|
  {
    seq(|nodes|, i requires 0 <= i < |nodes| => LinkOf(nodes[i]))
  }

  /** The ids of a node list, in list order. */
  function Ids(nodes: seq<Node>): (r: seq<int>)
    ensures |r| == |nodes|
  {
    seq(|nodes|, i requires 0 <= i < |nodes| => nodes[i].id)
  }

  ghost predicate IdsUnique(nodes: seq<Node>) {
    forall i, j :: 0 <= i < j < |nodes| ==> nodes[i].id != nodes[j].id
  }

  /** The four seeded nodes: the chain 1 -> 2 -> 3 -> 4 on a diagonal. */
  function InitialNodes(): (r: seq<Node>)
    ensures |r| == 4 && IdsUnique(r)
    ensures forall i :: 0 <= i < |r| ==> r[i].id == i + 1
  {
    [ Node(1, Point(100, 200), None, Some(2)),
      Node(2, Point(200, 300), Some(1), Some(3)),
      Node(3, Point(300, 400), Some(2), Some(4)),
      Node(4, Point(400, 500), Some(3), None) ]
  }

  /**
   * The seed is a chain: each node's successor is the next node's id and
   * each node's predecessor the previous node's id; the first node has no
   * predecessor and the last no successor.
   */
  lemma InitialIsChain()
    ensures |InitialNodes()| == 4
    ensures forall i :: 0 <= i < 4 ==> InitialNodes()[i].id == i + 1
    ensures forall i :: 0 <= i < 3 ==> InitialNodes()[i].outdegree == Some(InitialNodes()[i + 1].id)
    ensures forall i :: 0 <= i < 3 ==> InitialNodes()[i + 1].indegree == Some(InitialNodes()[i].id)
    ensures InitialNodes()[0].indegree == None && InitialNodes()[3].outdegree == None
  {
  }

  /**
   * The index of the first node whose id is `id`, as `Array.prototype.find`
   * scans the list from the front.
   */
  function FindIndex(nodes: seq<Node>, id: int): (r: Option<nat>)
    ensures r.Some? ==> r.value < |nodes| && nodes[r.value].id == id
    ensures r.Some? ==> forall j :: 0 <= j < r.value ==> nodes[j].id != id
    ensures r.None? <==> id !in Ids(nodes)
  {
    if |nodes| == 0 then None
    else
      assert Ids(nodes) == [nodes[0].id] + Ids(nodes[1..]);
      if nodes[0].id == id then Some(0)
      else
        match FindIndex(nodes[1..], id)
        case None => None
        case Some(i) => Some(i + 1)
  }

  /** `nodes.find(n => n.id === id)`: the first node with that id, if any. */
  function Find(nodes: seq<Node>, id: int): (r: Option<Node>)
    ensures r.Some? <==> id in Ids(nodes)
    ensures r.Some? ==> r.value.id == id && r.value in nodes
    ensures r.Some? ==> exists k :: 0 <= k < |nodes| && r.value == nodes[k] &&
                                    forall j :: 0 <= j < k ==> nodes[j].id != id
  {
    match FindIndex(nodes, id)
    case None => None
    case Some(i) => Some(nodes[i])
  }

  /** The lookup depends on the ids alone, not on positions. */
  lemma {:induction false} FindIndexByIds(a: seq<Node>, b: seq<Node>, id: int)
    requires Ids(a) == Ids(b)
    ensures FindIndex(a, id) == FindIndex(b, id)
  {
    if |a| > 0 {
      assert a[0].id == Ids(a)[0] == Ids(b)[0] == b[0].id;
      assert Ids(a[1..]) == Ids(a)[1..];
      assert Ids(b[1..]) == Ids(b)[1..];
      FindIndexByIds(a[1..], b[1..], id);
    }
  }

  /** With unique ids, looking up a node's own id finds that node. */
  lemma FindUnique(nodes: seq<Node>, k: nat)
    requires IdsUnique(nodes)
    requires k < |nodes|
    ensures FindIndex(nodes, nodes[k].id) == Some(k)
    ensures Find(nodes, nodes[k].id) == Some(nodes[k])
  {
    assert Ids(nodes)[k] == nodes[k].id;
  }

  /** `{ ...node, position: { x, y } }` */
  function WithPosition(n: Node, x: int, y: int): (r: Node)
    ensures r.position == Point(x, y)
    ensures LinkOf(r) == LinkOf(n)
  {
    n.(position := Point(x, y))
  }

  /**
   * `moveNode`: every node whose id is `id` gets position (x, y), every
   * other node is returned as it was, and the order is kept.
   */
  function MoveNode(nodes: seq<Node>, id: int, x: int, y: int): (r: seq<Node>)
    ensures |r| == |nodes|
    ensures forall i :: 0 <= i < |nodes| && nodes[i].id == id ==>
              r[i].position == Point(x, y) && LinkOf(r[i]) == LinkOf(nodes[i])
    ensures forall i :: 0 <= i < |nodes| && nodes[i].id != id ==> r[i] == nodes[i]
  {
    if |nodes| == 0 then []
    else
      var rest := MoveNode(nodes[1..], id, x, y);
      (if nodes[0].id == id then [WithPosition(nodes[0], x, y)] else [nodes[0]]) + rest
  }

  /** Repositioning never changes an id, a predecessor or a successor. */
  lemma MoveNodeKeepsLinks(nodes: seq<Node>, id: int, x: int, y: int)
    ensures Links(MoveNode(nodes, id, x, y)) == Links(nodes)
    ensures Ids(MoveNode(nodes, id, x, y)) == Ids(nodes)
  {
    var r := MoveNode(nodes, id, x, y);
    forall i | 0 <= i < |nodes|
      ensures Links(r)[i] == Links(nodes)[i] && Ids(r)[i] == Ids(nodes)[i]
    {
    }
  }

  /** Moving an id that is not in the list gives back the list unchanged. */
  lemma MoveNodeAbsent(nodes: seq<Node>, id: int, x: int, y: int)
    requires id !in Ids(nodes)
    ensures MoveNode(nodes, id, x, y) == nodes
  {
    var r := MoveNode(nodes, id, x, y);
    forall i | 0 <= i < |nodes| ensures r[i] == nodes[i] {
      assert Ids(nodes)[i] == nodes[i].id;
    }
  }

  /** After a move, looking the id up finds the node at its new position. */
  lemma MoveNodeFind(nodes: seq<Node>, id: int, x: int, y: int)
    requires id in Ids(nodes)
    ensures Find(MoveNode(nodes, id, x, y), id).Some?
    ensures Find(MoveNode(nodes, id, x, y), id).value.position == Point(x, y)
    ensures LinkOf(Find(MoveNode(nodes, id, x, y), id).value) == LinkOf(Find(nodes, id).value)
  {
    MoveNodeKeepsLinks(nodes, id, x, y);
    FindIndexByIds(MoveNode(nodes, id, x, y), nodes, id);
  }

  /** A second move of the same id overrides the first: the last move wins. */
  lemma MoveNodeLastWins(nodes: seq<Node>, id: int, x1: int, y1: int, x2: int, y2: int)
    ensures MoveNode(MoveNode(nodes, id, x1, y1), id, x2, y2) == MoveNode(nodes, id, x2, y2)
  {
    var a := MoveNode(MoveNode(nodes, id, x1, y1), id, x2, y2);
    var b := MoveNode(nodes, id, x2, y2);
    forall i | 0 <= i < |nodes| ensures a[i] == b[i] {
    }
  }

  /** Moves of two different ids touch different nodes, so they commute. */
  lemma MoveNodeCommutes(nodes: seq<Node>, id1: int, x1: int, y1: int, id2: int, x2: int, y2: int)
    requires id1 != id2
    ensures MoveNode(MoveNode(nodes, id1, x1, y1), id2, x2, y2)
         == MoveNode(MoveNode(nodes, id2, x2, y2), id1, x1, y1)
  {
    var a := MoveNode(MoveNode(nodes, id1, x1, y1), id2, x2, y2);
    var b := MoveNode(MoveNode(nodes, id2, x2, y2), id1, x1, y1);
    forall i | 0 <= i < |nodes| ensures a[i] == b[i] {
    }
  }
}
