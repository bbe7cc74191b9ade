/**
 * The renderer: the drawable primitives derived from a node list, namely one
 * arrow-headed line per resolvable successor link and one square per node.
 */
module Render {
  import opened Wrappers
  import opened Nodes

  /** The side of a node's square. */
  const Side: int := 50
  /** Half the side: the offset from a square's corner to its centre. */
  const Half: int := 25

  /**
   * A drawn connection from the centre of node `source` to the centre of
   * node `target`; the pair of ids is the element's key.
   */
  datatype Edge = Edge(source: int, target: int, from: Point, to: Point)

  /** A drawn node square; `key` is also the id pointer-down reports. */
  datatype Rect = Rect(key: int, corner: Point, width: int, height: int)

  function Center(p: Point): Point {
    Point(p.x + Half, p.y + Half)
  }

  predicate Contains(r: Rect, p: Point) {
    r.corner.x <= p.x <= r.corner.x + r.width && r.corner.y <= p.y <= r.corner.y + r.height
  }

  /** Whether node `n` has a successor that names a node of `all`. */
  predicate Resolves(all: seq<Node>, n: Node) {
    n.outdegree.Some? && n.outdegree.value in Ids(all)
  }

  /**
   * The path drawn for one node, or null when it has none: a path exactly
   * when its successor resolves, keyed by both ids, from its own centre to
   * the centre of the first node carrying the successor's id.
   */
  function EdgeFrom(all: seq<Node>, n: Node): (r: Option<Edge>)
    ensures r.Some? <==> Resolves(all, n)
    ensures r.Some? ==> r.value.source == n.id && r.value.target == n.outdegree.value &&
                        r.value.from == Center(n.position)
    ensures r.Some? ==> exists j :: 0 <= j < |all| && all[j].id == n.outdegree.value &&
                                    r.value.to == Center(all[j].position) &&
                                    forall k :: 0 <= k < j ==> all[k].id != n.outdegree.value
  {
    if n.outdegree.None? then None
    else
      match Find(all, n.outdegree.value)
      case None => None
      case Some(t) => Some(Edge(n.id, t.id, Center(n.position), Center(t.position)))
  }

  /**
   * The per-node result of the path `map`: slot i holds an edge exactly when
   * node i's successor resolves; the edge starts at node i's centre and ends
   * at the centre of the first node carrying the successor's id.
   */
  function EdgeSlots(nodes: seq<Node>): (r: seq<Option<Edge>>)
    ensures |r| == |nodes|
    ensures forall i :: 0 <= i < |nodes| ==> (r[i].Some? <==> Resolves(nodes, nodes[i]))
    ensures forall i :: 0 <= i < |nodes| && r[i].Some? ==>
              nodes[i].outdegree.Some? &&
              r[i].value.source == nodes[i].id &&
              r[i].value.target == nodes[i].outdegree.value &&
              r[i].value.from == Center(nodes[i].position)
    ensures forall i :: 0 <= i < |nodes| && r[i].Some? ==>
              exists j :: 0 <= j < |nodes| && nodes[j].id == r[i].value.target &&
                          r[i].value.to == Center(nodes[j].position) &&
                          forall k :: 0 <= k < j ==> nodes[k].id != r[i].value.target
  {
    seq(|nodes|, i requires 0 <= i < |nodes| => EdgeFrom(nodes, nodes[i]))
  }

  /** The number of non-null entries. */
  function SomeCount<T>(s: seq<Option<T>>): nat {
    if |s| == 0 then 0 else (if s[0].Some? then 1 else 0) + SomeCount(s[1..])
  }

  lemma {:induction false} SomeCountConcat<T>(a: seq<Option<T>>, b: seq<Option<T>>)
    ensures SomeCount(a + b) == SomeCount(a) + SomeCount(b)
  {
    if |a| == 0 {
      assert a + b == b;
    } else {
      assert (a + b)[0] == a[0] && (a + b)[1..] == a[1..] + b;
      SomeCountConcat(a[1..], b);
    }
  }

  /**
   * A non-null entry has more non-null entries before any later position
   * than before itself, so distinct non-null entries land at distinct,
   * ordered places of the drawn list.
   */
  lemma SomeCountPrefixGrows<T>(s: seq<Option<T>>, i: nat, j: nat)
    requires i < j <= |s| && s[i].Some?
    ensures SomeCount(s[..i]) < SomeCount(s[..j])
  {
    assert s[..j] == s[..i] + [s[i]] + s[i + 1..j];
    SomeCountConcat(s[..i] + [s[i]], s[i + 1..j]);
    SomeCountConcat(s[..i], [s[i]]);
    assert [s[i]][1..] == [];
  }

  /**
   * The values of the non-null entries, in order (what the svg draws of a
   * list with nulls): one value per non-null entry, and entry i's value sits
   * right after the values of the non-null entries before it.
   */
  function Somes<T(!new)>(s: seq<Option<T>>): (r: seq<T>)
    ensures |r| == SomeCount(s)
    ensures forall x :: x in r <==> Some(x) in s
    ensures forall i :: 0 <= i < |s| && s[i].Some? ==>
              SomeCount(s[..i]) < |r| && r[SomeCount(s[..i])] == s[i].value
  {
    if |s| == 0 then []
    else
      var rest := Somes(s[1..]);
      var r := (if s[0].Some? then [s[0].value] else []) + rest;
      assert forall i :: 1 <= i < |s| ==> s[..i] == [s[0]] + s[1..][..i - 1];
      assert forall i :: 1 <= i < |s| ==> SomeCount(s[..i]) == (if s[0].Some? then 1 else 0) + SomeCount(s[1..][..i - 1]);
      assert forall i :: 1 <= i < |s| ==> s[i] == s[1..][i - 1];
      r
  }

  /** The number of nodes of `ns` whose successor resolves in `all`. */
  function CountResolving(all: seq<Node>, ns: seq<Node>): nat {
    if |ns| == 0 then 0 else (if Resolves(all, ns[0]) then 1 else 0) + CountResolving(all, ns[1..])
  }

  lemma {:induction false} SlotCount(all: seq<Node>, ns: seq<Node>, slots: seq<Option<Edge>>)
    requires |slots| == |ns|
    requires forall i :: 0 <= i < |ns| ==> (slots[i].Some? <==> Resolves(all, ns[i]))
    ensures SomeCount(slots) == CountResolving(all, ns)
  {
    if |ns| > 0 {
      SlotCount(all, ns[1..], slots[1..]);
    }
  }

  /**
   * The edges that are drawn: exactly one per node whose successor
   * resolves, in node order, the one of node i following those of the
   * resolving nodes before it.
   */
  function Edges(nodes: seq<Node>): (r: seq<Edge>)
    ensures |r| == CountResolving(nodes, nodes)
    ensures forall i :: 0 <= i < |nodes| && Resolves(nodes, nodes[i]) ==>
              SomeCount(EdgeSlots(nodes)[..i]) < |r| &&
              r[SomeCount(EdgeSlots(nodes)[..i])] == EdgeSlots(nodes)[i].value
  {
    SlotCount(nodes, nodes, EdgeSlots(nodes));
    Somes(EdgeSlots(nodes))
  }

  /** Of two resolving nodes, the one earlier in the list has the earlier edge. */
  lemma EdgesInNodeOrder(nodes: seq<Node>, i: nat, j: nat)
    requires i < j < |nodes|
    requires Resolves(nodes, nodes[i]) && Resolves(nodes, nodes[j])
    ensures SomeCount(EdgeSlots(nodes)[..i]) < SomeCount(EdgeSlots(nodes)[..j]) < |Edges(nodes)|
    ensures Edges(nodes)[SomeCount(EdgeSlots(nodes)[..i])].source == nodes[i].id
    ensures Edges(nodes)[SomeCount(EdgeSlots(nodes)[..j])].source == nodes[j].id
  {
    SomeCountPrefixGrows(EdgeSlots(nodes), i, j);
  }

  /** `nodeData.map(node => <rect …/>)`: one 50 by 50 square per node, in list order. */
  function Rects(nodes: seq<Node>): (r: seq<Rect>)
    ensures |r| == |nodes|
    ensures forall i :: 0 <= i < |nodes| ==>
              r[i].key == nodes[i].id && r[i].corner == nodes[i].position &&
              r[i].width == Side && r[i].height == Side
  {
    seq(|nodes|, i requires 0 <= i < |nodes| => Rect(nodes[i].id, nodes[i].position, Side, Side))
  }

  /**
   * With unique ids, node i contributes exactly the edge from its own centre
   * to its successor's centre when the successor exists.
   */
  lemma EdgeOfResolvedNode(nodes: seq<Node>, i: nat, j: nat)
    requires IdsUnique(nodes)
    requires i < |nodes| && j < |nodes|
    requires nodes[i].outdegree == Some(nodes[j].id)
    ensures Edge(nodes[i].id, nodes[j].id, Center(nodes[i].position), Center(nodes[j].position)) in Edges(nodes)
  {
    FindUnique(nodes, j);
    assert Ids(nodes)[j] == nodes[j].id;
    assert EdgeSlots(nodes)[i].Some?;
  }

  /**
   * With unique ids, a node whose successor names no node (a dangling
   * reference) is the source of no drawn edge, and nothing is raised.
   */
  lemma DanglingSuccessorDrawsNothing(nodes: seq<Node>, i: nat)
    requires IdsUnique(nodes)
    requires i < |nodes|
    requires !Resolves(nodes, nodes[i])
    ensures forall e :: e in Edges(nodes) ==> e.source != nodes[i].id
  {
    var slots := EdgeSlots(nodes);
    forall e | e in Edges(nodes) ensures e.source != nodes[i].id {
      var k :| 0 <= k < |slots| && slots[k] == Some(e);
      if k == i {
        assert false;
      } else {
        assert nodes[k].id != nodes[i].id by {
          if k < i { assert nodes[k].id != nodes[i].id; } else { assert nodes[i].id != nodes[k].id; }
        }
      }
    }
  }

  /** When every successor resolves, there are as many edges as nodes. */
  lemma {:induction false} AllResolvedEdgeCount(nodes: seq<Node>)
    requires forall i :: 0 <= i < |nodes| ==> Resolves(nodes, nodes[i])
    ensures |Edges(nodes)| == |nodes|
  {
    AllResolving(nodes, nodes);
  }

  lemma {:induction false} AllResolving(all: seq<Node>, ns: seq<Node>)
    requires forall i :: 0 <= i < |ns| ==> Resolves(all, ns[i])
    ensures CountResolving(all, ns) == |ns|
  {
    if |ns| > 0 {
      AllResolving(all, ns[1..]);
    }
  }

  /**
   * Both ends of every drawn edge sit inside drawn squares: the start in a
   * square keyed by the source id, the end in a square keyed by the target id.
   */
  lemma EdgesJoinRects(nodes: seq<Node>, e: Edge)
    requires e in Edges(nodes)
    ensures exists i :: 0 <= i < |nodes| && Rects(nodes)[i].key == e.source && Contains(Rects(nodes)[i], e.from)
    ensures exists j :: 0 <= j < |nodes| && Rects(nodes)[j].key == e.target && Contains(Rects(nodes)[j], e.to)
  {
    var slots := EdgeSlots(nodes);
    var i :| 0 <= i < |slots| && slots[i] == Some(e);
    var j :| 0 <= j < |nodes| && nodes[j] == Find(nodes, e.target).value && e.to == Center(nodes[j].position);
    assert Contains(Rects(nodes)[i], e.from);
    assert Contains(Rects(nodes)[j], e.to);
  }

  /** Repositioning never adds or removes an edge, nor changes what it connects. */
  lemma MoveNodeKeepsEdgeSlots(nodes: seq<Node>, id: int, x: int, y: int)
    ensures |EdgeSlots(MoveNode(nodes, id, x, y))| == |EdgeSlots(nodes)|
    ensures forall i :: 0 <= i < |nodes| ==>
              EdgeSlots(MoveNode(nodes, id, x, y))[i].Some? == EdgeSlots(nodes)[i].Some?
    ensures forall i :: 0 <= i < |nodes| && EdgeSlots(nodes)[i].Some? ==>
              EdgeSlots(MoveNode(nodes, id, x, y))[i].value.source == EdgeSlots(nodes)[i].value.source &&
              EdgeSlots(MoveNode(nodes, id, x, y))[i].value.target == EdgeSlots(nodes)[i].value.target
  {
    MoveNodeKeepsLinks(nodes, id, x, y);
  }

  /**
   * With unique ids, after a node is moved every edge leaving it starts, and
   * every edge entering it ends, at the centre of its new position.
   */
  lemma MovedNodeEdgesFollow(nodes: seq<Node>, id: int, x: int, y: int)
    requires IdsUnique(nodes)
    ensures forall e :: e in Edges(MoveNode(nodes, id, x, y)) && e.source == id ==> e.from == Center(Point(x, y))
    ensures forall e :: e in Edges(MoveNode(nodes, id, x, y)) && e.target == id ==> e.to == Center(Point(x, y))
  {
    var moved := MoveNode(nodes, id, x, y);
    MoveNodeKeepsLinks(nodes, id, x, y);
    assert IdsUnique(moved) by {
      forall i, j | 0 <= i < j < |moved| ensures moved[i].id != moved[j].id {
        assert Ids(moved)[i] == Ids(nodes)[i] && Ids(moved)[j] == Ids(nodes)[j];
      }
    }
    var slots := EdgeSlots(moved);
    forall e | e in Edges(moved)
      ensures e.source == id ==> e.from == Center(Point(x, y))
      ensures e.target == id ==> e.to == Center(Point(x, y))
    {
      var k :| 0 <= k < |slots| && slots[k] == Some(e);
      var j :| 0 <= j < |moved| && moved[j].id == e.target && e.to == Center(moved[j].position);
    }
  }

  /** The seeded chain draws the three edges 1 -> 2, 2 -> 3 and 3 -> 4. */
  lemma InitialEdges()
    ensures Edges(InitialNodes()) == [
      Edge(1, 2, Point(125, 225), Point(225, 325)),
      Edge(2, 3, Point(225, 325), Point(325, 425)),
      Edge(3, 4, Point(325, 425), Point(425, 525)) ]
  {
    var e1 := Edge(1, 2, Point(125, 225), Point(225, 325));
    var e2 := Edge(2, 3, Point(225, 325), Point(325, 425));
    var e3 := Edge(3, 4, Point(325, 425), Point(425, 525));
    InitialSlots();
    SomesOfThree(e1, e2, e3);
  }

  lemma InitialSlots()
    ensures EdgeSlots(InitialNodes()) == [
      Some(Edge(1, 2, Point(125, 225), Point(225, 325))),
      Some(Edge(2, 3, Point(225, 325), Point(325, 425))),
      Some(Edge(3, 4, Point(325, 425), Point(425, 525))),
      None ]
  {
    var nodes := InitialNodes();
    FindUnique(nodes, 1);
    FindUnique(nodes, 2);
    FindUnique(nodes, 3);
    assert EdgeFrom(nodes, nodes[0]) == Some(Edge(1, 2, Point(125, 225), Point(225, 325)));
    assert EdgeFrom(nodes, nodes[1]) == Some(Edge(2, 3, Point(225, 325), Point(325, 425)));
    assert EdgeFrom(nodes, nodes[2]) == Some(Edge(3, 4, Point(325, 425), Point(425, 525)));
    assert EdgeFrom(nodes, nodes[3]) == None;
  }

  lemma SomesOfThree<T(!new)>(a: T, b: T, c: T)
    ensures Somes([Some(a), Some(b), Some(c), None]) == [a, b, c]
  {
    var s := [Some(a), Some(b), Some(c), None];
    assert s[1..] == [Some(b), Some(c), None];
    assert s[1..][1..] == [Some(c), None];
    assert s[1..][1..][1..] == [None];
    assert s[1..][1..][1..][1..] == [];
    assert Somes(s[1..][1..][1..]) == [];
    assert Somes(s[1..][1..]) == [c];
    assert Somes(s[1..]) == [b, c];
  }
}
