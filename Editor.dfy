/**
 * The journey builder component: its two state cells, the node list and the
 * id of the node being dragged, and the pointer handlers that update them.
 */
module Editor {
  import opened Wrappers
  import opened Nodes
  import opened Canvas
  import opened Render

  /** The node is centred under the pointer: its corner is this far up and left. */
  const DragOffset: int := 25

  /** Where the dragged node's corner goes for a pointer at (clientX, clientY) over a canvas at (left, top). */
  function DragTarget(clientX: int, clientY: int, left: int, top: int): (r: Point)
    ensures Center(r) == Point(clientX - left, clientY - top)
  {
    Point(clientX - left - DragOffset, clientY - top - DragOffset)
  }

  /**
   * The pointer's position relative to the canvas lies inside the square
   * of the node dragged there, at its centre.
   */
  lemma DragCentresNode(nodes: seq<Node>, d: int, clientX: int, clientY: int, left: int, top: int, i: nat)
    requires i < |nodes| && nodes[i].id == d
    ensures Rects(MoveNode(nodes, d, DragTarget(clientX, clientY, left, top).x, DragTarget(clientX, clientY, left, top).y))[i].key == d
    ensures Center(Rects(MoveNode(nodes, d, DragTarget(clientX, clientY, left, top).x, DragTarget(clientX, clientY, left, top).y))[i].corner)
         == Point(clientX - left, clientY - top)
    ensures Contains(Rects(MoveNode(nodes, d, DragTarget(clientX, clientY, left, top).x, DragTarget(clientX, clientY, left, top).y))[i],
                     Point(clientX - left, clientY - top))
  {
  }

  class JourneyBuilder {
    /** `nodeData` */
    var nodes: seq<Node>
    /** `draggingNodeId`; None is null. */
    var dragging: Option<int>

    /** The ids and links are still those of the seed: only positions ever change. */
    ghost predicate Valid()
      reads this
    {
      Links(nodes) == Links(InitialNodes())
    }

    /** The component mounts with the seeded chain and nothing being dragged. */
    constructor ()
      ensures Valid()
      ensures nodes == InitialNodes() && dragging == None
    {
      nodes := InitialNodes();
      dragging := None;
    }

    /** `moveNode`: repositions the node with that id; nothing else changes. */
    method MoveNode(id: int, x: int, y: int)
      requires Valid()
      modifies this`nodes
      ensures Valid()
      ensures nodes == Nodes.MoveNode(old(nodes), id, x, y)
    {
      MoveNodeKeepsLinks(nodes, id, x, y);
      nodes := Nodes.MoveNode(nodes, id, x, y);
    }

    /** `handlePointerDown`: the pressed node becomes the dragged one, whatever was dragged before. */
    method PointerDown(id: int)
      requires Valid()
      modifies this`dragging
      ensures Valid()
      ensures dragging == Some(id)
      ensures nodes == old(nodes)
    {
      dragging := Some(id);
    }

    /**
     * `handlePointerMove`: while a node is dragged, that node's corner goes
     * to the pointer position relative to the canvas, less the offset on
     * each axis; with nothing dragged nothing changes.
     */
    method PointerMove(clientX: int, clientY: int, left: int, top: int)
      requires Valid()
      modifies this`nodes
      ensures Valid()
      ensures old(dragging).None? ==> nodes == old(nodes)
      ensures old(dragging).Some? ==>
                nodes == Nodes.MoveNode(old(nodes), old(dragging).value,
                                        DragTarget(clientX, clientY, left, top).x,
                                        DragTarget(clientX, clientY, left, top).y)
    {
      if dragging.Some? {
        var svgX := clientX - left;
        var svgY := clientY - top;
        MoveNodeKeepsLinks(nodes, dragging.value, svgX - DragOffset, svgY - DragOffset);
        nodes := Nodes.MoveNode(nodes, dragging.value, svgX - DragOffset, svgY - DragOffset);
      }
    }

    /** `handlePointerUp`: dragging stops when the pointer is released over the canvas. */
    method PointerUp()
      requires Valid()
      modifies this`dragging
      ensures Valid()
      ensures dragging == None
      ensures nodes == old(nodes)
    {
      dragging := None;
    }
  }

  /**
   * Whatever the positions, a valid editor's nodes have unique ids and form
   * the seeded chain 1 -> 2 -> 3 -> 4.
   */
  lemma ValidIsChain(nodes: seq<Node>)
    requires Links(nodes) == Links(InitialNodes())
    ensures IdsUnique(nodes)
    ensures |nodes| == 4
    ensures forall i :: 0 <= i < 4 ==> nodes[i].id == i + 1
    ensures forall i :: 0 <= i < 3 ==> nodes[i].outdegree == Some(nodes[i + 1].id)
    ensures forall i :: 0 <= i < 3 ==> nodes[i + 1].indegree == Some(nodes[i].id)
    ensures nodes[0].indegree == None && nodes[3].outdegree == None
  {
    var seed := InitialNodes();
    InitialIsChain();
    forall i | 0 <= i < 4
      ensures nodes[i].id == seed[i].id && nodes[i].indegree == seed[i].indegree && nodes[i].outdegree == seed[i].outdegree
    {
      assert Links(nodes)[i] == Links(seed)[i];
    }
  }

  /**
   * A whole drag: pressing node 2, moving the pointer to (300, 300) over a
   * canvas whose corner is at (0, 0) and releasing leaves node 2 at
   * (275, 275) with its links intact, the other nodes where they were, and
   * nothing dragged.
   */
  method DragNodeTwo() returns (e: JourneyBuilder)
    ensures e.Valid()
    ensures e.dragging == None
    ensures e.nodes[1] == Node(2, Point(275, 275), Some(1), Some(3))
    ensures forall i :: 0 <= i < 4 && i != 1 ==> e.nodes[i] == InitialNodes()[i]
    ensures Edge(1, 2, Point(125, 225), Point(300, 300)) in Edges(e.nodes)
    ensures Edge(2, 3, Point(300, 300), Point(325, 425)) in Edges(e.nodes)
  {
    e := new JourneyBuilder();
    e.PointerDown(2);
    e.PointerMove(300, 300, 0, 0);
    e.PointerUp();
    ghost var seed := InitialNodes();
    FindUnique(seed, 1);
    assert e.nodes == Nodes.MoveNode(seed, 2, 275, 275);
    ValidIsChain(e.nodes);
    EdgeOfResolvedNode(e.nodes, 0, 1);
    EdgeOfResolvedNode(e.nodes, 1, 2);
  }
}
