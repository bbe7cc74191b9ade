/**
 * Canvas sizing: the drawing surface spans the largest node coordinate on
 * each axis plus a fixed margin.
 */
module Canvas {
  import opened Nodes

  /** The margin added to the largest coordinate on each axis. */
  const Margin: int := 200

  datatype Size = Size(width: int, height: int)

  /**
   * `s.reduce((max, v) => Math.max(max, v), acc)`: a left fold that keeps
   * the larger of the running value and each element.
   */
  function FoldMax(acc: int, s: seq<int>): (r: int)
    ensures r >= acc
    ensures forall i :: 0 <= i < |s| ==> s[i] <= r
    ensures r == acc || r in s
    decreases |s|
  {
    if |s| == 0 then acc
    else FoldMax(if s[0] > acc then s[0] else acc, s[1..])
  }

  function Xs(nodes: seq<Node>): (r: seq<int>)
    ensures |r| == |nodes|
  {
    seq(|nodes|, i requires 0 <= i < |nodes| => nodes[i].position.x)
  }

  function Ys(nodes: seq<Node>): (r: seq<int>)
    ensures |r| == |nodes|
  {
    seq(|nodes|, i requires 0 <= i < |nodes| => nodes[i].position.y)
  }

  /** `maxWidth`: the largest x over all nodes, or 0 if none is larger. */
  function MaxWidth(nodes: seq<Node>): (r: int)
    ensures r >= 0
    ensures forall i :: 0 <= i < |nodes| ==> nodes[i].position.x <= r
    ensures r == 0 || exists i :: 0 <= i < |nodes| && nodes[i].position.x == r
  {
    var r := FoldMax(0, Xs(nodes));
    assert forall i :: 0 <= i < |nodes| ==> Xs(nodes)[i] == nodes[i].position.x;
    r
  }

  /** `maxHeight`: the largest y over all nodes, or 0 if none is larger. */
  function MaxHeight(nodes: seq<Node>): (r: int)
    ensures r >= 0
    ensures forall i :: 0 <= i < |nodes| ==> nodes[i].position.y <= r
    ensures r == 0 || exists i :: 0 <= i < |nodes| && nodes[i].position.y == r
  {
    var r := FoldMax(0, Ys(nodes));
    assert forall i :: 0 <= i < |nodes| ==> Ys(nodes)[i] == nodes[i].position.y;
    r
  }

  /**
   * The `width` and `height` of the svg element (also its viewBox extent):
   * at least the margin, every node's corner at least the margin inside the
   * right and bottom edges, and on each axis either just the margin or
   * exactly the margin beyond some node.
   */
  function CanvasSize(nodes: seq<Node>): (r: Size)
    ensures r.width >= Margin && r.height >= Margin
    ensures forall i :: 0 <= i < |nodes| ==>
              nodes[i].position.x + Margin <= r.width && nodes[i].position.y + Margin <= r.height
    ensures r.width == Margin || exists i :: 0 <= i < |nodes| && nodes[i].position.x + Margin == r.width
    ensures r.height == Margin || exists i :: 0 <= i < |nodes| && nodes[i].position.y + Margin == r.height
  {
    Size(MaxWidth(nodes) + Margin, MaxHeight(nodes) + Margin)
  }

  /**
   * The size is the tightest one: any extent that covers every node with the
   * margin, and is at least the margin, is at least the canvas size.
   */
  lemma CanvasIsTight(nodes: seq<Node>, w: int, h: int)
    requires w >= Margin && h >= Margin
    requires forall i :: 0 <= i < |nodes| ==> nodes[i].position.x + Margin <= w
    requires forall i :: 0 <= i < |nodes| ==> nodes[i].position.y + Margin <= h
    ensures CanvasSize(nodes).width <= w && CanvasSize(nodes).height <= h
  {
  }

  /**
   * Dragging a node to (x, y) grows the canvas so that the new position is
   * still covered with the full margin.
   */
  lemma MoveNodeGrowsCanvas(nodes: seq<Node>, id: int, x: int, y: int)
    requires id in Ids(nodes)
    ensures CanvasSize(MoveNode(nodes, id, x, y)).width >= x + Margin
    ensures CanvasSize(MoveNode(nodes, id, x, y)).height >= y + Margin
  {
    var k :| 0 <= k < |nodes| && Ids(nodes)[k] == id;
    assert MoveNode(nodes, id, x, y)[k].position == Point(x, y);
  }

  /** The seeded chain gives a 600 by 700 canvas. */
  lemma InitialCanvasSize()
    ensures CanvasSize(InitialNodes()) == Size(600, 700)
  {
    assert InitialNodes()[3].position == Point(400, 500);
  }
}
