# Journey builder: a verified model

This project models the journey builder, a drag editor for a chain of steps
("nodes") drawn on an SVG canvas. Each node has an id, a position and two
optional links. `indegree` holds the predecessor's id and `outdegree` the
successor's id. The model covers these parts:

- **Graph model** (`Nodes.dfy`): the node record, the four seeded nodes, the
  `find` lookup and `moveNode`, which repositions the node with a given id.
- **Canvas sizing** (`Canvas.dfy`): the two `reduce` folds that compute the
  largest x and the largest y, each starting from 0. The canvas is those
  maxima plus a margin of 200.
- **Renderer** (`Render.dfy`): one edge slot per node. A slot becomes a line
  from centre to centre (corner + 25) only when the node's successor id names
  an existing node. The renderer also draws one 50 by 50 square per node, in
  list order.
- **Interaction controller** (`Editor.dfy`): the component's two state cells,
  `nodeData` and `draggingNodeId`. They are the fields `nodes` and `dragging`
  of class `JourneyBuilder`. Its `PointerDown`, `PointerMove` and `PointerUp`
  methods are written against the pure functions above. The class invariant
  `Valid()` says that the ids and links are still those of the seed, so only
  positions ever change.

Coordinates are unbounded integers. The pointer's `clientX`/`clientY` and the
canvas rectangle's `left`/`top` are plain parameters of `PointerMove`.

In the code the predecessor field is named `indegree` and the successor
field `outdegree`, although each holds a node id and not a count.

## Model

| member | source | states |
|---|---|---|
| Nodes.InitialNodes | src/components/JourneyBuilder.tsx:3-8 | the seed has four nodes, node i has id i+1, and the ids are pairwise distinct |
| Nodes.InitialIsChain | src/components/JourneyBuilder.tsx:3-8 | the seed has ids 1..4, node i's successor is node i+1's id and node i+1's predecessor is node i's id, the first predecessor and the last successor are null |
| Nodes.FindIndex | src/components/JourneyBuilder.tsx:62 | the index found carries the id and no earlier node does; nothing is found exactly when the id is absent |
| Nodes.Find | src/components/JourneyBuilder.tsx:62 | `find` yields a node exactly when the id is present, and that node carries the id and is the first node of the list that does |
| Nodes.FindIndexByIds | src/components/JourneyBuilder.tsx:62 | the lookup depends only on the list's ids, not on positions |
| Nodes.FindUnique | src/components/JourneyBuilder.tsx:62 | with unique ids, looking up node k's id finds node k |
| Nodes.WithPosition | src/components/JourneyBuilder.tsx:20 | the spread copy has position (x, y) and the node's id, indegree and outdegree |
| Nodes.MoveNode | src/components/JourneyBuilder.tsx:17-24 | the length is kept; a node with the id gets position (x, y) and keeps its id and links; every other node is unchanged |
| Nodes.MoveNodeKeepsLinks | src/components/JourneyBuilder.tsx:18-23 | repositioning leaves every id, indegree and outdegree in its place |
| Nodes.MoveNodeAbsent | src/components/JourneyBuilder.tsx:18-23 | moving an id that is not in the list returns the list unchanged |
| Nodes.MoveNodeFind | src/components/JourneyBuilder.tsx:17-24 | after a move, looking the id up finds the node at (x, y) with its old links |
| Nodes.MoveNodeLastWins | src/components/JourneyBuilder.tsx:36-42 | two moves of the same id equal the second move alone |
| Nodes.MoveNodeCommutes | src/components/JourneyBuilder.tsx:17-24 | moves of two different ids commute |
| Canvas.FoldMax | src/components/JourneyBuilder.tsx:12-13 | the fold is at least its seed and every element, and equals the seed or some element |
| Canvas.MaxWidth | src/components/JourneyBuilder.tsx:13 | `maxWidth` is at least 0 and every node's x, and is 0 or some node's x |
| Canvas.MaxHeight | src/components/JourneyBuilder.tsx:12 | `maxHeight` is at least 0 and every node's y, and is 0 or some node's y |
| Canvas.CanvasSize | src/components/JourneyBuilder.tsx:52-54 | the canvas is at least 200 by 200, every node's corner lies at least 200 inside its right and bottom edges, and on each axis the extent is just 200 or exactly 200 beyond some node (with CanvasIsTight: maxWidth + 200 by maxHeight + 200) |
| Canvas.CanvasIsTight | src/components/JourneyBuilder.tsx:52-54 | any extent that covers every node with the 200 margin, and is at least 200, is at least the canvas size |
| Canvas.MoveNodeGrowsCanvas | src/components/JourneyBuilder.tsx:52-54 | after a node is moved to (x, y), the canvas is at least x + 200 wide and y + 200 high |
| Canvas.InitialCanvasSize | src/components/JourneyBuilder.tsx:52-54 | the seeded chain gives a 600 by 700 canvas |
| Render.EdgeFrom | src/components/JourneyBuilder.tsx:61-77 | a node yields a path exactly when its outdegree is non-null and names an existing id; the path is keyed by both ids, starts at the node's centre and ends at the centre of the first node carrying the successor's id |
| Render.EdgeSlots | src/components/JourneyBuilder.tsx:60-78 | one slot per node; slot i holds an edge exactly when node i's outdegree is non-null and names an existing id; the edge goes from node i's centre to the centre of the first node with that id, keyed by both ids |
| Render.Somes | src/components/JourneyBuilder.tsx:60-78 | the drawn list has one value per non-null slot, holds exactly the non-null slots' values, and slot i's value stands right after those of the non-null slots before it |
| Render.SomeCountPrefixGrows | src/components/JourneyBuilder.tsx:60-78 | a non-null slot is counted before any later position, so distinct non-null slots take distinct, ordered places in the drawn list |
| Render.Edges | src/components/JourneyBuilder.tsx:60-78 | exactly one drawn edge per node whose successor resolves, and node i's edge at the position right after the edges of the resolving nodes before it |
| Render.EdgesInNodeOrder | src/components/JourneyBuilder.tsx:60-78 | of two resolving nodes, the earlier one's edge is drawn earlier, and each edge carries its node's id as source |
| Render.EdgeOfResolvedNode | src/components/JourneyBuilder.tsx:60-78 | with unique ids, a node whose successor exists draws the edge between the two centres |
| Render.DanglingSuccessorDrawsNothing | src/components/JourneyBuilder.tsx:61-77 | with unique ids, a node that has no successor, or whose successor id is absent, is the source of no drawn edge |
| Render.AllResolvedEdgeCount | src/components/JourneyBuilder.tsx:60-78 | when every successor resolves, there are as many edges as nodes |
| Render.EdgesJoinRects | src/components/JourneyBuilder.tsx:60-109 | every edge starts inside the square of its source and ends inside the square of its target |
| Render.MoveNodeKeepsEdgeSlots | src/components/JourneyBuilder.tsx:60-78 | moving a node neither adds nor removes an edge, nor changes what it connects |
| Render.MovedNodeEdgesFollow | src/components/JourneyBuilder.tsx:67-68 | with unique ids, after a move every edge leaving or entering the node meets the centre of its new position |
| Render.InitialEdges | src/components/JourneyBuilder.tsx:60-78 | the seed draws exactly the edges 1->2, 2->3, 3->4 with their centre points |
| Render.InitialSlots | src/components/JourneyBuilder.tsx:60-78 | on the seed, nodes 1 to 3 each yield their edge and node 4 (null outdegree) yields none |
| Render.Rects | src/components/JourneyBuilder.tsx:95-109 | one 50 by 50 square per node, in list order, at the node's position, keyed by (and reporting on press) the node's id |
| Editor.DragTarget | src/components/JourneyBuilder.tsx:33-39 | the corner chosen for the dragged node puts its centre exactly on the pointer's canvas position |
| Editor.DragCentresNode | src/components/JourneyBuilder.tsx:31-39 | after a drag step, the dragged node's square is centred on the pointer's canvas position and contains it |
| Editor.ValidIsChain | src/components/JourneyBuilder.tsx:3-8 | whatever the positions, nodes with the seed's links have unique ids and form the chain 1->2->3->4 |
| Editor.JourneyBuilder.constructor | src/components/JourneyBuilder.tsx:11-15 | the component starts with the seed nodes and nothing dragged |
| Editor.JourneyBuilder.MoveNode | src/components/JourneyBuilder.tsx:17-24 | the node list becomes `moveNode` of the old list; the links invariant is kept (the component defines `moveNode` but never calls it; the method models it as written) |
| Editor.JourneyBuilder.PointerDown | src/components/JourneyBuilder.tsx:25-27 | the dragged id becomes the pressed id whatever it was (last press wins); the nodes are unchanged |
| Editor.JourneyBuilder.PointerMove | src/components/JourneyBuilder.tsx:29-44 | with nothing dragged, the nodes are unchanged; while node d is dragged, the nodes become `moveNode(d, clientX - left - 25, clientY - top - 25)`; the dragged id is unchanged |
| Editor.JourneyBuilder.PointerUp | src/components/JourneyBuilder.tsx:46-48 | the dragged id becomes null; the nodes are unchanged |
| Editor.DragNodeTwo | src/components/JourneyBuilder.tsx:25-48 | pressing node 2, moving to (300, 300) over a canvas at (0, 0) and releasing puts node 2 at (275, 275), leaves the rest and nothing dragged, and reroutes both of its edges to (300, 300) |

## Left out

- React state scheduling (`useState`, batched `setNodeData`), hooks, JSX and component lifecycle. The two state cells are plain fields updated at once. So the difference between `moveNode`, which reads the captured `nodeData`, and the move handler's functional update of `prevNodes` is not visible. `moveNode` is never called in the component: the move handler inlines its own `map`. `Editor.JourneyBuilder.MoveNode` models `moveNode` as written.
- `getBoundingClientRect` and the DOM event objects. Their `clientX`, `clientY`, `left` and `top` are method parameters.
- JavaScript numbers are floating point. The model uses unbounded integers, so fractional pointer coordinates, `NaN` and rounding are not modelled.
- The arrowhead `<marker>` definition, strokes, fills, the cursor style and the string formatting of the path `d` and `viewBox` attributes. An edge is a pair of ids with two endpoints, and a square is a key, a corner and a size.
- Editor.JourneyBuilder.PointerUp: which pointer releases reach it is up to the host. The handler is attached to the svg element and no pointer capture is set, so for a mouse a release outside the canvas does not reach it and the dragged id stays set. The model does not describe event delivery.
- Appending a node, the per-node `info` text overlay and pointer-leave handling. None of these exists in `src/components/JourneyBuilder.tsx`: it has no append function, no `info` field and no `onPointerLeave`.
- `src/App.tsx`. It only mounts the component and has no logic of its own.
