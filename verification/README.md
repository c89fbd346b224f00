# Mesh store, ghost exchange and advancing layer of refine: a Dafny model

refine keeps an unstructured tetrahedral mesh in flat arrays: nodes, cells (tetrahedra), boundary faces and
boundary edges, each with a free list threaded through its unused rows, and for cells, faces and edges a pooled
linked-list adjacency from nodes to items. Parallel runs add global node ids with a sorted lookup, and messages
that bring ghost nodes up to date. An advancing layer grows prisms on a front of triangles and cuts them into
tetrahedra, and a tree of balls answers proximity questions.

This project models that code in the shape it has: classes with the fields the C structures have, loops that
update them in place, and specification functions the methods are proved against. `dafny verify dfyconfig.toml`
verifies all of it.

| file | component | source |
|---|---|---|
| `Common.dfy`, `Geometry.dfy` | sums over lists, pigeonhole; real vectors, the triangle inequality | `mesherx/near.h` |
| `Adj.dfy` | the adjacency pool | `one/adj.c` |
| `Store.dfy` | the table of cells, faces or edges with its free list and adjacency | `one/grid.c` |
| `Pack.dfy`, `PackFaces.dfy`, `Grid.dfy` | packing all tables of a grid | `one/grid.c` |
| `Sort.dfy`, `Nodes.dfy`, `Numbering.dfy`, `Renumber.dfy` | nodes, sorted global ids, unused ids, relabelling | `one/sort.c`, `one/grid.c` |
| `LayerStore.dfy`, `Chains.dfy`, `Front.dfy`, `MoveUp.dfy`, `Layer.dfy`, `Future.dfy` | the advancing layer | `mesherx/layer.c` |
| `Near.dfy` | the tree of balls | `mesherx/near.c` |
| `Conn.dfy`, `Equator.dfy` | edge numbering, the ring of cells around an edge | `one/grid.c` |
| `Ngp.dfy` | export to and import from face records | `one/grid.c` |
| `Params.dfy`, `Stream.dfy`, `Buffers.dfy`, `Ghost.dfy`, `Refresh.dfy` | the ghost node exchange | `one/gridfortran.c`, `one/gridmpi.c` |

Large invariants are kept folded behind `forall u :: Unfold(u) ==> ...`; `assert Unfold(0)` opens one where it
is needed. A pool pointer is an index, `NULL` is `EMPTY` (-1), and a row is used if its first entry is not
`EMPTY`.

## Model

| member | source | states |
|---|---|---|
| Adjacency.Adj.constructor | one/adj.c:38-58 | every size is at least one; all lists are empty and every pool cell is blank |
| Adjacency.Adj.Register | one/adj.c:105-141 | fails only for a node out of range; otherwise adds exactly one (node, item) pair, never runs out of blank cells, and a growth of the pool reverses every list but keeps all pairs |
| Adjacency.Adj.Remove | one/adj.c:143-173 | succeeds exactly if the pair is there, unlinks the copy nearest the head, and gives its cell back |
| Adjacency.Adj.Realloc | one/adj.c:82-103 | the lists of the nodes that stay are untouched, those of dropped nodes go back to the blank list |
| Adjacency.Adj.Exists | one/adj.c:184-194 | the list walk finds an item exactly if the pair is registered |
| Adjacency.Adj.Degree | one/adj.c:196-203 | the length of the list of a node, zero out of range |
| Adjacency.Adj.NoCellLost | one/adj.c:23-36 | list lengths and blanks total nadj, and every pool cell has one place on one list that it shares with no other cell |
| ItemStore.Store.Grow | one/grid.c:3276-3310 | growth by max(5000, max/6) rows keeps the old rows and chains the new ones into the free list |
| ItemStore.Store.Add | one/grid.c:3276-3310 | takes the head of the free list, after growth if there is none, changes no other row, and keeps adjacency, count and free list in step |
| ItemStore.Store.Remove | one/grid.c:3330-3348 | fails without effect for an unused row; otherwise the row becomes the head of the free list |
| ItemStore.Store.ReconnectAll | one/grid.c:3350-3374 | fails for a node out of range and does nothing for equal nodes; otherwise it terminates, replaces every occurrence of the old node in every used row and nothing else, and leaves the old node without items |
| ItemStore.Store.MoreNodes | one/grid.c:5146-5221 | an adjacency widened for more nodes stays the inverse of its table |
| ItemStore.FreeListIsAcyclic | one/grid.c:3330-3348 | the free list ends, visits no row twice and visits exactly the unused rows |
| ItemStore.Run | one/grid.c:3276-3374 | over any run of adds, removes and reconnects each operation changes just the items it is for, the adjacency counts how often each item names each node, the counter is the number of used rows, and the free list is acyclic and complete |
| Packing.NewPlaceOnto | one/grid.c:1949-1973 | every place below the number of used rows is the new place of some used row |
| Packing.PackCells | one/grid.c:1949-1992 | rows whose nodes survive move down in order under the node map with their data, the adjacency is the inverse of the new table, and the free list is rebuilt over the tail |
| Packing.PackEdges | one/grid.c:2065-2110 | gives up exactly if a used row names a node the map drops; otherwise the same for edges |
| Packing.PackAgain | one/grid.c:1949-1992 | packing a packed table with a map that fixes its nodes changes no row |
| FacePacking.LargestFaceId | one/grid.c:1998-2001 | a bound on the ids of all used faces |
| FacePacking.SwapItems | one/grid.c:2007-2042 | swaps a face into the packed part, new node numbers there and old ones on the displaced face, and the adjacency follows row for row |
| FacePacking.SweepDone | one/grid.c:2003-2055 | all faces are packed exactly if every valid face had an id of at least one |
| FacePacking.PackFaces | one/grid.c:1994-2063 | succeeds exactly if every id is at least one; then the faces are, as a multiset, the images of the old ones with uv and id, sorted by id, and the adjacency is the inverse of the new table; a table packed already stays as it is |
| FacePacking.FaceArrives | one/grid.c:1994-2063 | every face is in the regrouped table with its nodes renumbered and its own id and uv |
| FacePacking.FaceComesFrom | one/grid.c:1994-2063 | and every face of that table was one of the old |
| MeshGrid.Grid.AddNode | one/grid.c:5139-5221 | a new node at the next free row, everything else kept, with all three adjacencies widened when the table grows |
| MeshGrid.Grid.PackNodesAndCells | one/grid.c:1901-1984 | nodes move down in order and cells follow under the same map |
| MeshGrid.Grid.Pack | one/grid.c:1880-2149 | for cells and faces that name valid nodes it succeeds exactly if all face ids are positive and edges name valid nodes; nodes, cells and edges move down in order, faces are regrouped by id, all adjacencies and free lists are right again, and a packed grid keeps all its tables |
| MeshGrid.Grid.PackTwice | one/grid.c:1880-2149 | a second pack after a successful one succeeds, and all tables are still the images of the original ones under the first node map |
| MeshGrid.Grid.FaceWithoutId | one/grid.c:3938-3993 | a grid of three nodes and one face with id 0 |
| MeshGrid.Grid.EdgeOfRemovedNode | one/grid.c:5238-5259 | a grid with an edge that names a removed node |
| MeshGrid.Grid.PackFails | one/grid.c:2003-2110 | gridPack gives up on either of them |
| Sorting.SortHeap | one/sort.c:24-69 | the index array is a permutation that lists the input in ascending order |
| Sorting.SortSearch | one/sort.c:119-146 | the binary search finds a position of the target, or EMPTY only if the target does not occur |
| NodeStore.Nodes.AddNodeWithGlobal | one/grid.c:5146-5221 | a node at the head of the free list with its global id, inserted at the right place of the sorted ids |
| NodeStore.Nodes.SetNewGlobal | one/grid.c:5354-5385 | the label of a new node enters the sorted lists in order |
| NodeStore.Nodes.RemoveNodeWithOutGlobal | one/grid.c:5238-5259 | frees exactly that node and drops its id from the sorted lists; no effect on an invalid node |
| NodeStore.Nodes.CreateSortedGlobal | one/grid.c:5299-5337 | the sorted lists hold exactly the valid nodes, in the order of their ids |
| NodeStore.Nodes.Global2Local | one/grid.c:5339-5352 | gives the valid node with that id, or EMPTY if there is none, as a linear search would |
| GlobalNumbering.NextIdIsFree | one/grid.c:5118-5137 | the smallest unused id, or one past all ids, is not in use |
| GlobalNumbering.GetNextNodeGlobal | one/grid.c:5118-5137 | recycles the smallest unused id before it takes a new one |
| GlobalNumbering.AddNode | one/grid.c:5139-5144 | the new node has an id no other node has, and the unused ids stay sorted and apart from the used ones |
| GlobalNumbering.JoinUnused | one/grid.c:3127-3163 | inserts an id into the sorted list of unused ids, once |
| GlobalNumbering.RemoveNode | one/grid.c:5223-5236 | frees the node and makes its id unused |
| GlobalNumbering.GlobalShiftNode | one/grid.c:5387-5411 | ids below oldnnodeg stay and ids from oldnnodeg on grow by exactly nodeoffset, in use, unused and sorted alike |
| GlobalNumbering.ShiftedApart | one/grid.c:5387-5411 | two partitions with new ids from oldnnodeg on, the second shifted by at least the first one's new nodes more, share the old ids they shared and no other |
| GlobalNumbering.EliminateUnused | one/grid.c:3165-3209 | removes the nodes with unused ids and gives every other node its id less the number of unused ids below it |
| GlobalNumbering.SqueezedMonotone | one/grid.c:3165-3209 | elimination keeps the order of ids |
| GlobalNumbering.SqueezedRange | one/grid.c:3165-3209 | the new ids lie below the new count |
| GlobalNumbering.SqueezedOnto | one/grid.c:3165-3209 | every id below the new count is the image of exactly one id, so there is no gap, on any partition with the same unused ids |
| GlobalNumbering.Run | one/grid.c:3127-3209 | over any run of adds, removes and eliminations each operation changes nodes and ids as it should, and unused ids stay sorted, without duplicates and disjoint from those in use |
| Renumbering.PackNodes | one/grid.c:1901-1947 | valid nodes move down in order with their ids, the free list is the tail, and the sorted lookup points to the new places |
| Renumbering.MoveNodes | one/grid.c:2271-2405 | every node arrives at the place a permutation gives it, with its id and its place in the sorted lookup |
| Renumbering.RelabelIsInverse | one/grid.c:5413-5457 | for an injective list the chain of transpositions gives the label n2o[k] the label k |
| Renumbering.RelabelIsInjective | one/grid.c:5413-5457 | different labels stay different |
| Renumbering.RenumberGlobalNodes | one/grid.c:5413-5457 | the new label of a node is a function of its old label and the list alone, so partitions agree |
| Renumbering.SearchAfter | one/grid.c:5299-5352 | over any run of adds, removes, packs, permutations, shifts and relabellings each operation that is allowed does its work, and afterwards the lookup answers as a linear search |
| LayerStore.LayerItems.Add | mesherx/layer.c:233-254 | an item added by anyone, also by growing the table, leaves the in-layer flags right |
| LayerStore.LayerItems.AddToLayer | mesherx/layer.c:2163-2170 | flags exactly the new item in addition |
| LayerStore.LayerItems.ReconnectUnlessInLayer | mesherx/layer.c:2055-2155 | terminates; the node is replaced in exactly the items outside the layer, and since the freed row is the next one given out, every item keeps its number |
| LayerStore.LayerItems.PackCells | mesherx/layer.c:167-215 | the in-layer flags follow every cell to its new place, and the tail is not flagged |
| LayerStore.LayerItems.PackEdges | mesherx/layer.c:167-215 | the same for edges, if gridPack does not give up |
| NearTree.Near.Insert | mesherx/near.c:80-113 | the child becomes the left child, then the right, or goes into the subtree of the nearer child, the right one on a tie; just that subtree gains it, and its radius becomes the larger of the old one and the child's reach |
| NearTree.InsertKeepsBounded | mesherx/near.c:80-113 | every stored radius still bounds its subtree after an insertion |
| NearTree.BuiltIsBounded | mesherx/near.c:80-113 | so it does after any insertions |
| NearTree.BuiltHolds | mesherx/near.c:80-113 | the tree holds exactly the balls inserted, as a multiset |
| NearTree.TouchingIsColliding | mesherx/near.c:139-174 | an index is on the unpruned list exactly if a ball with that index collides with the target |
| NearTree.OrdersOf | mesherx/near.c:153-217 | on a tree of four balls the nearest search meets the root, then left, then right, and the collision search lists left, then right, then the root |
| NearTree.OutOfReach | mesherx/near.c:153-174 | a subtree pruned by its radius holds no collision |
| NearTree.Collisions | mesherx/near.c:139-151 | the number of colliding balls |
| NearTree.Touched | mesherx/near.c:153-174 | the pruned search writes the first of the colliding balls in postorder, as many as there is room for, and nothing else |
| NearTree.TooFar | mesherx/near.c:189-217 | a subtree pruned by its radius does not change the best distance |
| NearTree.Search | mesherx/near.c:189-217 | the pruned search equals the full scan in preorder |
| NearTree.ScanListIsNearest | mesherx/near.c:189-217 | the scan keeps the first ball that attains the true minimum |
| NearTree.NearestIndexAndDistance | mesherx/near.c:219-225 | the minimum distance and the first ball in preorder that has it; nothing only if all balls are at least DBL_MAX away |
| NearTree.NearestIndex | mesherx/near.c:177-187 | the index of that ball |
| NearTree.NearestOfInserted | mesherx/near.c:80-225 | after any insertions with nonnegative radii the search gives a ball at the true minimum distance among all balls inserted |
| NearTree.TouchedOfInserted | mesherx/near.c:80-174 | after any insertions only colliding balls are written, and all of them if there is room left |
| Geometry.CauchySchwarz | mesherx/near.h:44-47 | the inequality behind the pruning, for all real vectors |
| Geometry.TriangleInequality | mesherx/near.h:44-47 | a nonnegative root of the squared norm obeys the triangle inequality |
| Chains.ChiTells | mesherx/layer.c:2444-2569 | the count of a triangle is 1 for its three readings, -1 for the reversed ones and 0 for anything else |
| Chains.TetShowsFaces | one/grid.c:620-620 | a cell counts each of its four faces once, oriented into it, and no triangle with another node |
| Chains.PrismBoundaryDown | mesherx/layer.c:2538-2548 | the three tetrahedra of the first cut have the oriented boundary of the prism |
| Chains.PrismBoundaryUp | mesherx/layer.c:2549-2559 | so have those of the second cut |
| Chains.BalancedCancels | mesherx/layer.c:2444-2569 | what two triangles contribute to a shared edge cancels over any balanced set of edges |
| Front.SmallestFirst | mesherx/layer.c:2507-2529 | the two rotations put the smallest root first |
| Front.MadeIsPrism | mesherx/layer.c:2531-2569 | whichever normals are terminated, the tetrahedra made have the boundary of the collapsed prism |
| Front.AdvanceBoundary | mesherx/layer.c:2444-2593 | on a closed front the oriented faces of everything made cancel, but for the old front, the reversed new front and the constrained sides |
| Front.UnitTetrahedron | one/gridmetric.c:493-515 | the tetrahedron (0,0,0), (1,0,0), (0,1,0), (0,0,1) has volume 1/6 |
| Front.VolumeTurns | one/gridmetric.c:493-515 | exchanging two neighbouring corners changes the sign of the volume |
| Front.VolumeMoves | one/gridmetric.c:493-515 | moving all corners alike changes nothing |
| Front.VolumeScales | one/gridmetric.c:493-515 | the volume is linear in the way from the first corner to the last |
| AdvancingLayer.Layer.AddTet | mesherx/layer.c:2163-2180 | adds exactly that tetrahedron to the layer, changes no other cell, and reports a volume below 1e-14 or a node that is not valid |
| AdvancingLayer.Layer.AddPrism | mesherx/layer.c:2531-2569 | adds the tetrahedra of one prism and reports exactly if one of them is refused |
| AdvancingLayer.Layer.AddSides | mesherx/layer.c:2451-2505 | adds the triangles of the constrained sides with the ids of their sides, cut by the same diagonal as the prism |
| AdvancingLayer.Layer.AddEdges | mesherx/layer.c:2430-2442 | exactly the active normals on curves give the layer an edge from root to tip with the id of the curve |
| AdvancingLayer.Layer.SetTips | mesherx/layer.c:2382-2407 | active normals get new nodes ahead of their roots and terminated ones keep root as tip; with reconnect every cell outside the layer has each root replaced by its tip, and so has every edge of a curve for the normals on it, and all else is unchanged |
| AdvancingLayer.Layer.ReconnectSides | mesherx/layer.c:2409-2427 | the same for the faces of each surface and the normals at the ends of the sides constrained to it |
| AdvancingLayer.Layer.Advance | mesherx/layer.c:2363-2602 | keeps the balance of layer cells, layer faces and front for every triangle, moves each active normal to a new node at root + height * direction, succeeds exactly if no tetrahedron to be made is smaller than 1e-14; with reconnect cells, edges and faces outside the layer move up from old roots to new ones, and no cell there names the old root of an active normal; whatever comes in belongs to the layer |
| AdvancingLayer.NothingOutside | mesherx/layer.c:2396-2411 | without reconnect everything there was before an advance is unchanged |
| FutureCells.CheckTriangle | mesherx/layer.c:3774-3871 | counts and terminates exactly the normals whose tetrahedron would be too small, and clears the tips of the triangle |
| FutureCells.Pass | mesherx/layer.c:3771-3873 | one pass over the front; if it terminates nothing, every prism is ready |
| FutureCells.TerminateFutureNegative | mesherx/layer.c:3753-3879 | terminates, changes nothing of the front but terminated flags and cleared tips, each termination for a tetrahedron that would be too small on a front on the way, and leaves a front on which every prism is ready |
| FutureCells.AdvanceSafely | mesherx/layer.c:2363-2602 | the advance after that pass never reports a negative volume, and moves the front the pass has left |
| FutureCells.Run | mesherx/layer.c:2363-2602 | over any run of terminations, passes and advances each operation does its work on the front, and the balance of layer and front stays what it was |
| Connections.Conns.AddConnToCell2Conn | one/grid.c:3761-3784 | writes one number into every slot of that edge around the node and into no other |
| Connections.Conns.CreateConn | one/grid.c:3786-3832 | a fresh numbering: the six slots of a cell are the edges between columns 0-1, 0-2, 0-3, 1-2, 1-3 and 2-3, and the inverse table has the ends of each number, smaller first; numbers have no gaps and differ in their ends; no effect if there is a numbering already |
| Connections.SameNumberSameEnds | one/grid.c:3786-3832 | two slots share a number exactly if they are between the same two nodes |
| Connections.EveryNumberIsTaken | one/grid.c:3786-3832 | every number below nconn belongs to some slot |
| Connections.Conns.Conn2Node | one/grid.c:3842-3849 | creates the numbering on demand and gives the ends of exactly the numbers in range |
| Connections.Conns.FindConn | one/grid.c:3851-3870 | for valid nodes finds a number exactly if some cell names both, and the number has these two ends |
| Equators.OrientIsCell | one/grid.c:4956-5028 | finds the other two nodes exactly if both ends are in the cell, as an even permutation of it |
| Equators.LinkIsTurned | one/grid.c:4956-5028 | the link of a cell is the pair of nodes that completes the edge to an even permutation of the cell |
| Equators.EdgeGem.GemIsAround | one/grid.c:4873-4898 | the gem is exactly the cells that have both ends, each once |
| Equators.EdgeGem.MakeGem | one/grid.c:4873-4898 | collects the gem, or fails exactly beyond 200 cells |
| Equators.EdgeGem.FindEquator | one/grid.c:5030-5089 | what the two loops make of the links around an edge in every case; two consecutive nodes of the result complete the edge to the cell of the walk between them, in its orientation; a cycle is found exactly if the first cell is on a closed loop |
| Equators.FanGivesPath | one/grid.c:5030-5089 | a single open fan gives its path through each cell once |
| Equators.RingGivesCycle | one/grid.c:5030-5089 | a single closed ring gives its cycle through each cell once |
| Equators.SeveralFansFail | one/grid.c:5030-5089 | several open fans give NULL |
| Equators.NeitherFanNorRing | one/grid.c:5030-5089 | where the cells are neither one fan nor one ring it fails exactly if the first cell is not on a closed loop |
| Equators.LoopBesideCell | one/grid.c:5030-5089 | three cells that close up beside a fourth: a cycle of four nodes is returned that leaves the fourth cell out |
| Equators.FanWithoutRoom | one/grid.c:5038-5086 | the array has room for the nodes of an open fan that passes the limits exactly if it does not have MAXDEG cells, and there is such a fan |
| LinkWalks.LongStartsOnLoop | one/grid.c:5045-5060 | a walk longer than the gem started on a closed loop |
| LinkWalks.EndedIsOffLoop | one/grid.c:5056-5059 | a walk that ends did not |
| FaceRecords.FindOtherCell | one/grid.c:3416-3435 | finds another cell with three given nodes exactly if there is one |
| FaceRecords.FacesAreShown | one/grid.c:620-645 | the faces taken from a cell are those it counts, in the order of the program |
| FaceRecords.ExportNGP | one/grid.c:627-727 | succeeds exactly if every open cell face has a boundary face; every face is recorded once, in the order of cells and their faces, with its two cells and 0, or its cell and its id split by 100 |
| FaceRecords.ImportNGP | one/grid.c:331-420 | rebuilds cells and boundary triangles from any readable records |
| FaceRecords.CellsComeBack | one/grid.c:331-420 | every exported tetrahedron is rebuilt up to an even permutation |
| FaceRecords.IdRoundTrip | one/grid.c:725-751 | an id survives the split and the file exactly if it is not a multiple of 100 |
| FaceRecords.BoundaryComesBack | one/grid.c:386-413 | for readable ids the boundary triangles come back with their ids |
| FaceRecords.BoundaryComesBackIff | one/grid.c:386-413 | the boundary comes back exactly if no id is a multiple of 100 |
| FaceRecords.HundredIsNotRead | one/grid.c:365-389 | a triangle with such an id is never read |
| FaceRecords.HundredLosesFace | one/grid.c:725-751 | one tetrahedron with a face of id 100, where it is lost |
| FaceRecords.HundredTurnsCell | one/grid.c:365-407 | the same tetrahedron is read back inside out |
| FaceRecords.RoundTrip | one/grid.c:280-761 | export and import of a conforming mesh: the same boundary exactly if no id is a multiple of 100, and then the same tetrahedra |
| NodeParameters.NodeIds | one/grid.c:4282-4320 | the ids of the faces, or edges, around a node, ascending and each once, unless there are too many |
| NodeParameters.NodeIdDegree | one/grid.c:4251-4280 | their number, or EMPTY if there are too many |
| NodeParameters.NodeParameter | one/grid.c:4190-4211 | the parameter of the first face, or edge, around the node that has the id, at the first place of the node; found exactly if there is one |
| NodeParameters.SetNodeParameter | one/grid.c:4213-4235 | sets it on all of them and on nothing else, and says whether there was one |
| NodeParameters.ParameterIffOn | one/grid.c:4338-4359 | there is a parameter exactly if the id is among those around the node |
| NodeParameters.SetParameter | one/grid.c:4361-4384 | what was set is what is read afterwards, and every other parameter is unchanged |
| GhostStream.ReadAll | one/gridfortran.c:952-997 | the parsers read any message as the records a reader can know of |
| GhostStream.RecordOfGhost | one/gridfortran.c:883-928 | a node with two faces and an edge, as it is written |
| GhostStream.RoundTrip | one/gridfortran.c:883-1037 | they read what was written exactly if no record has edge ids without face ids |
| GhostStream.EdgeTakenForFace | one/gridfortran.c:971-978 | a message where an edge id is read as a face id |
| GhostStream.LabelAll | one/gridfortran.c:883-928 | the local and the global message have the same records but for the node numbers |
| GhostStream.RenumberedAll | one/gridfortran.c:930-950 | renumbering the entries of a message renumbers its records |
| GhostExchange.ListSize | one/gridmpi.c:565-590 | the counted size is the length of the message |
| GhostExchange.AllIdsSent | one/gridfortran.c:901-924 | the record written for a ghost holds all its ids exactly if there are at most 100 face ids and 100 edge ids |
| GhostExchange.CrowdedSendsNothing | one/gridfortran.c:901-912 | a ghost on 101 faces with different ids, whose record holds none of them |
| GhostExchange.Partition.GhostDataCount | one/gridmpi.c:565-590 | the size of the message for every partition |
| GhostExchange.Partition.LoadGhostNodes | one/gridfortran.c:883-928 | both buffers hold, for every partition, the encoded records of exactly the ghosts it owns, within the counted room |
| GhostExchange.Partition.LoadLocalNodes | one/gridfortran.c:930-950 | a message in global ids becomes one in local numbers |
| GhostExchange.Partition.LoadGlobalNodeData | one/gridfortran.c:952-997 | the answer holds, entry for entry, the data asked for |
| GhostExchange.Partition.SetLocalNodeData | one/gridfortran.c:999-1037 | the data of every entry is stored, later entries over earlier ones, and nothing else changes |
| GhostRefresh.AnswerRefreshes | one/gridfortran.c:952-1037 | one answer brings the ghosts of that owner up to date and leaves all other nodes alone |
| GhostRefresh.LocalMessage | one/gridfortran.c:930-950 | a message translated by its receiver asks for the same records in the receiver's numbers |
| GhostRefresh.Exchange | one/gridfortran.c:883-1037 | after one exchange with every owner each ghost has what its owner answered, every sendable ghost agrees with its owner, and every other node is untouched |
| GhostRefresh.ExchangeInTurn | one/gridfortran.c:883-1037 | when every one of several partitions that number their nodes alike has exchanged in turn, all sendable ghosts of all partitions agree with their owners |
| GhostRefresh.GhostAgrees | one/gridfortran.c:883-1037 | then position, uv by face id and t by edge id of a sendable ghost equal the owner's |
| GhostRefresh.SendableIffUnderstood | one/gridfortran.c:901-988 | what a reader makes of the record of a node is all its ids exactly if none of them is cut and edge ids come with face ids |
| GhostRefresh.EdgesWithoutFacesStay | one/gridfortran.c:965-988 | the t values of a ghost with edge ids but no face ids are not refreshed |

## Findings

| property | where it fails | exact condition |
|---|---|---|
| the ghost message is parsed record for record as it was written (`one/gridfortran.c:883-928` against `965-988`) | a node with an edge id and no face id: `GhostStream.EdgeTakenForFace`; its t values stay stale: `GhostRefresh.EdgesWithoutFacesStay` | every record with edge ids has face ids: `GhostStream.RoundTrip` |
| face records keep the ids of boundary triangles (`one/grid.c:725-751`, `365-389`) | one tetrahedron with a face of id 100, whose record looks like an inner face: `FaceRecords.HundredLosesFace`; the cell comes back inside out: `FaceRecords.HundredTurnsCell` | no id is a multiple of 100: `FaceRecords.BoundaryComesBackIff`, `FaceRecords.RoundTrip` |
| `gridPack` packs any grid whose cells and faces name valid nodes (`one/grid.c:2003-2110`) | a face with id 0 is never swept up: `MeshGrid.Grid.FaceWithoutId`; an edge names a removed node: `MeshGrid.Grid.EdgeOfRemovedNode`; gridPack then fails half done: `MeshGrid.Grid.PackFails` | all face ids are at least one, and all edges name valid nodes: `MeshGrid.Grid.Pack` |
| `gridEquator` fails on cells, of a number within its limits, that are neither one fan nor one ring (`one/grid.c:5045-5060`) | a closed loop beside another cell: `Equators.LoopBesideCell` | it fails exactly if the first cell is not on a closed loop: `Equators.NeitherFanNorRing` |
| the nodes found by `gridEquator` fit the array of 2 * MAXDEG entries (`one/grid.c:5038`, `5078-5086`) | an open fan of MAXDEG cells, which the test for MAXDEG - 1 lets through: `Equators.FanWithoutRoom` | the cells are not an open fan of MAXDEG cells: `Equators.FanWithoutRoom`, `Equators.EdgeGem.FindEquator` |
| a ghost message carries all ids of a node (`one/gridfortran.c:901-924`) | a node on 101 faces with different ids, none of which is sent: `GhostExchange.CrowdedSendsNothing` | at most 100 face ids and 100 edge ids: `GhostExchange.AllIdsSent` |

## Left out

- Doubles are reals and integers are unbounded; rounding, overflow and memory failure are not modelled. Square
  roots enter as any distance function that is a nonnegative root of the squared norm (`Geometry.IsDistance`).
- Buffers that C grows with `realloc` are fields of type `seq`; fixed buffers and caller's buffers are arrays.
- File text, printing, Ruby bindings, CAD projection, external meshers, smoothing, lines, spacing, and the freezing of
  nodes by the layer.
- Mixed elements (prisms, pyramids, hexes, quads) and blends of the layer: the model is the tetrahedra-only mode
  without blends.
- The transport of messages: buffers are handed over as values, and partitions exchange one after the other.
- MeshGrid.Grid.Pack: does not say that the face map handed to the packing callback is the permutation of the faces,
  because a swap overwrites an entry of it (one/grid.c:2007-2041); per-node data beside position and global id,
  and the edge numbering of cells, are not packed in the model.
- MeshGrid.Grid.AddNode: is modelled for grids without global ids; GlobalNumbering.AddNode models it with them.
- ItemStore.Store.ReconnectAll: for edges it stands for two different nodes only, because gridReconnectAllEdge does
  not return early for equal ones (one/grid.c:4592-4614) and then goes on replacing a node by itself.
- Packing.PackCells: requires that the nodes of all cells survive; for a cell that names a removed node the program
  writes EMPTY into the row and goes on (one/grid.c:1949-1973).
- NodeStore.Nodes.AddNodeWithGlobal: requires an empty grid for the first global id, because the program leaves the
  ids of the nodes there are unset; so does NodeStore.Nodes.SetNewGlobal.
- FutureCells.Run: has no pack step, because the in-layer flags of faces do not follow faces through a pack, the
  face map not being their permutation; LayerStore.LayerItems.PackCells and PackEdges prove it for cells and edges.
- AdvancingLayer.Layer.AddSides: the flag array is taken after the face is added, an order the C assignment leaves
  open (mesherx/layer.c:2468).
- LayerStore.LayerItems.ReconnectUnlessInLayer: a face that moves keeps its own uv, where the program reads the uv
  of its nodes again (mesherx/layer.c:2100-2112).
- Renumbering.MoveNodes: is the node part of the renumbering; the rows of cells, faces and edges it also renames
  are not part of it.
- GlobalNumbering.GlobalShiftNode: requires a nonnegative offset; a negative one can make two ids equal.
- AdvancingLayer.Layer.Advance: requires tip positions other than DBL_MAX, the mark of an unused node, and starts
  from a closed front with one normal per root.
- Equators.EdgeGem.FindEquator: requires two different ends, excludes an open fan of MAXDEG cells, for which the
  node array has no room, and links that give a node two predecessors or two successors.
- FaceRecords.ExportNGP: requires a conforming mesh in a packed grid; the program packs the grid first.
- FaceRecords.RoundTrip: does not say which ids that are multiples of 100 happen to leave the tetrahedra right.
- GhostExchange.Partition.LoadLocalNodes: requires that global ids have been set.
- GhostExchange.Partition.LoadGlobalNodeData: requires that the nodes asked for are there and that a message
  starts with a node; the program prints an error for a missing node and goes on.
- FaceRecords.ImportNGP: gives the rebuilt cells and triangles as lists; adding them to a new grid, and nodes, are
  left to the tables above.
- NearTree.Near.Insert: the child has no children of its own.
- NearTree.NearestIndexAndDistance: requires nonnegative radii, without which pruning by radius may lose the
  nearest ball.
- Geometry curves (gridGeomCurve): not modelled; on closed curves the walk depends on the order of the lists.
