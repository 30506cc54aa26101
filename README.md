# Graph algorithms visualizer: a verified model of its core

This project is a Dafny model of the core of a Java graph-algorithms visualizer:

- **The directed graph.** `AdjacencyMapDigraph` stores vertices in an insertion-ordered map from label to vertex. It also stores a set of weighted edges. Each vertex has two insertion-ordered neighbour maps: outgoing edges keyed by target, and incoming edges keyed by source.
- **The priority queue.** `HeapAdaptablePriorityQueue` is a binary min-heap in an array list. Its entries are location-aware, so an entry can be removed or re-keyed in place. `AbstractPriorityQueue` provides its key comparison.
- **Three algorithms over the graph.** Each one runs inside a loop that adds a random edge after every failed attempt:
  - Dijkstra's shortest path, with reconstruction of the shortest-path tree (`ShortestPath`);
  - depth-first cycle detection with back edges (`CycleDetection`);
  - Tarjan's strongly-connected-components search, used to decide strong connectivity (`StrongConnectivity`).

The modules follow the Java classes:

| module | file | models |
|---|---|---|
| `Wrappers` | wrappers.dfy | `Option`/`Result`: Java's `null` returns and thrown exceptions |
| `Digraph` | digraph.dfy | `AdjacencyMapDigraph`: `GraphState` (its four fields as values), its invariant `ValidState`, one pure function per operation, and the class `AdjacencyMapDigraph`, whose methods update the fields |
| `Paths` | paths.dfy | paths and path weights, the vocabulary the algorithms are specified in |
| `AbstractPriorityQueue` | abstract_priority_queue.dfy | the comparator, `checkKey`, `isEmpty` |
| `HeapAdaptablePriorityQueue` | heap_adaptable_priority_queue.dfy | the classes `AdaptablePQEntry` and `HeapAdaptablePriorityQueue` (a `seq` of entry objects), with heap-order lemmas over the key sequence |
| `ShortestPath` | shortest_path.dfy | `dijkstra`, `generatePath`, `start` |
| `RandomEdges` | random_edges.dfy | the "add a random edge and log it" step shared by the cycle and connectivity loops |
| `DfsOrder` | dfs_order.dfy | cycles, and the finishing-order argument behind `checkCycle` |
| `CycleDetection` | cycle_detection.dfy | `checkCycle` and `start`; the static fields and shared collections become fields of one object |
| `StrongConnectivity` | strong_connectivity.dfy | `setRef`, `init`, `checkStronglyConnected` and `start`; the arrays `ids`, `low` and `onStack` are Dafny arrays |

**How the graph is modelled:**
- A vertex is its label. `DVertex` equality and hashing use only the label.
- An edge is keyed by its ordered pair of endpoints, because that is how `DEdge` equality works. The edge set is therefore a map from that pair to the edge's integer element.
- A neighbour map is the sequence of its keys in insertion order. Iteration order matters: it decides which cycle is found first and which parent edge the shortest-path tree keeps.

**How randomness is modelled:**
- `generateRandomEdge` picks its pair of vertices by nondeterministic choice (`:|`).
- The random weight 1 to 20 in the three `start` loops is also a nondeterministic choice.

**How the algorithms are modelled:**
- Each algorithm's imperative code is a method proved against a specification function or predicate:
  - `Shortest` for the distances;
  - `TreeOf` for the shortest-path tree;
  - `VisitRun` for one call of Tarjan's search;
  - `Recorded` and `Ordered` for the cycle search.
- Lemmas prove that these specifications mean what the source promises: shortest distances, a path of that weight, a real cycle, acyclicity when none is found, and strong connectivity exactly when the component count is one.

## Model


| member | source | states |
|---|---|---|
| `Digraph.ValidateVertex` | src/graphvisualizer/graph/AdjacencyMapDigraph.java:299-314 | succeeds exactly for a vertex of the graph and returns it; otherwise the error is UnknownVertex |
| `Digraph.ValidateEdge` | src/graphvisualizer/graph/AdjacencyMapDigraph.java:317-332 | succeeds exactly when some stored edge has the handle's source and target, as `DEdge.equals` decides; otherwise UnknownEdge |
| `Digraph.OutgoingEdges` | src/graphvisualizer/graph/AdjacencyMapDigraph.java:164-167 | fails with UnknownVertex exactly for a non-vertex; otherwise lists exactly the stored edges leaving `v`, each once (no two with the same target), in the insertion order of its outgoing map |
| `Digraph.IncomingEdges` | src/graphvisualizer/graph/AdjacencyMapDigraph.java:158-161 | fails with UnknownVertex exactly for a non-vertex; otherwise lists exactly the stored edges entering `v`, each once (no two with the same source), in the insertion order of its incoming map |
| `Digraph.GetEdge` | src/graphvisualizer/graph/AdjacencyMapDigraph.java:199-202 | only a `u` that is not a vertex is an error; otherwise the answer is some edge exactly when (u, v) is stored, and then it is that stored edge with its element |
| `Digraph.Opposite` | src/graphvisualizer/graph/AdjacencyMapDigraph.java:170-184 | an unknown vertex, then an unknown edge, are the errors; a success is the endpoint of `e` other than `v` |
| `Digraph.AddVertexValid` | src/graphvisualizer/graph/AdjacencyMapDigraph.java:187-196 | adding a new label keeps the graph invariant and the absence of self-loops, and adds one vertex and no edge |
| `Digraph.AddEdgeValid` | src/graphvisualizer/graph/AdjacencyMapDigraph.java:205-235 | inserting an absent edge between two vertices keeps the invariant (each edge listed once in exactly its two neighbour maps) and adds exactly one edge |
| `Digraph.DeleteEdgeValid` | src/graphvisualizer/graph/AdjacencyMapDigraph.java:255-266 | removing a stored edge keeps the invariant and removes exactly one edge |
| `Digraph.DeleteAfterAdd` | src/graphvisualizer/graph/AdjacencyMapDigraph.java:221-266 | round trip: inserting an absent edge and then removing it restores the graph, neighbour-map order included |
| `Digraph.WithoutAppended` | src/graphvisualizer/graph/AdjacencyMapDigraph.java:261-262 | removing the key just appended to an insertion-ordered map gives back the original key order |
| `Digraph.GetEdgeAfterAdd` | src/graphvisualizer/graph/AdjacencyMapDigraph.java:199-235 | after insertEdge(u, v, w), getEdge(u, v) finds the edge with element w and getEdge(v, u) answers as before |
| `Digraph.DistinctPairsCount` | src/graphvisualizer/graph/AdjacencyMapDigraph.java:270 | n distinct vertices form exactly n(n - 1) ordered pairs of distinct vertices |
| `Digraph.EdgesArePairs` | src/graphvisualizer/graph/AdjacencyMapDigraph.java:270-271 | in a loopless graph every edge is such a pair, and the edges are all of them exactly when the graph is complete |
| `Digraph.EdgeCountBound` | src/graphvisualizer/graph/AdjacencyMapDigraph.java:270-271 | in a loopless graph numEdges is at most n(n - 1), and equals it exactly when the graph is complete |
| `Digraph.DeleteVertexValid` | src/graphvisualizer/graph/AdjacencyMapDigraph.java:238-252 | removing a vertex and its incident edges keeps the invariant and removes exactly one vertex |
| `Digraph.DeleteVertexCount` | src/graphvisualizer/graph/AdjacencyMapDigraph.java:238-252 | without a self-loop at `x`, numEdges drops by exactly the in-degree plus the out-degree of `x` |
| `Digraph.RemovalPrefix` | src/graphvisualizer/graph/AdjacencyMapDigraph.java:240-247 | removing the first i edges of the list removeVertex collects (incoming, then outgoing) is pruning the edge set by those edges |
| `Digraph.RemovalNext` | src/graphvisualizer/graph/AdjacencyMapDigraph.java:245-246 | before the second copy of a self-loop, the next collected edge is still stored, so its removeEdge succeeds |
| `Digraph.SelfLoopAt` | src/graphvisualizer/graph/AdjacencyMapDigraph.java:242-246 | a collected edge that is no longer stored is the self-loop at `x`, met again in the outgoing part |
| `Digraph.RemovalDone` | src/graphvisualizer/graph/AdjacencyMapDigraph.java:245-250 | without a self-loop, removing every collected edge and then the vertex gives exactly the graph without `x` and its incident edges |
| `Digraph.PruneValid` | src/graphvisualizer/graph/AdjacencyMapDigraph.java:255-266 | removing any subset of the edges keeps the graph invariant |
| `Digraph.AdjacencyMapDigraph.constructor` | src/graphvisualizer/graph/AdjacencyMapDigraph.java:123-126 | a new graph is empty and valid |
| `Digraph.AdjacencyMapDigraph.InsertVertex` | src/graphvisualizer/graph/AdjacencyMapDigraph.java:187-196 | a duplicate label is an error and changes nothing; a new label is returned and added last, with empty neighbour maps |
| `Digraph.AdjacencyMapDigraph.InsertEdge` | src/graphvisualizer/graph/AdjacencyMapDigraph.java:205-235 | an unknown endpoint or an existing u->v is an error and changes nothing; otherwise the new edge is returned, added to the edge set, last in u's outgoing and v's incoming map |
| `Digraph.AdjacencyMapDigraph.RemoveEdge` | src/graphvisualizer/graph/AdjacencyMapDigraph.java:255-266 | a handle equal to no stored edge is an error and changes nothing; otherwise the handle's element is returned and the edge leaves the edge set and both neighbour maps |
| `Digraph.AdjacencyMapDigraph.RemoveVertex` | src/graphvisualizer/graph/AdjacencyMapDigraph.java:238-252 | an unknown vertex is an error and changes nothing; a vertex with a self-loop makes the second removal of that edge fail: the vertex stays, with its incoming edges and the outgoing ones listed before the self-loop removed; otherwise the label is returned and the vertex and its incident edges are gone |
| `Digraph.AdjacencyMapDigraph.GenerateRandomEdge` | src/graphvisualizer/graph/AdjacencyMapDigraph.java:268-296 | with n(n - 1) edges nothing changes and the result is the "maximum" message; otherwise exactly one new edge with the given element joins two distinct vertices, in a direction that was missing |
| `Digraph.GrewStep` | src/graphvisualizer/graph/AdjacencyMapDigraph.java:289-293 | one generated edge grows the graph by one new edge and keeps every old edge with its element |
| `Digraph.LoggedStep` | src/graphvisualizer/graph/AdjacencyMapDigraph.java:289-293 | the log of generated edges records each new edge: distinct endpoints, element 1 to 20, absent before |
| `AbstractPriorityQueue.CompareKeys` | src/graphvisualizer/graph/AbstractPriorityQueue.java:34-36 | negative, zero or positive exactly as the first key is below, equal to or above the second |
| `AbstractPriorityQueue.CheckKey` | src/graphvisualizer/graph/AbstractPriorityQueue.java:39-45 | every integer key compares equal to itself, so it is accepted |
| `AbstractPriorityQueue.IsEmpty` | src/graphvisualizer/graph/AbstractPriorityQueue.java:48-50 | empty exactly when the size is zero |
| `HeapAdaptablePriorityQueue.AdaptablePQEntry.constructor` | src/graphvisualizer/graph/HeapAdaptablePriorityQueue.java:11-14 | a new entry holds the given key, value and index |
| `HeapAdaptablePriorityQueue.AdaptablePQEntry.SetKey` | src/graphvisualizer/graph/AbstractPriorityQueue.java:20 | the key becomes the given one; value and index are unchanged |
| `HeapAdaptablePriorityQueue.AdaptablePQEntry.SetValue` | src/graphvisualizer/graph/AbstractPriorityQueue.java:21 | the value becomes the given one; key and index are unchanged |
| `HeapAdaptablePriorityQueue.AdaptablePQEntry.SetIndex` | src/graphvisualizer/graph/HeapAdaptablePriorityQueue.java:16 | the index becomes the given one; key and value are unchanged |
| `HeapAdaptablePriorityQueue.Swapped` | src/graphvisualizer/graph/HeapAdaptablePriorityQueue.java:37 | exchanges positions i and j, leaves every other position alone and keeps the multiset |
| `HeapAdaptablePriorityQueue.DetachedElements` | src/graphvisualizer/graph/HeapAdaptablePriorityQueue.java:63-67 | moving the entry at j to the end and dropping it removes exactly that entry, once, and no other |
| `HeapAdaptablePriorityQueue.RootIsMinimum` | src/graphvisualizer/graph/HeapAdaptablePriorityQueue.java:6 | in heap order the root key is a least key |
| `HeapAdaptablePriorityQueue.UpStep` | src/graphvisualizer/graph/HeapAdaptablePriorityQueue.java:45 | one upheap swap with a larger parent moves the only order defect up to the parent |
| `HeapAdaptablePriorityQueue.UpDone` | src/graphvisualizer/graph/HeapAdaptablePriorityQueue.java:45 | upheap stopping at the root or below a parent that is not larger leaves the heap ordered |
| `HeapAdaptablePriorityQueue.DownStep` | src/graphvisualizer/graph/HeapAdaptablePriorityQueue.java:47 | one downheap swap with the smaller child, when it is smaller, moves the only defect down to that child |
| `HeapAdaptablePriorityQueue.DownDone` | src/graphvisualizer/graph/HeapAdaptablePriorityQueue.java:47 | downheap stopping where no child is smaller leaves the heap ordered |
| `HeapAdaptablePriorityQueue.BubbleUp` | src/graphvisualizer/graph/HeapAdaptablePriorityQueue.java:44-45 | when bubble's test holds, only an upward defect is left, which upheap repairs |
| `HeapAdaptablePriorityQueue.BubbleDown` | src/graphvisualizer/graph/HeapAdaptablePriorityQueue.java:46-47 | when it fails, only a downward defect is left, which downheap repairs |
| `HeapAdaptablePriorityQueue.Appended` | src/graphvisualizer/graph/HeapAdaptablePriorityQueue.java:53-55 | a key appended to a heap is at most an upward defect at the last position |
| `HeapAdaptablePriorityQueue.Replaced` | src/graphvisualizer/graph/HeapAdaptablePriorityQueue.java:76-77 | a new key at j breaks heap order only around j |
| `HeapAdaptablePriorityQueue.Moved` | src/graphvisualizer/graph/HeapAdaptablePriorityQueue.java:63-68 | after the swap with the last entry and its removal, heap order is broken only around j, and not at all when j was last |
| `HeapAdaptablePriorityQueue.HeapAdaptablePriorityQueue.constructor` | src/graphvisualizer/graph/HeapAdaptablePriorityQueue.java:20 | a new queue is empty and valid |
| `HeapAdaptablePriorityQueue.HeapAdaptablePriorityQueue.Compare` | src/graphvisualizer/graph/AbstractPriorityQueue.java:34-36 | the comparator applied to the two entries' keys |
| `HeapAdaptablePriorityQueue.HeapAdaptablePriorityQueue.Empty` | src/graphvisualizer/graph/AbstractPriorityQueue.java:48-50 | isEmpty holds exactly when the heap holds no entry |
| `HeapAdaptablePriorityQueue.HeapAdaptablePriorityQueue.Validate` | src/graphvisualizer/graph/HeapAdaptablePriorityQueue.java:25-33 | accepts exactly the entries the heap holds, each at its stored index; any other entry (stale or foreign) is InvalidEntry |
| `HeapAdaptablePriorityQueue.HeapAdaptablePriorityQueue.LocatedDistinct` | src/graphvisualizer/graph/HeapAdaptablePriorityQueue.java:29-30 | when every entry stores its own index, no entry is held twice |
| `HeapAdaptablePriorityQueue.HeapAdaptablePriorityQueue.MinAtRoot` | src/graphvisualizer/graph/HeapAdaptablePriorityQueue.java:6 | in heap order the root entry has a least key |
| `HeapAdaptablePriorityQueue.HeapAdaptablePriorityQueue.Swap` | src/graphvisualizer/graph/HeapAdaptablePriorityQueue.java:36-40 | the two entries are exchanged and each stores its new index, so every entry still stores its own index |
| `HeapAdaptablePriorityQueue.HeapAdaptablePriorityQueue.Detach` | src/graphvisualizer/graph/HeapAdaptablePriorityQueue.java:62-67 | the entry at j is exchanged with the last one unless it is last, then the last position is dropped; indices stay correct |
| `HeapAdaptablePriorityQueue.HeapAdaptablePriorityQueue.Upheap` | src/graphvisualizer/graph/HeapAdaptablePriorityQueue.java:45 | from an upward defect, restores heap order and keeps the entries |
| `HeapAdaptablePriorityQueue.HeapAdaptablePriorityQueue.Downheap` | src/graphvisualizer/graph/HeapAdaptablePriorityQueue.java:47 | from a downward defect, restores heap order and keeps the entries |
| `HeapAdaptablePriorityQueue.HeapAdaptablePriorityQueue.Bubble` | src/graphvisualizer/graph/HeapAdaptablePriorityQueue.java:43-48 | from a defect around j, restores heap order and keeps the entries |
| `HeapAdaptablePriorityQueue.HeapAdaptablePriorityQueue.Insert` | src/graphvisualizer/graph/HeapAdaptablePriorityQueue.java:51-57 | returns a new entry with the key and value, now held, adds exactly it and keeps heap order; other entries keep keys and values |
| `HeapAdaptablePriorityQueue.HeapAdaptablePriorityQueue.DropAt` | src/graphvisualizer/graph/HeapAdaptablePriorityQueue.java:62-68 | the entry at j leaves the heap, exactly once, and heap order holds again |
| `HeapAdaptablePriorityQueue.HeapAdaptablePriorityQueue.Remove` | src/graphvisualizer/graph/HeapAdaptablePriorityQueue.java:60-70 | succeeds exactly for a held entry, which then leaves while every other entry stays; otherwise InvalidEntry and no change; heap order holds and no key or value changes |
| `HeapAdaptablePriorityQueue.HeapAdaptablePriorityQueue.ReplaceKey` | src/graphvisualizer/graph/HeapAdaptablePriorityQueue.java:73-78 | succeeds exactly for a held entry, whose key becomes the new one; the entries, all values and every other key are unchanged; heap order holds; a rejected entry keeps its key, so a failed call changes nothing |
| `HeapAdaptablePriorityQueue.HeapAdaptablePriorityQueue.DropRoot` | src/graphvisualizer/graphalgorithms/ShortestPath.java:78 | the root leaves the heap, exactly once, and heap order holds again |
| `HeapAdaptablePriorityQueue.HeapAdaptablePriorityQueue.RemoveMin` | src/graphvisualizer/graphalgorithms/ShortestPath.java:78 | nothing on an empty queue; otherwise returns a held entry of least key, which leaves while every other entry stays, with keys and values unchanged |
| `Paths.FrontierBound` | src/graphvisualizer/graphalgorithms/ShortestPath.java:77-83 | Dijkstra's key fact: with relaxed edges out of the settled part, every path from the start to a waiting vertex weighs at least the least waiting distance |
| `ShortestPath.Settle` | src/graphvisualizer/graphalgorithms/ShortestPath.java:78-82 | removing the waiting vertex of least distance and putting it in the cloud keeps the run's state: no path to it is lighter |
| `ShortestPath.ShortestUnique` | src/graphvisualizer/graphalgorithms/ShortestPath.java:30-35 | two shortest-distance maps from the same vertex are equal, so overwriting `d` on each run leaves no stale entry |
| `ShortestPath.StartAtZero` | src/graphvisualizer/graphalgorithms/ShortestPath.java:67-68 | the start vertex is at distance 0 |
| `ShortestPath.Triangle` | src/graphvisualizer/graphalgorithms/ShortestPath.java:90-91 | shortest distances cannot be improved along any edge |
| `ShortestPath.Initialise` | src/graphvisualizer/graphalgorithms/ShortestPath.java:66-74 | d is 0 at the start and MAX_VALUE elsewhere; every vertex has one new queue entry with its distance as key, and its handle is saved |
| `ShortestPath.Enqueue` | src/graphvisualizer/graphalgorithms/ShortestPath.java:73 | the queue gains the vertex's entry with the given key, and the handle map records it |
| `ShortestPath.Dequeue` | src/graphvisualizer/graphalgorithms/ShortestPath.java:78-82 | returns a waiting vertex of least distance with its distance as key, and drops it from the queue and the handle map |
| `ShortestPath.Rekey` | src/graphvisualizer/graphalgorithms/ShortestPath.java:92 | the queue key of the waiting vertex follows its new distance; the queue holds the same entries |
| `ShortestPath.RelaxLowers` | src/graphvisualizer/graphalgorithms/ShortestPath.java:87-93 | relaxation lowers at most the target's distance, never touches the cloud, and leaves the target at most d[u] + w |
| `ShortestPath.RelaxAllLowers` | src/graphvisualizer/graphalgorithms/ShortestPath.java:84-95 | relaxing the edges leaving u in order only lowers distances and leaves the cloud's alone |
| `ShortestPath.Wrap32` | src/graphvisualizer/graphalgorithms/ShortestPath.java:90 | Java int addition: the value in 32-bit range congruent to the sum, the sum itself when it fits |
| `ShortestPath.Relax32Unreached` | src/graphvisualizer/graphalgorithms/ShortestPath.java:90-91 | as written, relaxing a weight-1 edge out of an unreached vertex into an unreached one gives distance MIN_VALUE |
| `ShortestPath.Relax32Agrees` | src/graphvisualizer/graphalgorithms/ShortestPath.java:90-91 | without overflow, the 32-bit relaxation is the modelled one |
| `ShortestPath.UnreachedRelaxesNothing` | src/graphvisualizer/graphalgorithms/ShortestPath.java:90 | in unbounded arithmetic, an edge out of a vertex at MAX_VALUE relaxes nothing |
| `ShortestPath.RelaxEdgeKeeps` | src/graphvisualizer/graphalgorithms/ShortestPath.java:87-93 | relaxing one edge out of the settled u keeps the run's state, relaxes that edge and lowers nothing else |
| `ShortestPath.RelaxAllKeeps` | src/graphvisualizer/graphalgorithms/ShortestPath.java:84-95 | relaxing the edges out of u keeps the run's state, with each distance the weight of a recorded path |
| `ShortestPath.SettleEdges` | src/graphvisualizer/graphalgorithms/ShortestPath.java:84-95 | after the inner loop every edge out of the cloud, u's included, is relaxed |
| `ShortestPath.Finished` | src/graphvisualizer/graphalgorithms/ShortestPath.java:77-97 | once the queue is empty the cloud is `d` and holds the shortest distances |
| `ShortestPath.RelaxEdge` | src/graphvisualizer/graphalgorithms/ShortestPath.java:85-93 | one pass of the inner loop: d becomes Relax(d, cloud, e) and the queue keys follow |
| `ShortestPath.RelaxOutgoing` | src/graphvisualizer/graphalgorithms/ShortestPath.java:84-95 | the inner loop: d becomes the relaxation of the outgoing edges in map order and the queue keys follow |
| `ShortestPath.Dijkstra` | src/graphvisualizer/graphalgorithms/ShortestPath.java:58-103 | with non-negative weights, d is the shortest distance from the start to every vertex (MAX_VALUE when unreachable), weight is d[end], and the result is true exactly when end is reachable |
| `ShortestPath.LastTight` | src/graphvisualizer/graphalgorithms/ShortestPath.java:127-134 | the edge kept is an incoming edge on which d is tight, and none is kept only when no incoming edge is tight |
| `ShortestPath.LastTightIsLast` | src/graphvisualizer/graphalgorithms/ShortestPath.java:130-132 | no tight edge comes after the one kept, since each match overwrites the one before |
| `ShortestPath.LastTightStep` | src/graphvisualizer/graphalgorithms/ShortestPath.java:130-133 | a tight edge replaces the earlier choice and any other edge leaves it |
| `ShortestPath.LastTightAmong` | src/graphvisualizer/graphalgorithms/ShortestPath.java:127-134 | the loop over the incoming edges keeps the last tight one |
| `ShortestPath.TightIncoming` | src/graphvisualizer/graphalgorithms/ShortestPath.java:127-134 | the kept edge for v is the last tight one among its incoming edges in map order |
| `ShortestPath.ShortestPathTree` | src/graphvisualizer/graphalgorithms/ShortestPath.java:125-136 | the tree maps exactly the non-start vertices with a tight incoming edge to the last one, and the parent map to that edge's source |
| `ShortestPath.TightInto` | src/graphvisualizer/graphalgorithms/ShortestPath.java:130 | a reachable vertex other than the start has a tight incoming edge |
| `ShortestPath.InTree` | src/graphvisualizer/graphalgorithms/ShortestPath.java:125-136 | such a vertex is in the tree, with a tight stored edge from its parent |
| `ShortestPath.ParentStep` | src/graphvisualizer/graphalgorithms/ShortestPath.java:141 | with positive weights a reachable non-start vertex's parent is strictly closer to the start |
| `ShortestPath.TreeTight` | src/graphvisualizer/graphalgorithms/ShortestPath.java:125-143 | with positive weights every reachable non-start vertex has a tight tree edge from a strictly closer parent |
| `ShortestPath.TightWeight` | src/graphvisualizer/graphalgorithms/ShortestPath.java:141-146 | a walk of tight edges is a path weighing the difference of its ends' distances |
| `ShortestPath.ChainPrepend` | src/graphvisualizer/graphalgorithms/ShortestPath.java:141-142 | one step back along the tree extends the chain of tight tree edges |
| `ShortestPath.WalkBack` | src/graphvisualizer/graphalgorithms/ShortestPath.java:141-146 | the parent walk from end reaches the start; the stack, top first, runs from the start to end along tree edges |
| `ShortestPath.PopPath` | src/graphvisualizer/graphalgorithms/ShortestPath.java:149-156 | every stacked vertex is highlighted in order, and the tree edge of each one other than the start is written |
| `ShortestPath.ChainIsPath` | src/graphvisualizer/graphalgorithms/ShortestPath.java:141-156 | that walk is a path from the start to end weighing d[end] |
| `ShortestPath.ChainEdgesStored` | src/graphvisualizer/graphalgorithms/ShortestPath.java:154-155 | the written edges are the stored edges between consecutive path vertices |
| `ShortestPath.ChainEdgesLast` | src/graphvisualizer/graphalgorithms/ShortestPath.java:127-155 | each written edge is the last tight incoming edge of its target |
| `ShortestPath.GeneratePath` | src/graphvisualizer/graphalgorithms/ShortestPath.java:119-158 | the highlighted vertices are a path from the start to end weighing d[end]; the written edges are its edges in order, each the last tight incoming edge of its target |
| `ShortestPath.Unfilled` | src/graphvisualizer/graphalgorithms/ShortestPath.java:35-37 | a run that does not reach end leaves room for another edge, since in a complete graph the edge start->end is a path |
| `ShortestPath.ExtendedStep` | src/graphvisualizer/graphalgorithms/ShortestPath.java:37 | each added edge has weight 1 to 20, so every weight stays positive and below MAX_VALUE |
| `ShortestPath.Start` | src/graphvisualizer/graphalgorithms/ShortestPath.java:28-42 | edges of weight 1 to 20 are added only while end is unreachable, then the path written is a lightest path from the start to end, with `weight` its weight |
| `RandomEdges.AddRandomEdge` | src/graphvisualizer/graphalgorithms/StrongConnectivity.java:64 | one new edge is added and logged: the edge count moves towards n(n - 1) and old edges are kept |
| `DfsOrder.Elements` | src/graphvisualizer/graphalgorithms/CycleDetection.java:99 | the vertex set of a cycle is exactly its vertices |
| `DfsOrder.SimpleCycleCloses` | src/graphvisualizer/graphalgorithms/CycleDetection.java:110-118 | a printed cycle, closed by its first vertex, is a closed walk of the graph |
| `DfsOrder.CompleteCyclic` | src/graphvisualizer/graphalgorithms/CycleDetection.java:46-56 | a complete graph with two vertices or more has a cycle |
| `DfsOrder.AcyclicUnfilled` | src/graphvisualizer/graphalgorithms/CycleDetection.java:53-55 | an acyclic loopless graph with two vertices or more has room for another edge |
| `DfsOrder.OrderedPath` | src/graphvisualizer/graphalgorithms/CycleDetection.java:85-89 | along a path from a finished vertex, each later vertex finished earlier |
| `DfsOrder.OrderedAcyclic` | src/graphvisualizer/graphalgorithms/CycleDetection.java:85-89 | no closed walk starts at a vertex with a finishing number |
| `DfsOrder.OrderedFinish` | src/graphvisualizer/graphalgorithms/CycleDetection.java:122 | finishing a vertex whose edges all lead to finished vertices keeps the finishing order topological |
| `DfsOrder.Enter` | src/graphvisualizer/graphalgorithms/CycleDetection.java:78-80 | entering an unvisited vertex from the top of the stack pushes it and keeps the finished part as it was |
| `DfsOrder.Adopt` | src/graphvisualizer/graphalgorithms/CycleDetection.java:86 | recording the parent of an unvisited vertex leaves the recursion stack as it was |
| `DfsOrder.Leave` | src/graphvisualizer/graphalgorithms/CycleDetection.java:122 | leaving the top vertex once all its edges lead to visited vertices pops it and finishes it |
| `DfsOrder.RecordNew` | src/graphvisualizer/graphalgorithms/CycleDetection.java:107-109 | counting a cycle whose vertex set was not found before keeps the record: its set is appended once, the count rises by one and stays the number of distinct sets |
| `CycleDetection.CycleDetection.Repeated` | src/graphvisualizer/graphalgorithms/CycleDetection.java:101-106 | true exactly when the vertex set is one found before |
| `CycleDetection.CycleDetection.CycleOnStack` | src/graphvisualizer/graphalgorithms/CycleDetection.java:95-98 | the parent walk from v back to the on-stack y is the stretch of the recursion stack from y to v |
| `CycleDetection.CycleDetection.StackCycle` | src/graphvisualizer/graphalgorithms/CycleDetection.java:95-99 | that stretch with the edge v->y is a cycle of distinct vertices |
| `CycleDetection.CycleDetection.RecordCycle` | src/graphvisualizer/graphalgorithms/CycleDetection.java:89-119 | returns the cycle found, running from y to v and closed by the edge v->y, a cycle of distinct vertices; a vertex set not found before is appended to the found sets, its cycle printed and cycleCount incremented; a repeated set changes neither the sets, the printed cycles nor cycleCount; cycleCount stays the number of distinct sets |
| `CycleDetection.CycleDetection.Push` | src/graphvisualizer/graphalgorithms/CycleDetection.java:78-80 | the vertex leaves the roots to try and becomes visited and on the stack |
| `CycleDetection.CycleDetection.Pop` | src/graphvisualizer/graphalgorithms/CycleDetection.java:122 | the vertex leaves the stack and is finished |
| `CycleDetection.CycleDetection.Follow` | src/graphvisualizer/graphalgorithms/CycleDetection.java:83-120 | after one edge v->y, y is visited, and finished unless a cycle was found |
| `CycleDetection.CycleDetection.Explore` | src/graphvisualizer/graphalgorithms/CycleDetection.java:82-121 | after the loop every edge out of v leads to a visited vertex, finished unless a cycle was found |
| `CycleDetection.CycleDetection.CheckCycle` | src/graphvisualizer/graphalgorithms/CycleDetection.java:74-123 | the call finishes v, leaves the stack as it found it and only moves the search forward |
| `CycleDetection.CycleDetection.SearchFrom` | src/graphvisualizer/graphalgorithms/CycleDetection.java:49-51 | one DFS then clearing visited and parents: the reached vertices leave the roots, and without a cycle found none starts a closed walk |
| `CycleDetection.CycleDetection.Sweep` | src/graphvisualizer/graphalgorithms/CycleDetection.java:47-52 | every vertex is a root at most once, and a sweep that finds no cycle has shown the graph acyclic |
| `CycleDetection.CycleDetection.Reset` | src/graphvisualizer/graphalgorithms/CycleDetection.java:36-42 | no search under way, no cycle found, count zero |
| `CycleDetection.CycleDetection.Start` | src/graphvisualizer/graphalgorithms/CycleDetection.java:35-58 | ends with a cycle found and counted; edges are added only after a sweep without one, so a graph with a cycle is not changed |
| `StrongConnectivity.RefBijection` | src/graphvisualizer/graphalgorithms/StrongConnectivity.java:115-123 | the numbering is a bijection from the vertices onto 0 to n - 1 |
| `StrongConnectivity.SetRef` | src/graphvisualizer/graphalgorithms/StrongConnectivity.java:115-123 | the i-th vertex of the list gets number i, and no other label gets a number |
| `StrongConnectivity.EnterOk` | src/graphvisualizer/graphalgorithms/StrongConnectivity.java:82-84 | numbering and pushing an unvisited vertex keeps Tarjan's invariant (distinct increasing ids, low-link at most the id, stack and onStack agree) |
| `StrongConnectivity.LowerOk` | src/graphvisualizer/graphalgorithms/StrongConnectivity.java:95 | taking the low-link of an on-stack neighbour keeps the invariant |
| `StrongConnectivity.PopOneOk` | src/graphvisualizer/graphalgorithms/StrongConnectivity.java:99-101 | popping one vertex with the root's id as low-link keeps the invariant |
| `StrongConnectivity.PopUntilOk` | src/graphvisualizer/graphalgorithms/StrongConnectivity.java:99-103 | popping down to and including `at` keeps the invariant for the calls below |
| `StrongConnectivity.CloseTarjan` | src/graphvisualizer/graphalgorithms/StrongConnectivity.java:98-105 | closing the component at `at` keeps the invariant for the calls below |
| `StrongConnectivity.StayTarjan` | src/graphvisualizer/graphalgorithms/StrongConnectivity.java:98 | a vertex whose low-link is below its id stays on the stack and the invariant holds |
| `StrongConnectivity.Gather` | src/graphvisualizer/graphalgorithms/StrongConnectivity.java:98-104 | every vertex the first closing call visited reaches its root |
| `StrongConnectivity.VisitRun` | src/graphvisualizer/graphalgorithms/StrongConnectivity.java:79-106 | one call visits its vertex and only vertices that were unvisited |
| `StrongConnectivity.VisitOk` | src/graphvisualizer/graphalgorithms/StrongConnectivity.java:79-106 | one call keeps Tarjan's invariant and does its work |
| `StrongConnectivity.ExploreOk` | src/graphvisualizer/graphalgorithms/StrongConnectivity.java:89-96 | the loop over the edges keeps the invariant and follows every edge |
| `StrongConnectivity.FollowOk` | src/graphvisualizer/graphalgorithms/StrongConnectivity.java:90-95 | following one edge keeps the invariant and counts the edge as followed |
| `StrongConnectivity.LeaveOk` | src/graphvisualizer/graphalgorithms/StrongConnectivity.java:98-105 | leaving the call, closing its component or not, keeps the invariant |
| `StrongConnectivity.ClosedAll` | src/graphvisualizer/graphalgorithms/StrongConnectivity.java:50-55 | in a strongly connected graph a visited set closed under edges is every vertex |
| `StrongConnectivity.HubConnected` | src/graphvisualizer/graphalgorithms/StrongConnectivity.java:57 | when every vertex reaches one hub and is reached from it, the graph is strongly connected |
| `StrongConnectivity.CompleteConnected` | src/graphvisualizer/graphalgorithms/StrongConnectivity.java:48-66 | a complete graph is strongly connected |
| `StrongConnectivity.DisconnectedUnfilled` | src/graphvisualizer/graphalgorithms/StrongConnectivity.java:63-64 | a loopless graph that is not strongly connected has room for another edge |
| `StrongConnectivity.SweepStep` | src/graphvisualizer/graphalgorithms/StrongConnectivity.java:50-55 | a top-level call empties the stack and closes a component; the first closes exactly one exactly when its vertices reach the root and back |
| `StrongConnectivity.SweepStart` | src/graphvisualizer/graphalgorithms/StrongConnectivity.java:49 | the sweep starts from the run init leaves |
| `StrongConnectivity.SweepVisit` | src/graphvisualizer/graphalgorithms/StrongConnectivity.java:52-53 | a search from a vertex whose turn comes while unvisited keeps the sweep's state |
| `StrongConnectivity.SweepDone` | src/graphvisualizer/graphalgorithms/StrongConnectivity.java:57 | after the whole vertex list, sccCount is one exactly when the graph has a vertex and is strongly connected |
| `StrongConnectivity.NumberedAdjacency` | src/graphvisualizer/graphalgorithms/StrongConnectivity.java:89-90 | the outgoing edges, under the numbering, form an adjacency whose edges are exactly the graph's |
| `StrongConnectivity.StrongConnectivity.constructor` | src/graphvisualizer/graphalgorithms/StrongConnectivity.java:135-137 | three new arrays of length n |
| `StrongConnectivity.StrongConnectivity.Init` | src/graphvisualizer/graphalgorithms/StrongConnectivity.java:131-141 | id and sccCount are 0, every id is UNVISITED, onStack all false and the stack empty |
| `StrongConnectivity.StrongConnectivity.Push` | src/graphvisualizer/graphalgorithms/StrongConnectivity.java:82-84 | the state becomes Entered: at is pushed and on the stack, with ids[at] = low[at] = id, and id is incremented |
| `StrongConnectivity.StrongConnectivity.Lower` | src/graphvisualizer/graphalgorithms/StrongConnectivity.java:95 | low[at] becomes the minimum of low[at] and low[c] |
| `StrongConnectivity.StrongConnectivity.CloseComponent` | src/graphvisualizer/graphalgorithms/StrongConnectivity.java:98-105 | the stack is popped down to and including at, each popped vertex off the stack with low-link ids[at], and sccCount is incremented |
| `StrongConnectivity.StrongConnectivity.CheckStronglyConnected` | src/graphvisualizer/graphalgorithms/StrongConnectivity.java:79-106 | the state after the call is VisitRun, the run VisitOk proves correct |
| `StrongConnectivity.StrongConnectivity.Explore` | src/graphvisualizer/graphalgorithms/StrongConnectivity.java:89-96 | the state after the loop is ExploreRun over the outgoing edges in map order |
| `StrongConnectivity.StrongConnectivity.Follow` | src/graphvisualizer/graphalgorithms/StrongConnectivity.java:90-95 | the state after one edge is FollowRun: recurse if unvisited, then lower if on the stack |
| `StrongConnectivity.StrongConnectivity.SweepOne` | src/graphvisualizer/graphalgorithms/StrongConnectivity.java:51-54 | one turn of the sweep keeps the sweep's state for one more vertex |
| `StrongConnectivity.StrongConnectivity.Sweep` | src/graphvisualizer/graphalgorithms/StrongConnectivity.java:49-57 | after init and the sweep, sccCount is one exactly when the graph has a vertex and is strongly connected |
| `StrongConnectivity.StrongConnectivity.Start` | src/graphvisualizer/graphalgorithms/StrongConnectivity.java:39-69 | ends strongly connected; no edge is added exactly when the graph was strongly connected already, and each added edge is new |

## Left out

- Visualisation is not modelled. This covers `graphView` styling and updates, the JavaFX windows, and `Main.java` and `MenuPane.java`. None of it affects control flow.
- The text the algorithms build with `StringBuilder` is not modelled, and neither is any `toString`. The results are modelled as values instead: the generated edges, the highlighted path and its edges, the cycles and their count, and the component count.
- `java.util.Random` is replaced by nondeterministic choice. This covers the vertex pair in `generateRandomEdge` and the weight 1 to 20. The rejection-sampling loop of `generateRandomEdge` becomes one choice among the pairs that qualify. Termination of that loop with probability 1 is not modelled.
- `synchronized` is not modelled: the model is sequential.
- `clear()`, `vertices()`, `edges()` and the no-argument constructor of `AdjacencyMapDigraph` are modelled only through the fields.
- Digraph.ValidateVertex: a vertex handle is its label, so one case is not captured. In the source, a stale or foreign `DVertex` whose label is present passes `validateVertex`, and its own neighbour maps are then used.
- `HeapPriorityQueue` (`upheap`, `downheap`, `removeMin`, `parent`, `swap`) and `DefaultComparator` are not part of this model. They are modelled as the textbook array min-heap over `int` keys in natural order.
- The queue constructor that takes a `Comparator` is not modelled. The `instanceof` check in `validate` holds by typing. The `ClassCastException` path of `checkKey` cannot arise for `int` keys.
- `min` and `size` of the queue are modelled but are not used by the algorithms.
- StrongConnectivity.StrongConnectivity.Sweep: proves that sccCount is one exactly when the graph is strongly connected. It does not prove that sccCount equals the number of strongly connected components. The source only ever reads `sccCount == 1` (StrongConnectivity.java:57), so the full count changes no behaviour.
- StrongConnectivity.StrongConnectivity.Start: needs at least one vertex. With none, the source loops forever.
- StrongConnectivity.StrongConnectivity.Start: the numbering `ref` is a local value, not a static field. The three arrays are allocated once for the graph's vertex count, not on every `init`. The vertex count never changes, so this does not change behaviour.
- CycleDetection.CycleDetection.RecordCycle: the contract does not fix which simple cycle from y to v is returned. The body returns the stack stretch from y to v, which `CycleDetection.CycleDetection.CycleOnStack` proves is the parent chain; stating that slice in the contract of `RecordCycle` makes the proof of `Follow` exceed the resource limit.
- CycleDetection.CycleDetection.Start: needs at least two vertices. With fewer, the source loops forever.
- Digraph.AdjacencyMapDigraph.GenerateRandomEdge, ShortestPath.Start, CycleDetection.CycleDetection.Start and StrongConnectivity.StrongConnectivity.Start: require a graph without self-loops, as the three loops produce and as every `insertEdge` call of the demo program (src/graphvisualizer/graphalgorithms/Main.java:144-148) keeps. Without that, the edge count can reach n(n - 1) while some ordered pair of distinct vertices is still missing, and the retry loop of `generateRandomEdge` would spin forever.
- ShortestPath.Start: requires edge weights that are positive and below MAX_VALUE, as `generateRandomEdge` is given. With a zero-weight edge the parent walk of `generatePath` can loop.
- ShortestPath.Dijkstra: distances are unbounded integers, with MAX_VALUE standing for an unreached vertex. The 32-bit arithmetic of the relaxation is modelled separately (see Findings).
- Neither the fixture graph of `Main.createDefaultDigraph` nor any example run is modelled.

## Findings

| source | as written | input that shows it | evidently intended | confidence | as-written member | corrected member |
|---|---|---|---|---|---|---|
| src/graphvisualizer/graphalgorithms/ShortestPath.java:90 | `d.get(u) + wgt` is 32-bit `int` addition, and `u` may be a vertex never reached, at distance `Integer.MAX_VALUE` | an edge of weight 1 from a vertex not reachable from the start to another such vertex: MAX_VALUE + 1 wraps to MIN_VALUE, below MAX_VALUE, so the target gets distance MIN_VALUE | a vertex never reached relaxes nothing, so every distance is a shortest-path weight or MAX_VALUE | high (not executed) | `ShortestPath.Relax32Unreached` | `ShortestPath.Dijkstra` |
