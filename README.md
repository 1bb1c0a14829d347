# A verified model of the Graph_library core

This project models, in Dafny, the core of a small C++ graph library and proves its properties.
The library has three parts. Every file listed below is modelled; nothing of the C++ is run.

- **Containers.** These are the vector-backed `Graph` base and its directed, undirected, edge-list, adjacency-list, adjacency-matrix and weighted variants (`src/graph/*.cpp`). Each container is a Dafny class whose fields are the C++ members. Its methods change those fields and state the whole new state. Invariants such as "no duplicate vertex" and "the set mirrors the vector" are preserved and proved.
- **Flow network and max-flow solvers.** `FlowNetwork` is modelled as an edge arena. Edge `2k` is the forward edge of the k-th `addEdge`, edge `2k + 1` is its reverse, and each vertex keeps the list of indices of its own edges. Ford-Fulkerson, Edmonds-Karp and Dinic are classes over that network. For each solver it is proved that every push keeps `0 <= flow <= capacity` and `e.flow == -e.reverse.flow`, and that nothing else changes. A run that ends returns the capacity of a minimum cut of the base graph.
- **Traversal and shortest paths.** BFS with its distance vector and visitor events, the low-link search for bridges and articulation points, Bellman-Ford with negative-cycle detection, lazy-deletion Dijkstra, and Floyd-Warshall over a 2-D array. Each is an imperative method proved against a specification function. The facts the library promises are then lemmas about that function: shortest distances, the event order, the low-link characterisation of bridges and cut vertices, and detection of negative cycles.

Module layout:
- `types.dfy`, `graph_base.dfy` … `weighted_graph.dfy`: the containers.
- `flow_network.dfy`, `flow_theory.dfy`: the arena and the max-flow/min-cut argument.
- `augmenting_path.dfy`, `ford_fulkerson.dfy`, `edmonds_karp.dfy`, `dinic*.dfy`, `flow_samples.dfy`: the solvers and the networks from the max-flow tests.
- `bfs.dfy`, `walks.dfy`, `bridges*.dfy`, `bellman_ford*.dfy`, `dijkstra*.dfy`, `floyd_warshall*.dfy`: the algorithms.
- Files named `*_as_written.dfy` model code that misbehaves exactly as written; see "Findings".

Conventions:
- A vertex is its id, so two vertices are equal exactly when their ids are, as `operator==` says in include/graph/Graph.h.
- The INF sentinel `numeric_limits<int>::max()` is the value `Inf` of `datatype Dist = Inf | Fin(int)`. Because of that, the sentinel can never be confused with a real distance.
- Exceptions (`runtime_error`, `out_of_range`) become the `Err` case of a `Result`.

In three places the code misbehaves. There the main members model the evidently intended behaviour, and a module named `*AsWritten` models the code exactly as written and exhibits the misbehaviour (see "Findings"):
- FordFulkerson's augmentation may push onto an edge other than the one the search used.
- `removeVertex` of the adjacency-list and adjacency-matrix containers does not remove what its comments say it removes.
- The articulation-point search can report a root that has only one child.

Everywhere else the model follows the code, also where the code departs from what its documentation suggests. For example, Bellman-Ford runs `size() - 1` rounds computed in `size_t`, so an empty vertex list wraps around to the largest `size_t`.

Two of the commented-out max-flow tests expect values that are not the maximum flow:
- the diamond network expects 11, but its minimum cut is 9;
- the seven-vertex network expects 6, but its minimum cut is 5.

The model proves the true values (`FlowSamples.DiamondNotEleven`, `FlowSamples.MultipleNotSix`).

## Model

| member | source | states |
|---|---|---|
| `GraphTypes.NewEdge` | include/graph/Graph.h:60-61 | a new edge has the given endpoints and capacity, flow 0, so its residual equals the capacity |
| `GraphTypes.NewPlainEdge` | include/graph/Graph.h:60-61 | the two-argument edge constructor defaults the capacity to 0: capacity, flow and residual are all 0 |
| `GraphTypes.NewWeightedEdge` | include/graph/Graph.h:117-119 | a weighted edge carries the given weight and capacity 0 and flow 0 |
| `GraphTypes.EdgeEqualityIgnoresCapacity` | include/graph/Graph.h:97-99 | edge equality compares endpoints only: edges differing in capacity are equal, and reversing a non-loop edge makes it unequal |
| `GraphBase.FilterMembers` | src/graph/Graph.cpp:20-23 | the erase/remove_if idiom keeps an element exactly when it was present and passes the test |
| `GraphBase.FilterAt` | src/graph/Graph.cpp:20-23 | every kept element passes the test and comes from a position no earlier in the original |
| `GraphBase.FilterOrder` | src/graph/Graph.cpp:20-23 | erase/remove_if is stable: kept elements keep their relative order |
| `GraphBase.FilterHas` | src/graph/Graph.cpp:28-30 | after filtering an edge vector, (a, b) is an edge exactly when some kept edge ran from a to b |
| `GraphBase.FilterDistinct` | src/graph/Graph.cpp:20-23 | filtering a duplicate-free vertex vector leaves it duplicate-free |
| `GraphBase.FilterDistinctEdges` | src/graph/Graph.cpp:45-47 | filtering a duplicate-free edge vector leaves it duplicate-free |
| `GraphBase.FilterListed` | src/graph/Graph.cpp:28-30 | filtering edges keeps every endpoint among the listed vertices |
| `GraphBase.TargetsMembers` | src/graph/Graph.cpp:62-76 | w is in the neighbour list of v exactly when some edge runs from v to w |
| `GraphBase.FilteredTargetsFilter` | src/graph/Graph.cpp:78-93 | the filtered neighbour list is the neighbour list with the filter applied, in edge order |
| `GraphBase.AddedEdgeHas` | src/graph/Graph.cpp:33-40 | after addEdge(s, t), (a, b) is an edge exactly when it was one or it is (s, t) with both endpoints present |
| `GraphBase.AddedEdgeIdempotent` | src/graph/Graph.cpp:36 | adding the same edge twice leaves the same edge vector as adding it once |
| `GraphBase.WithoutEdgeHas` | src/graph/Graph.cpp:42-48 | after removeEdge(s, t), exactly the pair (s, t) stops being an edge |
| `GraphBase.RemoveUndoesAdd` | src/graph/Graph.cpp:33-48 | removing an absent edge just added restores the edge vector |
| `GraphBase.RemoveUndoesAddVertex` | src/graph/Graph.cpp:6-31 | removing an absent vertex just added restores the vertex vector |
| `GraphBase.AddVertexKeeps` | src/graph/Graph.cpp:6-13 | addVertex keeps ids unique and edges between listed vertices; afterwards the vertices are the old ones plus v |
| `GraphBase.AddEdgeKeeps` | src/graph/Graph.cpp:33-40 | addEdge keeps the vertices duplicate-free, the edges duplicate-free and between listed vertices |
| `GraphBase.RemoveEdgeKeeps` | src/graph/Graph.cpp:42-48 | removeEdge keeps the container invariant |
| `GraphBase.RemoveVertexKeeps` | src/graph/Graph.cpp:15-31 | removeVertex keeps the invariant; the vertices become the old ones without v and the edges exactly those not touching v |
| `GraphBase.Graph.constructor` | include/graph/Graph.h:145 | a new graph is empty and satisfies the invariant |
| `GraphBase.Graph.AddVertex` | src/graph/Graph.cpp:6-13 | the vertex is appended exactly when its id is absent, and the invariant holds |
| `GraphBase.Graph.RemoveVertex` | src/graph/Graph.cpp:15-31 | absent vertex: nothing changes; present: the vertex and every incident edge are removed, other edges kept in order |
| `GraphBase.Graph.AddEdge` | src/graph/Graph.cpp:33-40 | the edge is appended exactly when both endpoints are present and it is absent |
| `GraphBase.Graph.RemoveEdge` | src/graph/Graph.cpp:42-48 | every (source, target) edge is deleted and nothing else |
| `GraphBase.Graph.GetNeighbors` | src/graph/Graph.cpp:62-76 | the loop collects the targets of edges leaving v in order; w is among them exactly when hasEdge(v, w) |
| `GraphBase.Graph.GetFilteredNeighbors` | src/graph/Graph.cpp:78-93 | the loop collects the neighbours passing the filter, which is the neighbour list filtered |
| `DirectedGraphs.DirectedGraph.constructor` | include/graph/DirectedGraph.h:11 | a new directed graph holds an empty base container |
| `DirectedGraphs.DirectedGraph.GetNeighbors` | src/graph/DirectedGraph.cpp:31-44 | empty for an absent vertex; otherwise the targets of the edges leaving v in edge order, so w is listed exactly when v is present and v -> w is an edge |
| `DirectedGraphs.DirectedGraph.GetFilteredNeighbors` | src/graph/DirectedGraph.cpp:46-60 | empty for an absent vertex; otherwise the neighbour list with the filter applied |
| `DirectedGraphs.DirectionalAdd` | src/graph/DirectedGraph.cpp:5-29 | adding a -> b to a graph without edges makes a -> b an edge and not b -> a |
| `DirectedGraphs.RemoveKeepsOpposite` | src/graph/DirectedGraph.cpp:13-21 | removeEdge(s, t) removes s -> t and leaves t -> s exactly as it was |
| `UndirectedGraphs.SymmetricHas` | src/graph/UndirectedGraph.cpp:5-13 | in a container built by the symmetric addEdge, (a, b) is stored exactly when (b, a) is |
| `UndirectedGraphs.SymmetricByPairs` | src/graph/UndirectedGraph.cpp:5-13 | a list in which every stored pair has its opposite stored satisfies the symmetry invariant |
| `UndirectedGraphs.AddedBothHas` | src/graph/UndirectedGraph.cpp:5-13 | after addEdge(s, t), (a, b) is stored exactly when it was or it is s-t in either direction with both vertices present |
| `UndirectedGraphs.WithoutBothHas` | src/graph/UndirectedGraph.cpp:15-25 | after removeEdge(s, t), neither direction of s-t is stored and every other pair is as before |
| `UndirectedGraphs.AddBothKeeps` | src/graph/UndirectedGraph.cpp:5-13 | addEdge keeps unique vertices, listed endpoints and symmetry |
| `UndirectedGraphs.RemoveBothKeeps` | src/graph/UndirectedGraph.cpp:15-25 | removeEdge keeps the undirected invariant |
| `UndirectedGraphs.RemoveVertexKeepsSymmetric` | src/graph/Graph.cpp:15-31 | the inherited removeVertex keeps the undirected invariant |
| `UndirectedGraphs.RemoveUndoesAddBoth` | src/graph/UndirectedGraph.cpp:5-25 | removing an edge just added in neither direction before restores the edge vector |
| `UndirectedGraphs.ReAddIsNoOp` | src/graph/UndirectedGraph.cpp:7-8 | re-adding an edge in either orientation changes nothing |
| `UndirectedGraphs.SelfLoopStoredTwice` | src/graph/UndirectedGraph.cpp:10-11 | addEdge(v, v) stores (v, v) twice, so v is listed twice among its own neighbours |
| `UndirectedGraphs.UndirectedGraph.constructor` | include/graph/UndirectedGraph.h:19 | a new undirected graph is empty and satisfies the invariant |
| `UndirectedGraphs.UndirectedGraph.AddVertex` | src/graph/Graph.cpp:6-13 | the inherited addVertex appends an absent id and keeps the invariant |
| `UndirectedGraphs.UndirectedGraph.RemoveVertex` | src/graph/Graph.cpp:15-31 | the inherited removeVertex: no-op when absent, otherwise the vertex and every incident edge go |
| `UndirectedGraphs.UndirectedGraph.AddEdge` | src/graph/UndirectedGraph.cpp:5-13 | both directions are appended only between present vertices when neither exists; afterwards hasEdge(s, t) holds exactly when both are present |
| `UndirectedGraphs.UndirectedGraph.RemoveEdge` | src/graph/UndirectedGraph.cpp:15-25 | both directions disappear and the invariant holds |
| `UndirectedGraphs.UndirectedGraph.GetNeighbors` | src/graph/UndirectedGraph.cpp:37-50 | empty for an absent vertex; otherwise the targets of edges leaving v, which are exactly the vertices joined to v |
| `UndirectedGraphs.UndirectedGraph.GetFilteredNeighbors` | src/graph/UndirectedGraph.cpp:52-66 | empty for an absent vertex; otherwise the neighbours passing the filter in edge order |
| `EdgeListGraphs.EdgeListGraph.constructor` | include/graph/EdgeListGraph.h:26 | a new container has an empty vector, an empty set and no edges, and they agree |
| `EdgeListGraphs.EdgeListGraph.AddVertex` | src/graph/EdgeListGraph.cpp:5-11 | the id is appended to the vector only when absent, the set gains it, the two keep the same ids with no duplicates, and hasVertex(v) holds |
| `EdgeListGraphs.EdgeListGraph.RemoveVertex` | src/graph/EdgeListGraph.cpp:13-32 | absent: nothing changes; present: the id leaves the vector and the set and every incident edge goes; afterwards hasVertex(v) is false |
| `EdgeListGraphs.EdgeListGraph.AddEdge` | src/graph/EdgeListGraph.cpp:34-39 | the edge is appended only between present vertices and when absent |
| `EdgeListGraphs.EdgeListGraph.RemoveEdge` | src/graph/EdgeListGraph.cpp:41-49 | every (source, target) edge is deleted and nothing else |
| `EdgeListGraphs.EdgeListGraph.GetNeighbors` | src/graph/EdgeListGraph.cpp:51-64 | empty for an absent vertex; otherwise the targets of the edges leaving v, which are exactly the w with hasEdge(v, w) |
| `EdgeListGraphs.EdgeListGraph.GetFilteredNeighbors` | src/graph/EdgeListGraph.cpp:66-80 | empty for an absent vertex; otherwise the neighbours passing the filter |
| `WeightedGraphs.FindEdge` | src/graph/WeightedGraph.cpp:17-20 | find_if gives the first position holding an (s, t) edge, and none exactly when no (s, t) edge exists |
| `WeightedGraphs.EdgeWeight` | src/graph/WeightedGraph.cpp:14-26 | getEdgeWeight throws exactly when there is no (s, t) edge and otherwise returns the weight of the first one |
| `WeightedGraphs.PlainFilter` | src/graph/Graph.cpp:42-48 | filtering weighted edges by an endpoint test filters their unweighted view the same way |
| `WeightedGraphs.PlainWithWeight` | src/graph/WeightedGraph.cpp:28-41 | setEdgeWeight changes no endpoint: the unweighted view is the same |
| `WeightedGraphs.SetThenGet` | src/graph/WeightedGraph.cpp:14-41 | after setEdgeWeight(s, t, w) on an existing edge, getEdgeWeight(s, t) returns w and every other pair reads as before |
| `WeightedGraphs.FindSame` | src/graph/WeightedGraph.cpp:17-20 | the search depends on endpoints only: vectors with the same endpoints find the same position |
| `WeightedGraphs.AddThenGet` | src/graph/WeightedGraph.cpp:5-26 | a newly added edge reads back its weight; re-adding an existing pair keeps the original weight |
| `WeightedGraphs.AddedCapacityZero` | src/graph/WeightedGraph.cpp:10 | every edge the weighted container creates has capacity 0 and flow 0 |
| `WeightedGraphs.WeightedGraph.constructor` | include/graph/WeightedGraph.h:19 | a new weighted graph is empty and satisfies the invariant |
| `WeightedGraphs.WeightedGraph.GetEdgeWeight` | src/graph/WeightedGraph.cpp:14-26 | the lookup throws exactly when hasEdge(source, target) is false |
| `WeightedGraphs.WeightedGraph.AddVertex` | src/graph/Graph.cpp:6-13 | the base addVertex (the weighted override has no body): appends an absent id |
| `WeightedGraphs.WeightedGraph.RemoveVertex` | src/graph/Graph.cpp:15-31 | the base removeVertex (the weighted override has no body): absent is a no-op; present removes the vertex and exactly the incident edges, the others keeping their order and weights |
| `WeightedGraphs.WeightedGraph.AddEdge` | src/graph/WeightedGraph.cpp:5-12 | (s, t, weight) is appended only between present vertices when no (s, t) edge exists |
| `WeightedGraphs.WeightedGraph.RemoveEdge` | src/graph/Graph.cpp:42-48 | the base removeEdge (the weighted declaration has no body): deletes every (source, target) edge, the others keeping their order and weights |
| `WeightedGraphs.WeightedGraph.SetEdgeWeight` | src/graph/WeightedGraph.cpp:28-41 | throws exactly when there is no (s, t) edge; otherwise only the weight of the first one changes |
| `WeightedGraphs.WeightedGraph.GetNeighbors` | src/graph/WeightedGraph.cpp:43-53 | the targets of the edges leaving v in edge order, with no presence check |
| `WeightedGraphs.WeightedGraph.GetFilteredNeighbors` | src/graph/WeightedGraph.cpp:55-66 | the neighbours passing the filter, with no presence check |
| `AdjacencyListGraphs.RemoveMembers` | src/graph/AdjacencyListGraph.cpp:60-61 | erase/remove of a value from a list keeps exactly the other elements |
| `AdjacencyListGraphs.RemoveAbsent` | src/graph/AdjacencyListGraph.cpp:60-61 | erase/remove of a value the list does not hold changes nothing |
| `AdjacencyListGraphs.AddVertexKeepsLists` | src/graph/AdjacencyListGraph.cpp:9-17 | addVertex keeps the map, vector and edges consistent, gives v a list, and adds no adjacency pair |
| `AdjacencyListGraphs.TouchKeepsLists` | src/graph/AdjacencyListGraph.cpp:59 | reading an unknown vertex through operator[] inserts an empty list, keeps the invariant and adds no pair |
| `AdjacencyListGraphs.AddEdgeKeepsLists` | src/graph/AdjacencyListGraph.cpp:36-46 | addEdge keeps the invariant and lists (s, t) exactly when both have lists and t was not listed, or it was listed |
| `AdjacencyListGraphs.RemoveEdgeKeepsLists` | src/graph/AdjacencyListGraph.cpp:48-62 | removeEdge keeps the invariant, removes the pair (s, t) and no other, and leaves s with a list |
| `AdjacencyListGraphs.RemoveVertexKeepsLists` | src/graph/AdjacencyListGraph.cpp:19-34 | the corrected removeVertex keeps the invariant; v loses its list and every pair touching v goes, every other key and pair stays |
| `AdjacencyListGraphs.RemoveVertexIncident` | src/graph/Graph.cpp:28-30 | dropping the edges touching v removes exactly the pairs touching v |
| `AdjacencyListGraphs.RemoveUndoesAddListed` | src/graph/AdjacencyListGraph.cpp:36-62 | removeEdge undoes an addEdge that added something, on the map and on the edge vector |
| `AdjacencyListGraphs.AddEdgeIdempotentListed` | src/graph/AdjacencyListGraph.cpp:40-41 | a second addEdge(s, t) changes neither the map nor the edge vector |
| `AdjacencyListGraphs.ListIsTargets` | src/graph/AdjacencyListGraph.cpp:43-44 | while the lists and the edge vector agree, v's list holds exactly the targets of edges leaving v |
| `AdjacencyListGraphs.AdjacencyListGraph.constructor` | include/graph/AdjacencyListGraph.h:17 | a new container has no vertices, no lists and no edges |
| `AdjacencyListGraphs.AdjacencyListGraph.AddVertex` | src/graph/AdjacencyListGraph.cpp:9-17 | if v has no list it is appended and given an empty list; afterwards hasVertex(v) |
| `AdjacencyListGraphs.AdjacencyListGraph.AddEdge` | src/graph/AdjacencyListGraph.cpp:36-46 | when both ends have lists and target is not listed, the edge is appended and target pushed onto source's list; otherwise nothing changes |
| `AdjacencyListGraphs.AdjacencyListGraph.RemoveEdge` | src/graph/AdjacencyListGraph.cpp:48-62 | matching edges are deleted and target is stripped from source's list; operator[] makes hasVertex(source) true and hasEdge(source, target) is false |
| `AdjacencyListGraphs.AdjacencyListGraph.RemoveVertex` | src/graph/AdjacencyListGraph.cpp:19-34 | the intended removeVertex: v leaves the vector, loses its list and disappears from every other list, and its incident edges go |
| `AdjacencyListGraphs.AdjacencyListGraph.GetAdjacencyVertices` | src/graph/AdjacencyListGraph.cpp:104-109 | returns the list of v (empty if unknown) and operator[] inserts that empty list; w is returned exactly when v -> w is an edge |
| `AdjacencyListGraphs.AdjacencyListGraph.GetNeighbors` | src/graph/AdjacencyListGraph.cpp:64-69 | the list of v read through operator[], whose members are the targets of edges leaving v |
| `AdjacencyListGraphs.AdjacencyListGraph.GetFilteredNeighbors` | src/graph/AdjacencyListGraph.cpp:71-82 | the members of v's list that pass the filter, in list order; operator[] inserts a list for an unknown v |
| `AdjacencyListAsWritten.StripOwn` | src/graph/AdjacencyListGraph.cpp:30-33 | the loop with the shadowing binding keeps every key of the map |
| `AdjacencyListAsWritten.RemoveVertexAsWritten` | src/graph/AdjacencyListGraph.cpp:19-34 | removeVertex as written: v has no list afterwards and the edge vector is untouched |
| `AdjacencyListAsWritten.SampleIsBuilt` | tests/test_adjacency_list_graph.cpp:20-25 | addVertex(1), addVertex(2), addEdge(1, 2) build the sample container |
| `AdjacencyListAsWritten.TwoEmptyLists` | src/graph/AdjacencyListGraph.cpp:14-15 | addVertex(1) then addVertex(2) give both vertices an empty list |
| `AdjacencyListAsWritten.SampleListsBuilt` | src/graph/AdjacencyListGraph.cpp:43-44 | addEdge(1, 2) on the two empty lists lists 2 under 1 |
| `AdjacencyListAsWritten.SampleEdgesBuilt` | src/graph/AdjacencyListGraph.cpp:42 | addEdge(1, 2) appends the single edge 1 -> 2 with capacity 0 |
| `AdjacencyListAsWritten.SampleVerticesBuilt` | src/graph/AdjacencyListGraph.cpp:13 | the two addVertex calls append 1 then 2 |
| `AdjacencyListAsWritten.SampleHas` | src/graph/Graph.cpp:104-111 | the sample's edge vector holds exactly the pair (1, 2) |
| `AdjacencyListAsWritten.SampleListed` | src/graph/AdjacencyListGraph.cpp:96-103 | the sample's lists hold exactly the pair (1, 2) |
| `AdjacencyListAsWritten.SampleIsConsistent` | src/graph/AdjacencyListGraph.cpp:9-46 | the sample satisfies the container invariant and lists 1 -> 2 |
| `AdjacencyListAsWritten.AsWrittenKeepsDanglingEdge` | src/graph/AdjacencyListGraph.cpp:28-33 | as written, removing 2 leaves 2 listed under 1 while 2 has no list, so the lists are not closed and the edge vector still holds 1 -> 2 |
| `AdjacencyListAsWritten.SampleStripped` | src/graph/AdjacencyListGraph.cpp:28-33 | as written, removing 2 from the sample leaves exactly the list 1 -> [2] |
| `AdjacencyListAsWritten.AsWrittenDropsSelfLoops` | src/graph/AdjacencyListGraph.cpp:30-33 | as written, every remaining vertex loses its own id from its list, so no self-loop survives in the lists |
| `AdjacencyListAsWritten.IntendedRemovesEdge` | src/graph/AdjacencyListGraph.cpp:19-34 | the corrected removal on the same sample leaves no pair touching 2 and keeps the invariant |
| `AdjacencyMatrixGraphs.EraseAt` | src/graph/AdjacencyMatrixGraph.cpp:48-51 | vector erase at position k shortens by one and shifts every later element down one place |
| `AdjacencyMatrixGraphs.GrownEntries` | src/graph/AdjacencyMatrixGraph.cpp:27-31 | growing the matrix gives an (n+1)-square matrix with the same set entries and an all-false new row and column |
| `AdjacencyMatrixGraphs.ShrunkEntries` | src/graph/AdjacencyMatrixGraph.cpp:48-51 | erasing row and column k leaves an (n-1)-square matrix whose entries are the old ones outside row and column k, renumbered |
| `AdjacencyMatrixGraphs.SetEntryEntries` | src/graph/AdjacencyMatrixGraph.cpp:70 | writing one cell changes that cell and no other and keeps the shape |
| `AdjacencyMatrixGraphs.IndexOf` | src/graph/AdjacencyMatrixGraph.cpp:5-13 | under the invariant a present vertex has an index below n, sits at that position of the vector, and indexToVertex names it back |
| `AdjacencyMatrixGraphs.MatrixHasEdge` | src/graph/AdjacencyMatrixGraph.cpp:131-138 | under the invariant hasEdge (false for an absent endpoint, else the cell) answers exactly whether the edge vector holds s -> t |
| `AdjacencyMatrixGraphs.NamedMembers` | src/graph/AdjacencyMatrixGraph.cpp:99-103 | the neighbour loop reports w exactly when some set cell of the row is named w |
| `AdjacencyMatrixGraphs.NamedByPosition` | src/graph/AdjacencyMatrixGraph.cpp:144-148 | when index i names vertex i + 1, reading a row by name equals reading it by position |
| `AdjacencyMatrixGraphs.NamedRowIsTargets` | src/graph/AdjacencyMatrixGraph.cpp:91-106 | under the invariant the neighbours read off v's row are exactly the targets of edges leaving v |
| `AdjacencyMatrixGraphs.WithoutVertexAt` | src/graph/AdjacencyMatrixGraph.cpp:42-45 | with unique ids, remove_if of the vertex erases exactly its index |
| `AdjacencyMatrixGraphs.FilterDropsOne` | src/graph/AdjacencyMatrixGraph.cpp:42-45 | a filter that rejects exactly position k erases position k |
| `AdjacencyMatrixGraphs.FilterConcat` | src/graph/Graph.cpp:20-23 | erase/remove_if distributes over concatenation |
| `AdjacencyMatrixGraphs.RenumberedIndexed` | src/graph/AdjacencyMatrixGraph.cpp:54-59 | erasing id then decrementing every index above k keeps vertexToIndex in step with the shrunk vector |
| `AdjacencyMatrixGraphs.EraseDistinct` | src/graph/AdjacencyMatrixGraph.cpp:42-45 | erasing one entry of a duplicate-free vector leaves it duplicate-free |
| `AdjacencyMatrixGraphs.RenumberedKeys` | src/graph/AdjacencyMatrixGraph.cpp:54-59 | after the erase the renumbered map has exactly the remaining vertices as keys |
| `AdjacencyMatrixGraphs.KeptIsKey` | src/graph/AdjacencyMatrixGraph.cpp:54 | every remaining vertex is still a key after the erase |
| `AdjacencyMatrixGraphs.KeyIsKept` | src/graph/AdjacencyMatrixGraph.cpp:54 | every key after the erase is a remaining vertex |
| `AdjacencyMatrixGraphs.RenumberedAt` | src/graph/AdjacencyMatrixGraph.cpp:55-59 | after renumbering each remaining vertex maps to its new position in the vector |
| `AdjacencyMatrixGraphs.AddVertexKeepsMatrix` | src/graph/AdjacencyMatrixGraph.cpp:15-33 | adding a new vertex at index n with a grown matrix keeps the invariant and changes no hasEdge answer |
| `AdjacencyMatrixGraphs.AddVertexIndexed` | src/graph/AdjacencyMatrixGraph.cpp:19-24 | appending v with vertexToIndex[v] = n and indexToVertex[n] = v keeps both maps in step with the vector |
| `AdjacencyMatrixGraphs.AddVertexAgrees` | src/graph/AdjacencyMatrixGraph.cpp:27-31 | the grown matrix agrees with the unchanged edges once the new vertex is listed |
| `AdjacencyMatrixGraphs.FilterListedGrow` | src/graph/AdjacencyMatrixGraph.cpp:19 | listing one more vertex keeps every edge's endpoints listed |
| `AdjacencyMatrixGraphs.AddEdgeKeepsMatrix` | src/graph/AdjacencyMatrixGraph.cpp:63-72 | adding an edge between present vertices whose cell is clear keeps the invariant, and hasEdge gains exactly (s, t) |
| `AdjacencyMatrixGraphs.RemoveEdgeAgrees` | src/graph/AdjacencyMatrixGraph.cpp:78-87 | clearing cell (si, ti) matches deleting the edges from vs[si] to vs[ti] |
| `AdjacencyMatrixGraphs.RemoveEdgeKeepsMatrix` | src/graph/AdjacencyMatrixGraph.cpp:74-89 | removing a present edge keeps the invariant, and hasEdge loses exactly (s, t) |
| `AdjacencyMatrixGraphs.RemoveVertexAgrees` | src/graph/AdjacencyMatrixGraph.cpp:42-51 | erasing row and column k matches erasing vs[k] and every edge touching it |
| `AdjacencyMatrixGraphs.RemoveVertexKeepsMatrix` | src/graph/AdjacencyMatrixGraph.cpp:35-61 | the corrected removeVertex keeps the invariant and hasEdge loses exactly the pairs touching v |
| `AdjacencyMatrixGraphs.EraseRowAndColumn` | src/graph/AdjacencyMatrixGraph.cpp:48-51 | erasing row k and then column k from every row gives the shrunk matrix |
| `AdjacencyMatrixGraphs.CloseUp` | src/graph/AdjacencyMatrixGraph.cpp:55-59 | the loop decrements every index above k and leaves the others |
| `AdjacencyMatrixGraphs.WidenRows` | src/graph/AdjacencyMatrixGraph.cpp:27-31 | the loop appends false to every row, and with the new all-false row gives the grown matrix |
| `AdjacencyMatrixGraphs.AdjacencyMatrixGraph.constructor` | include/graph/AdjacencyMatrixGraph.h:20 | a new container has no vertices, edges, matrix rows or index entries |
| `AdjacencyMatrixGraphs.AdjacencyMatrixGraph.GetVertexIndex` | src/graph/AdjacencyMatrixGraph.cpp:5-13 | returns the index of a present vertex and throws out_of_range exactly for an unknown one |
| `AdjacencyMatrixGraphs.AdjacencyMatrixGraph.AddVertex` | src/graph/AdjacencyMatrixGraph.cpp:15-33 | an existing id changes nothing; a new one goes to index n with a false column on every row and an all-false row; edges and hasEdge answers are unchanged |
| `AdjacencyMatrixGraphs.AdjacencyMatrixGraph.RemoveVertex` | src/graph/AdjacencyMatrixGraph.cpp:35-61 | the intended removeVertex: v leaves the vector, its row and column go, indices above it close up, its edges go, and hasEdge loses exactly the pairs touching v |
| `AdjacencyMatrixGraphs.AdjacencyMatrixGraph.AddEdge` | src/graph/AdjacencyMatrixGraph.cpp:63-72 | only between present vertices with a clear cell: append the edge and set the cell; hasEdge gains exactly (s, t) when both are present |
| `AdjacencyMatrixGraphs.AdjacencyMatrixGraph.RemoveEdge` | src/graph/AdjacencyMatrixGraph.cpp:74-89 | when present: delete the matching edges and clear the cell; afterwards hasEdge(s, t) is false and nothing else changes |
| `AdjacencyMatrixGraphs.AdjacencyMatrixGraph.GetNeighbors` | src/graph/AdjacencyMatrixGraph.cpp:91-106 | empty for an absent v; otherwise the names of the set cells of v's row, which are exactly the w with hasEdge(v, w) |
| `AdjacencyMatrixGraphs.AdjacencyMatrixGraph.GetFilteredNeighbors` | src/graph/AdjacencyMatrixGraph.cpp:108-123 | empty for an absent v; otherwise the named set cells passing the filter, exactly the w with hasEdge(v, w) and filter(w) |
| `AdjacencyMatrixGraphs.AdjacencyMatrixGraph.GetAdjacencyVertices` | src/graph/AdjacencyMatrixGraph.cpp:139-150 | reads row id - 1 and reports each set cell i as vertex i + 1; callers must pass an id in 1..n |
| `AdjacencyMatrixGraphs.ByPositionIsNamed` | src/graph/AdjacencyMatrixGraph.cpp:139-150 | when the vertices are 1..n in insertion order, getAdjacencyVertices agrees with the neighbour loop |
| `AdjacencyMatrixAsWritten.RemoveVertexAsWritten` | src/graph/AdjacencyMatrixGraph.cpp:35-61 | removeVertex as written drops v from vertexToIndex but leaves indexToVertex and the edge vector as they were |
| `AdjacencyMatrixAsWritten.SampleMatrixIsBuilt` | src/graph/AdjacencyMatrixGraph.cpp:15-72 | three addVertex calls and addEdge(1, 3) build the sample matrix |
| `AdjacencyMatrixAsWritten.SampleHas` | src/graph/Graph.cpp:104-111 | the sample's edge vector holds exactly the pair (1, 3) |
| `AdjacencyMatrixAsWritten.SampleIsConsistent` | src/graph/AdjacencyMatrixGraph.cpp:15-72 | the sample satisfies the container invariant |
| `AdjacencyMatrixAsWritten.SampleIndexed` | src/graph/AdjacencyMatrixGraph.cpp:19-24 | the sample's two index maps are in step with its vertex vector |
| `AdjacencyMatrixAsWritten.SampleAgrees` | src/graph/AdjacencyMatrixGraph.cpp:70 | the sample matrix is 3 by 3 and sets exactly the cell of the edge 1 -> 3 |
| `AdjacencyMatrixAsWritten.SampleWellFormed` | src/graph/AdjacencyMatrixGraph.cpp:66-67 | the sample's single edge runs between listed vertices |
| `AdjacencyMatrixAsWritten.AsWrittenReportsRemovedVertex` | src/graph/AdjacencyMatrixGraph.cpp:35-61 | as written, after removing 2 the matrix still has 1 -> 3, but the neighbour loop names row 1's only set cell by the stale indexToVertex and reports [2] |
| `AdjacencyMatrixAsWritten.SampleRemoved` | src/graph/AdjacencyMatrixGraph.cpp:48-59 | the as-written removal of 2 leaves vertexToIndex {1: 0, 3: 1}, the matrix [[false, true], [false, false]] and the old indexToVertex |
| `AdjacencyMatrixAsWritten.SampleRenumbered` | src/graph/AdjacencyMatrixGraph.cpp:54-59 | erasing 2 and closing up the indices above 1 gives {1: 0, 3: 1} |
| `AdjacencyMatrixAsWritten.SampleShrunk` | src/graph/AdjacencyMatrixGraph.cpp:48-51 | erasing row and column 1 of the sample matrix gives [[false, true], [false, false]] |
| `AdjacencyMatrixAsWritten.IntendedReportsTarget` | src/graph/AdjacencyMatrixGraph.cpp:91-106 | with indexToVertex rebuilt, the same removal reports 3 as the neighbour of 1, and not 2 |
| `FlowNetworks.EdgePair` | include/algorithms/flowNetwork/FlowNetwork.h:66-75 | addEdge appends a forward edge (to, capacity, flow 0) and a reverse edge (from, 0, flow 0) |
| `FlowNetworks.PushAt` | include/algorithms/flowNetwork/FordFulkerson.h:98-99 | pushing f on edge i adds f to its flow, subtracts f from its partner's flow, and changes no other edge and no target, capacity or link |
| `FlowNetworks.Arena` | include/algorithms/flowNetwork/FlowNetwork.h:52-54 | the constructor creates two edges per base edge |
| `FlowNetworks.FirstResidual` | include/algorithms/flowNetwork/EdmondsKarp.h:99-107 | the first listed edge into v with flow < capacity, and none exactly when no listed edge into v has residual capacity |
| `FlowNetworks.HopOf` | include/algorithms/flowNetwork/EdmondsKarp.h:99-107 | the first edge u -> v in u's list with flow < capacity, which lives in u's list, runs to v and has residual capacity |
| `FlowNetworks.HopOfNone` | include/algorithms/flowNetwork/EdmondsKarp.h:99 | there is no such edge exactly when every edge u -> v is saturated |
| `FlowNetworks.NoHop` | include/algorithms/flowNetwork/EdmondsKarp.h:99 | if u's list holds no residual edge into v, every edge u -> v in the arena is saturated |
| `FlowNetworks.PartnerFacts` | include/algorithms/flowNetwork/FlowNetwork.h:73-74 | the partner of an edge is a different edge of the same pair, and the partner of the partner is the edge itself |
| `FlowNetworks.LinkedPair` | include/algorithms/flowNetwork/FlowNetwork.h:73-74 | for from != to, each edge's reverse names its partner, which runs back from the target to the owner |
| `FlowNetworks.SecondHasNoCapacity` | include/algorithms/flowNetwork/FlowNetwork.h:71 | the second edge of every pair has capacity 0 |
| `FlowNetworks.OwnedExactly` | include/algorithms/flowNetwork/FlowNetwork.h:67-71 | the list of v holds exactly the edges appended to v, each once, in insertion order |
| `FlowNetworks.Gather` | include/algorithms/flowNetwork/FlowNetwork.h:82-86 | the edges at the listed indices, in list order |
| `FlowNetworks.AdjacentExactly` | include/algorithms/flowNetwork/FlowNetwork.h:82-86 | the edges listed for a known vertex are exactly the arena edges it owns |
| `FlowNetworks.AdjacentNone` | include/algorithms/flowNetwork/FlowNetwork.h:67-68 | a vertex without a list owns no edge, since addEdge creates the lists of both ends |
| `FlowNetworks.ShapeKeepsWf` | include/algorithms/flowNetwork/FordFulkerson.h:98-99 | changing only flows keeps the arena invariant |
| `FlowNetworks.WfFacts` | include/algorithms/flowNetwork/FlowNetwork.h:66-75 | every listed index points into the arena at an edge owned by that vertex, and every edge's target has a list |
| `FlowNetworks.InHomeList` | include/algorithms/flowNetwork/FlowNetwork.h:70-71 | every edge sits in the list of its owner |
| `FlowNetworks.ListsAfterAddSpec` | include/algorithms/flowNetwork/FlowNetwork.h:66-75 | addEdge creates missing lists for from and to, appends the forward index to from's list and the reverse index to to's, and leaves every other list alone |
| `FlowNetworks.OwnedAfterPair` | include/algorithms/flowNetwork/FlowNetwork.h:70-71 | after appending a pair, from owns one more edge (the forward one) and to one more (the reverse one) |
| `FlowNetworks.AddEdgeKeepsWf` | include/algorithms/flowNetwork/FlowNetwork.h:66-75 | addEdge keeps the arena invariant: pairs linked, lists exact and in order |
| `FlowNetworks.ArenaPaired` | include/algorithms/flowNetwork/FlowNetwork.h:48-55 | the constructor's arena consists of properly linked pairs |
| `FlowNetworks.AppendPairKeepsPaired` | include/algorithms/flowNetwork/FlowNetwork.h:66-75 | appending a pair keeps every pair linked, including the from == to case where the forward edge gets no reverse |
| `FlowNetworks.FlowNetwork.constructor` | include/algorithms/flowNetwork/FlowNetwork.h:48-55 | each base vertex gets a list, then each base edge in order adds a pair with its capacity; the invariant holds and every flow is 0 |
| `FlowNetworks.FlowNetwork.AddEdge` | include/algorithms/flowNetwork/FlowNetwork.h:66-75 | the arena gains exactly the pair, the lists gain exactly its two indices, the invariant holds |
| `FlowNetworks.FlowNetwork.GetAdjacent` | include/algorithms/flowNetwork/FlowNetwork.h:82-86 | an unknown vertex gets the empty list; a known one gets its edges in insertion order, exactly the edges it owns |
| `FlowNetworks.FlowNetwork.GetAdjacentMut` | include/algorithms/flowNetwork/FlowNetwork.h:93-95 | operator[] inserts an empty list for an unknown vertex and changes nothing else |
| `FlowNetworks.FlowNetwork.AddVertex` | include/algorithms/flowNetwork/FlowNetwork.h:104-106 | emplace inserts an empty list only for an unknown vertex and never replaces one |
| `FlowNetworks.FlowNetwork.Push` | include/algorithms/flowNetwork/FordFulkerson.h:98-99 | the edge gains f, its reverse loses f, nothing else changes, and the invariant holds |
| `FlowNetworks.FlowNetwork.HasResidualCapacity` | include/algorithms/flowNetwork/EdmondsKarp.h:99 | true exactly when some edge u -> v has flow < capacity |
| `FlowNetworks.FlowNetwork.GetResidualCapacity` | include/algorithms/flowNetwork/EdmondsKarp.h:100 | the residual of the first such edge, 0 when there is none; positive exactly when one exists |
| `FlowNetworks.FlowNetwork.AddFlow` | include/algorithms/flowNetwork/EdmondsKarp.h:107 | pushes f onto the first residual edge u -> v and its reverse, leaving the lists alone |
| `FlowTheory.FlowSumUpdate` | include/algorithms/flowNetwork/FordFulkerson.h:98-99 | changing one edge's flow by d changes a sum over a set of edges by d exactly when that edge is counted |
| `FlowTheory.PushNetOut` | include/algorithms/flowNetwork/FordFulkerson.h:98-99 | pushing f along an edge moves f units of net outflow from its owner to its target and changes no other vertex's net outflow |
| `FlowTheory.ShapeKeepsPaired` | include/algorithms/flowNetwork/FlowNetwork.h:73-74 | changing only flows keeps every pair linked |
| `FlowTheory.PushFeasible` | include/algorithms/flowNetwork/FlowNetwork.h:28 | a push of at most the edge's residual keeps the flow feasible: flow <= capacity on every edge and flows antisymmetric across each pair |
| `FlowTheory.SplitMember` | include/algorithms/flowNetwork/FlowNetwork.h:28 | the net outflow of a set is the net outflow of one member plus that of the rest |
| `FlowTheory.SetOutIsValue` | include/algorithms/flowNetwork/FordFulkerson.h:38-53 | under conservation, the net outflow of any set holding the source and not the sink equals the flow value |
| `FlowTheory.SplitParts` | include/algorithms/flowNetwork/FlowNetwork.h:28 | a set's net outflow splits into the flow on edges leaving it and on edges inside it |
| `FlowTheory.InsideCancels` | include/algorithms/flowNetwork/FlowNetwork.h:73-74 | flow on edges inside a set cancels pair by pair |
| `FlowTheory.LeavingAtMost` | include/algorithms/flowNetwork/FlowNetwork.h:28 | the flow leaving a set is at most the capacity leaving it |
| `FlowTheory.LeavingSaturated` | include/algorithms/flowNetwork/FlowNetwork.h:28 | when no residual edge leaves the set, the flow leaving it equals the capacity leaving it |
| `FlowTheory.OwnedAtMost` | include/algorithms/flowNetwork/FlowNetwork.h:28 | the flow on a set's edges is at most their capacity |
| `FlowTheory.ValueAtMostCut` | include/algorithms/flowNetwork/FordFulkerson.h:38-53 | the value of a feasible conserved flow is at most the capacity of every source/sink cut |
| `FlowTheory.ValueIsClosedCut` | include/algorithms/flowNetwork/FordFulkerson.h:41-47 | when the residual-reachable side excludes the sink, the value equals that side's cut capacity |
| `FlowTheory.ValueAtMostCapOut` | include/algorithms/flowNetwork/FordFulkerson.h:38-53 | the value never exceeds the total capacity leaving the source |
| `FlowTheory.ArenaCut` | include/algorithms/flowNetwork/FlowNetwork.h:52-54 | the network's cut capacities are the base graph's, because reverse edges have capacity 0 |
| `FlowTheory.ZeroFlowSum` | include/algorithms/flowNetwork/FlowNetwork.h:38 | with every flow 0 every flow sum is 0 |
| `FlowTheory.ArenaFlows` | include/algorithms/flowNetwork/FlowNetwork.h:38 | a built network has flow 0 everywhere, reverse capacities 0 and forward capacities those of the base edges |
| `FlowTheory.ArenaStartsFeasible` | include/algorithms/flowNetwork/FlowNetwork.h:38 | with non-negative capacities a built network's zero flow is feasible and conserved, and every net outflow is 0 |
| `FlowTheory.MinCutCapacityUnique` | include/algorithms/flowNetwork/FordFulkerson.h:38-53 | the minimum cut capacity is unique, so solvers that reach it agree |
| `FlowTheory.ClosedCutIsMinimum` | include/algorithms/flowNetwork/FordFulkerson.h:41-47 | a flow with a residual-closed source side without the sink has the minimum cut capacity as its value |
| `FlowTheory.CapSumShape` | include/algorithms/flowNetwork/FordFulkerson.h:98-99 | cut capacities depend only on targets, capacities and links, so changing flows leaves them alone |
| `FlowTheory.CapSumAppend` | include/algorithms/flowNetwork/FlowNetwork.h:70-71 | appending edge pairs leaves the capacity sums over the earlier edges unchanged |
| `AugmentingPaths.IndexIn` | include/algorithms/flowNetwork/FordFulkerson.h:77-81 | the position of a discovered vertex in the discovery order: within bounds, naming that vertex, and its first occurrence |
| `AugmentingPaths.IndexInPrefix` | include/algorithms/flowNetwork/FordFulkerson.h:77-81 | discovering more vertices does not move an earlier vertex's position |
| `AugmentingPaths.DistinctAppend` | include/algorithms/flowNetwork/FordFulkerson.h:77-81 | appending a vertex not yet discovered keeps the discovery order free of repeats |
| `AugmentingPaths.DistinctWithin` | include/algorithms/flowNetwork/FordFulkerson.h:43 | a repeat-free order drawn from a set is no longer than the set |
| `AugmentingPaths.PrefixMembers` | include/algorithms/flowNetwork/FordFulkerson.h:43 | a vertex visited earlier stays visited |
| `AugmentingPaths.ClosedGrows` | include/algorithms/flowNetwork/FordFulkerson.h:88 | a vertex whose residual edges all lead to visited vertices keeps that property as more are visited |
| `AugmentingPaths.ScannedGrows` | include/algorithms/flowNetwork/FordFulkerson.h:88 | the scanned part of a list stays scanned as more vertices are visited |
| `AugmentingPaths.ScannedStep` | include/algorithms/flowNetwork/FordFulkerson.h:88 | an edge that is saturated or leads to a visited vertex extends the scanned part by one |
| `AugmentingPaths.SetOfAppend` | include/algorithms/flowNetwork/FordFulkerson.h:43 | the visited set after discovering t is the old visited set plus t |
| `AugmentingPaths.ListTargets` | include/algorithms/flowNetwork/FlowNetwork.h:66-75 | every edge in a vertex's vector leads to a vertex that has a vector of its own |
| `AugmentingPaths.ListBounds` | include/algorithms/flowNetwork/FlowNetwork.h:82-86 | every entry of a vertex's vector names an existing edge |
| `AugmentingPaths.UnvisitedShrinks` | include/algorithms/flowNetwork/FordFulkerson.h:88 | discovering a vertex of the network leaves strictly fewer to discover, so the search ends |
| `AugmentingPaths.AllClosed` | include/algorithms/flowNetwork/FordFulkerson.h:88-91 | when every visited vertex is fully scanned, no residual edge leaves the visited set |
| `AugmentingPaths.SearchTreeExtend` | include/algorithms/flowNetwork/FordFulkerson.h:79 | `parent[e.target] = e.source` for a new target extends the search tree and places the target last |
| `AugmentingPaths.PathFrom` | include/algorithms/flowNetwork/FordFulkerson.h:94 | the walk v, parent[v], ... starts at v, ends at the source, follows parent links and stays among discovered vertices |
| `AugmentingPaths.PathPrepend` | include/algorithms/flowNetwork/FordFulkerson.h:94 | putting v in front of the tree path from parent[v] gives a walk that stays among discovered vertices, follows parent links and never goes past v in discovery order |
| `AugmentingPaths.DistinctPrepend` | include/algorithms/flowNetwork/FordFulkerson.h:94 | putting a new vertex in front of a repeat-free sequence keeps it repeat-free |
| `AugmentingPaths.PathDistinct` | include/algorithms/flowNetwork/FordFulkerson.h:94 | the tree path from the sink back to the source visits no vertex twice |
| `AugmentingPaths.FirstResidualSame` | include/algorithms/flowNetwork/FordFulkerson.h:96-97 | two edge vectors that agree on which entries qualify give the same first qualifying entry |
| `AugmentingPaths.PushElsewhere` | include/algorithms/flowNetwork/FordFulkerson.h:98-99 | a push on edge i leaves every other direction's edges toward b unchanged |
| `AugmentingPaths.HopAfterPush` | include/algorithms/flowNetwork/FordFulkerson.h:96-99 | a push on edge i leaves a hop a -> b, and its residual, alone unless a -> b is i's direction or its reverse |
| `AugmentingPaths.HopsAfterPush` | include/algorithms/flowNetwork/FordFulkerson.h:94-103 | pushing on one hop of a repeat-free path leaves the later hops' residuals at least f |
| `AugmentingPaths.PushStep` | include/algorithms/flowNetwork/FordFulkerson.h:95-101 | the hop parent[v] -> v still has an edge with room, and pushing f on it advances the augmentation loop by one hop |
| `AugmentingPaths.PushOnto` | include/algorithms/flowNetwork/FordFulkerson.h:98-99 | pushing f on an edge of the current hop with room for it advances the augmentation loop by one hop |
| `AugmentingPaths.HopHasRoom` | include/algorithms/flowNetwork/FordFulkerson.h:80 | the next hop to push has an edge with residual capacity at least f |
| `AugmentingPaths.PushMovesExcess` | include/algorithms/flowNetwork/FordFulkerson.h:98-99 | pushing on u -> v moves the f units of excess waiting at v back to u |
| `AugmentingPaths.PushAlong` | include/algorithms/flowNetwork/FordFulkerson.h:94-103 | the arena after pushing f at every hop parent[w] -> w from v back to the source, onto the hop's first edge with residual capacity and its reverse; it keeps the arena invariant and changes only flows |
| `AugmentingPaths.PushAlongStep` | include/algorithms/flowNetwork/FordFulkerson.h:94-103 | the push from v is the push on the hop parent[v] -> v followed by the push from parent[v] |
| `AugmentingPaths.PushAtElsewhere` | include/algorithms/flowNetwork/FordFulkerson.h:98-99 | a push on one edge leaves every edge that does not join the same two vertices unchanged |
| `AugmentingPaths.PushAlongElsewhere` | include/algorithms/flowNetwork/FordFulkerson.h:94-103 | the push along a tree path leaves every edge not joining two vertices of that path unchanged |
| `AugmentingPaths.WalkStep` | include/algorithms/flowNetwork/FordFulkerson.h:94-101 | at each hop of the loop the edge to push onto exists, and pushing onto it advances the loop toward the same final arena |
| `AugmentingPaths.WalkStart` | include/algorithms/flowNetwork/FordFulkerson.h:94 | the loop starts at the sink with the arena unchanged and every hop of the path holding room for f |
| `AugmentingPaths.WalkDone` | include/algorithms/flowNetwork/FordFulkerson.h:94-103 | once the loop reaches the source the arena is feasible, has the old shape, is `PushAlong` of the old arena, and f units of net outflow have moved from the sink to the source |
| `AugmentingPaths.Augment` | include/algorithms/flowNetwork/FordFulkerson.h:94-103 | the new arena is exactly `PushAlong` of the old one: each hop's first residual edge gains f, its reverse loses f, every other edge is unchanged; the flow stays feasible and f units of net flow move from the source to the sink |
| `FordFulkerson.HopIsFirst` | include/algorithms/flowNetwork/FordFulkerson.h:96-97 | the tree edge found by the search is the first residual edge for its hop, so the loop pushes onto it |
| `FordFulkerson.Discover` | include/algorithms/flowNetwork/FordFulkerson.h:77-81 | a tree edge to a new vertex keeps the tree invariant and leaves fewer vertices to discover |
| `FordFulkerson.Visit` | include/algorithms/flowNetwork/FordFulkerson.h:88 | visiting u extends the search state and closes u: every residual edge of u leads to a discovered vertex |
| `FordFulkerson.Scan` | include/algorithms/flowNetwork/FordFulkerson.h:88 | scanning the rest of u's edges extends the search state and closes u |
| `FordFulkerson.Descend` | include/algorithms/flowNetwork/FordFulkerson.h:77-81 | a residual edge to a new vertex records it as a tree edge, visits it, and still closes u |
| `FordFulkerson.Advance` | include/algorithms/flowNetwork/FordFulkerson.h:88 | after the recursive visit the list is scanned one edge further and fewer vertices are left |
| `FordFulkerson.NewlyClosed` | include/algorithms/flowNetwork/FordFulkerson.h:88 | growing the state twice in a row is one growth |
| `FordFulkerson.Dfs` | include/algorithms/flowNetwork/FordFulkerson.h:88 | the search from the source yields a search tree over residual edges whose vertex set no residual edge leaves |
| `FordFulkerson.OrderInLists` | include/algorithms/flowNetwork/FordFulkerson.h:88 | besides the root the search discovers only vertices of the network |
| `FordFulkerson.Bottleneck` | include/algorithms/flowNetwork/FordFulkerson.h:80-85 | `path_flow` is at most INT_MAX and at most every tree edge's residual, and equals INT_MAX or one of them |
| `FordFulkerson.TreeEdgesResidual` | include/algorithms/flowNetwork/FordFulkerson.h:77-81 | every tree edge has positive residual capacity |
| `FordFulkerson.TreeHop` | include/algorithms/flowNetwork/FordFulkerson.h:79-80 | every hop parent[w] -> w has residual capacity at least the bottleneck |
| `FordFulkerson.BottleneckPositive` | include/algorithms/flowNetwork/FordFulkerson.h:80-85 | over residual tree edges the bottleneck is positive |
| `FordFulkerson.PathHops` | include/algorithms/flowNetwork/FordFulkerson.h:91-103 | when the sink is reached the bottleneck is positive and fits every hop of the tree path |
| `FordFulkerson.FordFulkersonSolver.constructor` | include/algorithms/flowNetwork/FordFulkerson.h:29 | the solver holds the network it is given |
| `FordFulkerson.Round` | include/algorithms/flowNetwork/FordFulkerson.h:67-106 | one call as a value: 0 and the arena unchanged exactly when the sink gets no parent; otherwise the minimum residual over every reported tree edge, between 1 and INT_MAX, pushed along the sink's tree path |
| `FordFulkerson.FordFulkersonSolver.FindAugmentingPath` | include/algorithms/flowNetwork/FordFulkerson.h:67-106 | the returned amount and new arena are exactly `Round` of the old arena (minimum over all tree edges, pushed hop by hop); 0, changing nothing, leaves a residual-closed visited set holding the source and, unless the sink is the source, not the sink; a positive amount moves that much net flow from the source to the sink, feasibly |
| `FordFulkerson.FordFulkersonSolver.ComputeMaxFlow` | include/algorithms/flowNetwork/FordFulkerson.h:38-53 | the result is the flow value gained; the final flow is feasible and conserved and at most every cut's capacity; when source != sink it equals the capacity of a residual-closed cut; when source == sink the first search fails, so the result is 0 and nothing changes |
| `EdmondsKarp.Discover` | include/algorithms/flowNetwork/EdmondsKarp.h:57 | enqueueing an unseen target of a residual edge of a queued vertex, with that vertex as parent, keeps the search state |
| `EdmondsKarp.TreeGrows` | include/algorithms/flowNetwork/EdmondsKarp.h:57 | adding the residual hop u -> t for an unseen t keeps parent a residual search tree |
| `EdmondsKarp.HopsGrow` | include/algorithms/flowNetwork/EdmondsKarp.h:57 | every tree hop stays a residual hop when u -> t joins them |
| `EdmondsKarp.LevelsGrow` | include/algorithms/flowNetwork/EdmondsKarp.h:57 | enqueueing an unseen child one level above the head keeps the queue's levels: the source at 0, each child one above its parent, non-decreasing along the queue, none more than one above the head |
| `EdmondsKarp.ChildLevels` | include/algorithms/flowNetwork/EdmondsKarp.h:57 | a new child one level above its parent keeps every tree child one level above its parent |
| `EdmondsKarp.NearGrows` | include/algorithms/flowNetwork/EdmondsKarp.h:57 | the scanned part of a list stays scanned when an unseen vertex gets a level |
| `EdmondsKarp.HeadsStayNear` | include/algorithms/flowNetwork/EdmondsKarp.h:57 | vertices already dequeued and scanned stay scanned as the queue grows |
| `EdmondsKarp.TopBound` | include/algorithms/flowNetwork/EdmondsKarp.h:57 | no queued vertex is more than one level above the head |
| `EdmondsKarp.Advance` | include/algorithms/flowNetwork/EdmondsKarp.h:40-68 | dequeuing a fully scanned head keeps the search state |
| `EdmondsKarp.NearIsClosed` | include/algorithms/flowNetwork/EdmondsKarp.h:40-68 | a scanned vertex has every residual edge leading into the queue |
| `EdmondsKarp.WalkBound` | include/algorithms/flowNetwork/EdmondsKarp.h:34-39 | once every levelled vertex is scanned, a residual walk of n steps from the source ends at a levelled vertex of level at most n |
| `EdmondsKarp.PathLength` | include/algorithms/flowNetwork/EdmondsKarp.h:57 | the tree path to a queued vertex has exactly one vertex more than its level |
| `EdmondsKarp.AllNear` | include/algorithms/flowNetwork/EdmondsKarp.h:40-68 | when the whole queue is scanned, so is every levelled vertex |
| `EdmondsKarp.Shortest` | include/algorithms/flowNetwork/EdmondsKarp.h:34-39 | at the end of the search every residual walk from the source ends at a reached vertex whose tree path has no more vertices than the walk: tree paths are fewest-hop residual paths |
| `EdmondsKarp.ScanNew` | include/algorithms/flowNetwork/EdmondsKarp.h:57 | a residual edge to an unseen target enqueues it one level above u with parent u, keeping the scan state |
| `EdmondsKarp.ListHop` | include/algorithms/flowNetwork/EdmondsKarp.h:57 | a residual edge in u's list is a residual hop u -> target, and its target has a list |
| `EdmondsKarp.ScanOld` | include/algorithms/flowNetwork/EdmondsKarp.h:57 | a saturated edge, or one into a queued vertex, changes nothing but the scan position |
| `EdmondsKarp.NearStep` | include/algorithms/flowNetwork/EdmondsKarp.h:57 | an edge that is saturated or leads at most one level above u extends the scanned part by one |
| `EdmondsKarp.PathMinAtMost` | include/algorithms/flowNetwork/EdmondsKarp.h:94-102 | the path minimum never exceeds its starting value INT_MAX |
| `EdmondsKarp.Residuals` | include/algorithms/flowNetwork/EdmondsKarp.h:97-102 | the residual capacities along a path, one per hop, in order |
| `EdmondsKarp.HopsPrepend` | include/algorithms/flowNetwork/EdmondsKarp.h:97-102 | a hop at least f in front of a path whose hops are at least g >= f gives a path whose hops are at least f |
| `EdmondsKarp.SomeHopPrepend` | include/algorithms/flowNetwork/EdmondsKarp.h:97-102 | a hop of the rest of a path, or the new first hop, is a hop of the longer path |
| `EdmondsKarp.PathMinBounds` | include/algorithms/flowNetwork/EdmondsKarp.h:94-102 | over a residual tree path the minimum is positive, at most INT_MAX, fits every hop, and is INT_MAX or one hop's residual |
| `EdmondsKarp.PathMinStep` | include/algorithms/flowNetwork/EdmondsKarp.h:97-101 | one iteration of the first loop keeps the running minimum, and parent[v] comes earlier in the discovery order than v |
| `EdmondsKarp.ScanEdge` | include/algorithms/flowNetwork/EdmondsKarp.h:57 | scanning one edge enqueues its target with u as parent exactly when it has residual capacity and its target is unseen |
| `EdmondsKarp.Bottleneck` | include/algorithms/flowNetwork/EdmondsKarp.h:94-102 | the bottleneck of the sink path of a residual search tree is positive and fits every hop |
| `EdmondsKarp.AugmentStep` | include/algorithms/flowNetwork/EdmondsKarp.h:105-110 | one round moves f of net flow from source to sink, adds f to the value and leaves the capacity out of the source alone |
| `EdmondsKarp.EdmondsKarpSolver.constructor` | include/algorithms/flowNetwork/EdmondsKarp.h:77 | the solver holds the network and an empty parent map |
| `EdmondsKarp.EdmondsKarpSolver.Bfs` | include/algorithms/flowNetwork/EdmondsKarp.h:33-68 | true exactly when the sink has a parent; parent is a search tree from the source over hops with residual capacity, no residual edge leaves the reached set, and each tree path is a shortest residual path: no residual walk from the source reaches its end in fewer steps |
| `EdmondsKarp.EdmondsKarpSolver.ScanNeighbours` | include/algorithms/flowNetwork/EdmondsKarp.h:57 | after scanning u's list every residual edge of u leads to a queued vertex, the search state holds, and the queue only grows |
| `EdmondsKarp.EdmondsKarpSolver.ComputeMaxFlow` | include/algorithms/flowNetwork/EdmondsKarp.h:86-113 | the result is the flow value gained; the final flow is feasible and conserved and at most every cut's capacity; when source != sink it equals the capacity of a residual-closed cut; when source == sink the first `bfs` fails, so the result is 0 and nothing changes |
| `EdmondsKarp.EdmondsKarpSolver.PathBottleneck` | include/algorithms/flowNetwork/EdmondsKarp.h:94-102 | the first loop of a round computes the minimum over the path's residual hops, starting from INT_MAX |
| `Dinic.LScannedGrows` | include/algorithms/flowNetwork/Dinic.h:77-82 | the scanned prefix of a list stays scanned as more vertices get levels |
| `Dinic.LScannedStep` | include/algorithms/flowNetwork/Dinic.h:78 | an edge that is saturated or leads to a vertex at most one level up extends the scanned prefix by one |
| `Dinic.SetOfAppendL` | include/algorithms/flowNetwork/Dinic.h:80 | the queued set after pushing t is the old queued set plus t |
| `Dinic.QueueExtend` | include/algorithms/flowNetwork/Dinic.h:79-80 | queueing an unlevelled t at the head's level plus one keeps the queue's levels non-decreasing and within one of the head |
| `Dinic.LayeredExtend` | include/algorithms/flowNetwork/Dinic.h:78-79 | levelling the target of a residual edge of a levelled vertex one level higher keeps every level reached over a residual edge from one level below |
| `Dinic.ScannedExtend` | include/algorithms/flowNetwork/Dinic.h:79-80 | vertices already dequeued and scanned stay scanned when a new vertex is levelled |
| `Dinic.LevelingFrom` | include/algorithms/flowNetwork/Dinic.h:73-83 | the parts of the search state combine into the loop invariant of buildLevelGraph |
| `Dinic.Discover` | include/algorithms/flowNetwork/Dinic.h:78-80 | levelling an unlevelled target of a residual edge of the head keeps the state and leaves fewer vertices to level |
| `Dinic.DiscoverLevels` | include/algorithms/flowNetwork/Dinic.h:78-80 | levelling an unlevelled target of a residual edge of the head keeps the search state |
| `Dinic.DiscoverShrinks` | include/algorithms/flowNetwork/Dinic.h:79 | levelling a new target of the network leaves fewer vertices unlevelled and keeps the earlier levels |
| `Dinic.TopBound` | include/algorithms/flowNetwork/Dinic.h:73-83 | no levelled vertex is more than one level above the head of the queue |
| `Dinic.Advance` | include/algorithms/flowNetwork/Dinic.h:74-75 | dequeuing a fully scanned head keeps the state of buildLevelGraph |
| `Dinic.AllLClosed` | include/algorithms/flowNetwork/Dinic.h:73-83 | when every queued vertex is scanned, every residual edge out of a levelled vertex leads at most one level up |
| `Dinic.Start` | include/algorithms/flowNetwork/Dinic.h:68-71 | after `level.clear()`, queueing the source at level 0 establishes the search state |
| `Dinic.Finish` | include/algorithms/flowNetwork/Dinic.h:73-84 | once the queue is empty the levels are a closed layering rooted at the source |
| `Dinic.LevelClosedResidual` | include/algorithms/flowNetwork/Dinic.h:84 | no residual edge leaves the levelled vertices of a closed level graph, so a level graph without the sink gives a cut |
| `Dinic.AfterPush` | include/algorithms/flowNetwork/Dinic.h:45-46 | a positive findBlockingFlow from the source keeps the flow feasible and conserved, changes only flows, and adds its result to the flow value |
| `Dinic.Search` | include/algorithms/flowNetwork/Dinic.h:105-121 | the value-level findBlockingFlow: `getAdjacentMut(u)` adds an empty list when u had none; 0 means without change that u no longer reaches the sink; a positive result was pushed along a level path |
| `Dinic.ScanFrom` | include/algorithms/flowNetwork/Dinic.h:108-120 | the loop from u's pointer to the end of its list returns 0 only when u no longer reaches the sink, and otherwise a pushed amount with u's pointer on the edge that carried it |
| `Dinic.DescendAlong` | include/algorithms/flowNetwork/Dinic.h:110-118 | the descent along an admissible edge either carries nothing and spends the entry, or pushes the amount it returns onto the edge and its reverse |
| `Dinic.DinicSolver.constructor` | include/algorithms/flowNetwork/Dinic.h:29 | the solver holds the network and empty level and pointer maps |
| `Dinic.DinicSolver.BuildLevelGraph` | include/algorithms/flowNetwork/Dinic.h:67-85 | true exactly when the sink got a level; the levels are a layering over residual edges, closed under them |
| `Dinic.DinicSolver.Dequeue` | include/algorithms/flowNetwork/Dinic.h:74-82 | one round of the outer loop keeps the search state, moves the head on by one, and either changes nothing else or levels more vertices |
| `Dinic.DinicSolver.ScanLevel` | include/algorithms/flowNetwork/Dinic.h:77-82 | after scanning u's list every residual edge of u leads at most one level up, and the queue only grows |
| `Dinic.DinicSolver.FindBlockingFlow` | include/algorithms/flowNetwork/Dinic.h:105-121 | 0 leaves the flows unchanged and u no longer reaches the sink; a positive result is the bottleneck, capped by minCap, of a level path from u pushed along it; pointers only move forward past spent entries |
| `Dinic.DinicSolver.InitializePtr` | include/algorithms/flowNetwork/Dinic.h:90-95 | every pointer is back at the start of its list, and `getAdjacentMut(source)` gives the source an empty list when it had none |
| `Dinic.DinicSolver.ComputeMaxFlow` | include/algorithms/flowNetwork/Dinic.h:38-50 | the result is the flow value gained; the final flow is feasible and conserved, equals the capacity of the levelled cut, and is at most every cut's capacity |
| `Dinic.DinicSolver.Phase` | include/algorithms/flowNetwork/Dinic.h:44-47 | a phase keeps the flow feasible and conserved, adds each search result to maxFlow, and strictly raises the flow value |
| `DinicLevels.PushAll` | include/algorithms/flowNetwork/Dinic.h:113-116 | the pushes on the way back from a descent, nearest the sink first, change only flows |
| `DinicLevels.LevelPathBounds` | include/algorithms/flowNetwork/Dinic.h:110 | every edge of a level path is an edge of the network |
| `DinicLevels.LevelPathRises` | include/algorithms/flowNetwork/Dinic.h:110 | each edge of a level path climbs one level, so its ends are as many levels apart as it has edges |
| `DinicLevels.PathCapBounds` | include/algorithms/flowNetwork/Dinic.h:107-112 | the amount returned along a level path is positive, at most the starting cap and every residual on the path, and equals the cap or one residual |
| `DinicLevels.PushShrinks` | include/algorithms/flowNetwork/Dinic.h:114-115 | a push onto an edge that climbs one level creates no admissible edge: its reverse descends |
| `DinicLevels.ReachesShrinks` | include/algorithms/flowNetwork/Dinic.h:110 | a vertex that reaches the sink after pushes that created no admissible edge reached it before |
| `DinicLevels.PtrSoundShrinks` | include/algorithms/flowNetwork/Dinic.h:108 | entries behind the pointers stay spent when pushes create no admissible edge |
| `DinicLevels.ReachesAlong` | include/algorithms/flowNetwork/Dinic.h:110-111 | a level path to the sink shows that its start reaches the sink |
| `DinicLevels.LevelPathSnoc` | include/algorithms/flowNetwork/Dinic.h:110 | a level path continues along an admissible edge out of its end |
| `DinicLevels.PathTo` | include/algorithms/flowNetwork/Dinic.h:79 | every levelled vertex has a level path from the source, following the edges that levelled it |
| `DinicLevels.SourceReaches` | include/algorithms/flowNetwork/Dinic.h:43-45 | when the level graph holds the sink the source reaches it, so the phase's first search pushes something |
| `DinicLevels.PushAllOutside` | include/algorithms/flowNetwork/Dinic.h:113-116 | a push along a level path from u leaves every edge out of a lower level as it was |
| `DinicLevels.PushAllFeasible` | include/algorithms/flowNetwork/Dinic.h:113-116 | pushing at most every residual on a level path keeps the flow feasible |
| `DinicLevels.PushAllNetOut` | include/algorithms/flowNetwork/Dinic.h:113-116 | a push of f along a level path from u to the sink moves f of net flow from u to the sink and changes no other vertex's |
| `DinicLevels.ReachesSameLists` | include/algorithms/flowNetwork/Dinic.h:108-109 | reaching the sink depends on the lists only through the vector each vertex reads |
| `DinicLevels.PtrSoundSameLists` | include/algorithms/flowNetwork/Dinic.h:108-109 | pointer soundness depends on the lists only through the vector each vertex reads |
| `DinicLevels.PtrSoundZero` | include/algorithms/flowNetwork/Dinic.h:108 | `ptr[u]` created at 0 keeps the pointers sound |
| `DinicLevels.PtrSoundStep` | include/algorithms/flowNetwork/Dinic.h:108 | `++i` past a spent entry keeps the pointers sound |
| `DinicLevels.Exhausted` | include/algorithms/flowNetwork/Dinic.h:108-120 | a vertex other than the sink whose pointer is past its list does not reach the sink |
| `DinicLevels.Descend` | include/algorithms/flowNetwork/Dinic.h:111-116 | the descended edge goes in front of the path below it, its cap folds into the bottleneck, and its push comes after those below |
| `DinicLevels.PtrAdvanceTrans` | include/algorithms/flowNetwork/Dinic.h:108 | pointer advances compose |
| `DinicLevels.PtrAdvanceSet` | include/algorithms/flowNetwork/Dinic.h:108 | raising u's pointer advances the pointers and moves none below u's level |
| `DinicLevels.Carry` | include/algorithms/flowNetwork/Dinic.h:113-116 | after a descent that pushed f along the path below edge i, pushing f on i stays within its residual, completes the push along the longer path and creates no admissible edge |
| `DinicSearch.EntrySpent` | include/algorithms/flowNetwork/Dinic.h:110-113 | an entry whose target does not reach the sink can carry nothing more in this phase |
| `DinicSearch.ListEntry` | include/algorithms/flowNetwork/Dinic.h:109 | `getAdjacentMut(u)[i]` is an edge of the network held by u |
| `DinicSearch.DescentStart` | include/algorithms/flowNetwork/Dinic.h:111-112 | the recursive call along an admissible edge starts at a vertex with a list, with a positive cap |
| `DinicSearch.TargetListed` | include/algorithms/flowNetwork/FlowNetwork.h:67-68 | the target of every edge has an adjacency vector |
| `DinicSearch.TouchedLists` | include/algorithms/flowNetwork/FlowNetwork.h:93-95 | `getAdjacentMut` creating an empty vector changes no vertex's edges |
| `DinicSearch.TouchedWf` | include/algorithms/flowNetwork/FlowNetwork.h:93-95 | `getAdjacentMut` creating an empty vector keeps the network well formed |
| `DinicSearch.AtSink` | include/algorithms/flowNetwork/Dinic.h:107 | at the sink findBlockingFlow returns its cap along the empty path, changing nothing |
| `DinicSearch.FoundFrom` | include/algorithms/flowNetwork/Dinic.h:108 | a pointer created for u before the loop does not change what the loop promises |
| `DinicSearch.Tried` | include/algorithms/flowNetwork/Dinic.h:108-119 | one round of the loop at u: on 0 nothing changed and u's pointer moved one on, otherwise the call returns its result |
| `DinicSearch.NotFound` | include/algorithms/flowNetwork/Dinic.h:108-120 | with u's pointer past its list the loop returns 0 and u does not reach the sink |
| `DinicSearch.Skipped` | include/algorithms/flowNetwork/Dinic.h:108 | moving u's pointer past a spent entry ends the round with 0 |
| `DinicSearch.Passed` | include/algorithms/flowNetwork/Dinic.h:110 | an entry that does not climb one level or is saturated is passed over with 0 |
| `DinicSearch.Declined` | include/algorithms/flowNetwork/Dinic.h:111-113 | a descent that returns 0 leaves the flows as they were and u's pointer moves past the spent entry |
| `DinicSearch.Carried` | include/algorithms/flowNetwork/Dinic.h:113-116 | a positive descent result, pushed onto the entry, returns with u's pointer still on that entry |
| `BreadthFirst.ShortestUnique` | include/algorithms/bfs_dfs/BFS.h:28 | the fewest-edge distance to a vertex is unique |
| `BreadthFirst.WalkSnoc` | include/algorithms/bfs_dfs/BFS.h:42-51 | a walk followed by an edge of the graph is a walk |
| `BreadthFirst.ProjectAppend` | include/algorithms/bfs_dfs/BFS.h:39-59 | each visitor event appended to the trace extends exactly one of its projections |
| `BreadthFirst.ScanEdges` | include/algorithms/bfs_dfs/BFS.h:43-45 | the edges examined while scanning u: one per neighbour, from u to that neighbour, in order |
| `BreadthFirst.DiscoverTree` | include/algorithms/bfs_dfs/BFS.h:48-51 | marking an unmarked neighbour t of u one level above u keeps every marked vertex's parent one level lower along an edge |
| `BreadthFirst.DiscoverScanned` | include/algorithms/bfs_dfs/BFS.h:48-51 | marking a new vertex leaves every scanned vertex's neighbours marked and their levels alone |
| `BreadthFirst.DiscoverListed` | include/algorithms/bfs_dfs/BFS.h:48-51 | marking a new vertex keeps the queue record a repeat-free list of seen vertices within the distance vector |
| `BreadthFirst.DiscoverSorted` | include/algorithms/bfs_dfs/BFS.h:50-51 | appending t one level above the head keeps the queue's levels non-decreasing and within one of the head |
| `BreadthFirst.Advance` | include/algorithms/bfs_dfs/BFS.h:35-36 | a head whose neighbours are all marked at most one level up may leave the queue |
| `BreadthFirst.PathTo` | include/algorithms/bfs_dfs/BFS.h:51 | every marked vertex is reached by a walk as long as its level |
| `BreadthFirst.WalkBound` | include/algorithms/bfs_dfs/BFS.h:34-60 | once every queued vertex is scanned, no walk to a vertex is shorter than its level, and its end is marked |
| `BreadthFirst.Finish` | include/algorithms/bfs_dfs/BFS.h:34-63 | at the end the queued vertices are exactly the reachable ones, each reachable id holds its fewest-edge distance and every other id 0 |
| `BreadthFirst.ExploreAll` | include/algorithms/bfs_dfs/BFS.h:43-56 | the neighbour loop keeps the head and the vector size, and only appends neighbours to the queue record |
| `BreadthFirst.TargetSeen` | include/algorithms/bfs_dfs/BFS.h:42 | a neighbour of any vertex is one the search can see |
| `BreadthFirst.TargetFacts` | include/algorithms/bfs_dfs/BFS.h:42-51 | a neighbour is one the search can see, and its id indexes the distance vector |
| `BreadthFirst.ExploreAllProgress` | include/algorithms/bfs_dfs/BFS.h:48-50 | the neighbour loop either changes neither marks nor queue, or marks a new vertex, so the search ends |
| `BreadthFirst.ProcessProgress` | include/algorithms/bfs_dfs/BFS.h:34-60 | one round either leaves marks and queue record alone, or marks a new vertex |
| `BreadthFirst.ExploreKeeps` | include/algorithms/bfs_dfs/BFS.h:45-55 | one neighbour keeps the invariant, ends up marked at most one level above u, and no earlier level moves |
| `BreadthFirst.ExploreMarked` | include/algorithms/bfs_dfs/BFS.h:48 | an already marked neighbour changes nothing and is at most one level above u |
| `BreadthFirst.ExploreUnmarked` | include/algorithms/bfs_dfs/BFS.h:48-55 | an unmarked neighbour is marked one level above u, keeping the invariant |
| `BreadthFirst.ExploreListed` | include/algorithms/bfs_dfs/BFS.h:49-50 | queueing an unmarked neighbour keeps the queue record repeat-free and bounded |
| `BreadthFirst.ExploreTree` | include/algorithms/bfs_dfs/BFS.h:51-54 | queueing an unmarked neighbour keeps the search tree one level per edge |
| `BreadthFirst.ExploreSorted` | include/algorithms/bfs_dfs/BFS.h:50-51 | queueing an unmarked neighbour keeps the queue sorted by level |
| `BreadthFirst.ExploreScanned` | include/algorithms/bfs_dfs/BFS.h:49-51 | queueing a new vertex keeps the scanned vertices scanned |
| `BreadthFirst.DiscoverLevels` | include/algorithms/bfs_dfs/BFS.h:51 | newly marking w from u puts it one level above u and moves no other level |
| `BreadthFirst.DoneExtend` | include/algorithms/bfs_dfs/BFS.h:43-56 | the neighbours handled so far stay marked at most one level up as more are handled |
| `BreadthFirst.ExploreAllKeeps` | include/algorithms/bfs_dfs/BFS.h:43-56 | the neighbour loop keeps the invariant and leaves every neighbour marked at most one level up |
| `BreadthFirst.ProcessKeeps` | include/algorithms/bfs_dfs/BFS.h:35-59 | a round of the outer loop keeps the invariant |
| `BreadthFirst.ExploreTrace` | include/algorithms/bfs_dfs/BFS.h:45-54 | one neighbour reports one examined edge, and a tree edge exactly when it is newly queued |
| `BreadthFirst.ExploreAllTrace` | include/algorithms/bfs_dfs/BFS.h:42-56 | the neighbour loop reports one examined edge per neighbour and a tree edge for each newly queued vertex, in queue order, and no visit or finish |
| `BreadthFirst.ScanEdgesSnoc` | include/algorithms/bfs_dfs/BFS.h:43-45 | the examined edges of a longer neighbour list end with the edge to its last neighbour |
| `BreadthFirst.ScansSnoc` | include/algorithms/bfs_dfs/BFS.h:42-45 | the examined edges of a longer visiting order end with the scan of its last vertex |
| `BreadthFirst.ProcessEvents` | include/algorithms/bfs_dfs/BFS.h:35-59 | one round reports the head's visit and finish, the scan of its neighbours, and a tree edge per newly queued vertex |
| `BreadthFirst.ProcessTrace` | include/algorithms/bfs_dfs/BFS.h:35-59 | a round keeps the trace record consistent with the queue record |
| `BreadthFirst.RunKeeps` | include/algorithms/bfs_dfs/BFS.h:34-60 | the whole loop keeps the invariant and the trace record, and ends with the queue empty |
| `BreadthFirst.BfsCorrect` | include/algorithms/bfs_dfs/BFS.h:23-64 | d has one entry per id 0..n; reachable ids get their fewest-edge distance, others 0; the vertices visited are exactly the reachable ones, once each, from the start, in non-decreasing level; visits, finishes, tree edges and examined edges are reported in that order |
| `BreadthFirst.Start` | include/algorithms/bfs_dfs/BFS.h:26-32 | the start state, the start alone queued and marked with nothing reported, satisfies the invariant |
| `BreadthFirst.BfsFinished` | include/algorithms/bfs_dfs/BFS.h:34-60 | the search ends with the invariant, its trace record, and every queued vertex scanned |
| `BreadthFirst.ProcessBounded` | include/algorithms/bfs_dfs/BFS.h:51 | a round keeps every written id within the distance vector |
| `BreadthFirst.Bfs` | include/algorithms/bfs_dfs/BFS.h:23-64 | the method returns the distances and visitor trace of BfsCorrect: fewest-edge distances for reachable ids, 0 otherwise, and visits in breadth-first order |
| `BreadthFirst.ExploreAllSnoc` | include/algorithms/bfs_dfs/BFS.h:43-56 | the neighbour loop over one more neighbour is one more step |
| `BreadthFirst.ProcessHead` | include/algorithms/bfs_dfs/BFS.h:35-59 | one round of the outer loop computes exactly the next state of the search |
| `BreadthFirst.ScanNeighbours` | include/algorithms/bfs_dfs/BFS.h:43-56 | the neighbour loop computes exactly the neighbour step of the search over u's neighbour list |
| `ShortestWalks.WeightAppend` | include/algorithms/find_distance/BellmanFord.h:37 | the weight of two walks joined is the sum of their weights |
| `ShortestWalks.WeightNonNegative` | include/algorithms/find_distance/Dijkstra.h:47 | with non-negative weights every walk weighs at least 0 |
| `ShortestWalks.WalkAppend` | include/algorithms/find_distance/BellmanFord.h:36-37 | a walk to an edge's source, followed by the edge, is a walk to its target that weighs the edge's weight more |
| `ShortestWalks.WalkConcat` | include/algorithms/find_distance/FloydWarshall.h:39-40 | a walk a to b joined with a walk b to c is a walk a to c weighing their sum |
| `ShortestWalks.WalkPrefix` | include/algorithms/find_distance/BellmanFord.h:33-40 | a prefix of a walk is a walk to the vertex it stops at |
| `ShortestWalks.WalkSuffix` | include/algorithms/find_distance/BellmanFord.h:33-40 | a suffix of a walk is a walk from the vertex it starts at |
| `ShortestWalks.WalkSplit` | include/algorithms/find_distance/FloydWarshall.h:39-40 | splitting a walk gives two walks whose weights sum to its weight |
| `ShortestWalks.Repeats` | include/algorithms/find_distance/BellmanFord.h:33 | a sequence longer than the set it is drawn from repeats an element |
| `ShortestWalks.WalkRepeats` | include/algorithms/find_distance/BellmanFord.h:33 | a walk with at least as many edges as vertices passes some vertex twice |
| `ShortestWalks.SetOfSeqSize` | include/algorithms/find_distance/BellmanFord.h:28-30 | the vertex set of the vertex list is no larger than the list |
| `ShortestWalks.ShortWalk` | include/algorithms/find_distance/BellmanFord.h:33 | with no negative cycle reachable, every walk is at least as heavy as a walk with the same ends and fewer edges than vertices, so one round fewer than the vertex count suffices |
| `BridgesArticulation.BridgesAndArticulationPoints.constructor` | include/algorithms/bfs_dfs/BridgesAndArticulationPoints.h:23-24 | the object holds a copy of the graph and a clock at 0 |
| `BridgesArticulation.BridgesAndArticulationPoints.FindBridges` | include/algorithms/bfs_dfs/BridgesAndArticulationPoints.h:30-44 | the result is the bridge record of the whole search: exactly the tree edges u -> v with low[v] > discoveryTime[u]; every listed vertex and every neighbour of a discovered vertex is discovered, and every low link is exact |
| `BridgesArticulation.BridgesAndArticulationPoints.FindArticulationPoints` | include/algorithms/bfs_dfs/BridgesAndArticulationPoints.h:50-65 | the result is the point record of the whole search: exactly the vertices that pass the test (a root with two children, or a non-root with a child c where low[c] >= discoveryTime[p]); every listed vertex is discovered and every low link is exact |
| `BridgesArticulation.BridgesAndArticulationPoints.DfsBridges` | include/algorithms/bfs_dfs/BridgesAndArticulationPoints.h:79-103 | the method's new maps, clock and bridge list are exactly the state the recursive definition Visit computes |
| `BridgesArticulation.BridgesAndArticulationPoints.NeighbourBridges` | include/algorithms/bfs_dfs/BridgesAndArticulationPoints.h:87-101 | one pass of the neighbour loop is one step of the definition's scan over the neighbours |
| `BridgesArticulation.BridgesAndArticulationPoints.DfsArticulationPoints` | include/algorithms/bfs_dfs/BridgesAndArticulationPoints.h:114-150 | the method's new maps, clock and point list are exactly the state the recursive definition Visit computes |
| `BridgesArticulation.BridgesAndArticulationPoints.NeighbourPoints` | include/algorithms/bfs_dfs/BridgesAndArticulationPoints.h:124-148 | one pass of the neighbour loop, child counter included, is one step of the definition's scan |
| `LowLinkAsWritten.SampleTargets` | include/graph/Graph.h:231-232 | in the sample graph vertex 1's neighbours are [1, 2] and vertex 2's are [1] |
| `LowLinkAsWritten.LeafVisit` | include/algorithms/bfs_dfs/BridgesAndArticulationPoints.h:119-148 | the call on vertex 2, entered from 1, gives the same state whatever the root's entry in the parent map |
| `LowLinkAsWritten.AsWrittenRoot` | include/algorithms/bfs_dfs/BridgesAndArticulationPoints.h:145 | as written, the lookup `parent[u.id]` on the self-loop inserts 1 -> 0, after which the root passes the non-root test and is recorded |
| `LowLinkAsWritten.AsWrittenReportsRoot` | include/algorithms/bfs_dfs/BridgesAndArticulationPoints.h:114-150 | as written, the sample graph reports vertex 1 as an articulation point |
| `LowLinkAsWritten.LeafInResult` | include/algorithms/bfs_dfs/BridgesAndArticulationPoints.h:124-128 | vertex 2 is discovered by the call on the root in either version |
| `LowLinkAsWritten.CorrectedRoot` | include/algorithms/bfs_dfs/BridgesAndArticulationPoints.h:135 | with a lookup that does not insert, the root has one child and is not recorded |
| `LowLinkAsWritten.CorrectedReportsNone` | include/algorithms/bfs_dfs/BridgesAndArticulationPoints.h:50-65 | with a lookup that does not insert, the sample graph has no articulation point |
| `LowLinkClosure.FinishedTrans` | include/algorithms/bfs_dfs/BridgesAndArticulationPoints.h:86 | "every neighbour of a newly discovered vertex is discovered" composes over consecutive steps |
| `LowLinkClosure.VisitCloses` | include/algorithms/bfs_dfs/BridgesAndArticulationPoints.h:86-102 | after a call on u every neighbour of each vertex it discovered is discovered |
| `LowLinkClosure.ScanCloses` | include/algorithms/bfs_dfs/BridgesAndArticulationPoints.h:86-102 | after the neighbour loop every scanned neighbour is discovered, and so are the neighbours of every vertex found on the way |
| `LowLinkClosure.SweepCloses` | include/algorithms/bfs_dfs/BridgesAndArticulationPoints.h:37-41 | the outer loop discovers every vertex it tries and keeps every neighbour of a discovered vertex discovered |
| `LowLinkClosure.SearchCloses` | include/algorithms/bfs_dfs/BridgesAndArticulationPoints.h:37-41 | after the whole search every listed vertex is discovered, and so is every neighbour of a discovered vertex |
| `LowLinkSweep.RootBridge` | include/algorithms/bfs_dfs/BridgesAndArticulationPoints.h:37-41 | a call from the outer loop does not change whether an edge into an earlier vertex is a bridge |
| `LowLinkSweep.RootPoint` | include/algorithms/bfs_dfs/BridgesAndArticulationPoints.h:57-61 | a call from the outer loop does not change whether an earlier vertex is an articulation point |
| `LowLinkSweep.RootVisit` | include/algorithms/bfs_dfs/BridgesAndArticulationPoints.h:38-59 | a call from the outer loop on an undiscovered vertex keeps the bridge and point lists exactly those passing their tests and discovers it |
| `LowLinkSweep.SweepRecords` | include/algorithms/bfs_dfs/BridgesAndArticulationPoints.h:37-41 | the outer loop keeps the bridge and point lists exactly those passing their tests, and keeps earlier times |
| `LowLinkSweep.SearchRecords` | include/algorithms/bfs_dfs/BridgesAndArticulationPoints.h:30-65 | after a whole search from clock t: bridges and points are exactly those passing their tests, every parent link is a tree edge, the clock advanced by one per discovered vertex and discovery times are distinct and lie in t+1..time |
| `LowLinkSearch.NextNeighbours` | include/algorithms/bfs_dfs/BridgesAndArticulationPoints.h:86 | the neighbours from position i on are the one at i followed by those after it |
| `LowLinkSearch.TargetIds` | include/algorithms/bfs_dfs/BridgesAndArticulationPoints.h:86 | every neighbour has an id the search knows |
| `LowLinkSearch.Enter` | include/algorithms/bfs_dfs/BridgesAndArticulationPoints.h:83-119 | `discoveryTime[u.id] = low[u.id] = ++time` adds u to both maps |
| `LowLinkSearch.Visit` | include/algorithms/bfs_dfs/BridgesAndArticulationPoints.h:79-150 | a call on an undiscovered u discovers u and never forgets a discovered vertex |
| `LowLinkSearch.VisitStart` | include/algorithms/bfs_dfs/BridgesAndArticulationPoints.h:83-123 | a call enters u at the next tick and scans all of u's neighbours with no child yet |
| `LowLinkSearch.Scan` | include/algorithms/bfs_dfs/BridgesAndArticulationPoints.h:86-149 | the neighbour loop never forgets a discovered vertex |
| `LowLinkSearch.Sweep` | include/algorithms/bfs_dfs/BridgesAndArticulationPoints.h:37-62 | the outer loop never forgets a discovered vertex |
| `LowLinkShape.AddedSplit` | include/algorithms/bfs_dfs/BridgesAndArticulationPoints.h:96-143 | the entries appended by two consecutive steps are those of the first and of the second |
| `LowLinkShape.EnterShape` | include/algorithms/bfs_dfs/BridgesAndArticulationPoints.h:83-119 | entering u keeps the search invariant and changes nothing earlier |
| `LowLinkShape.EnterReady` | include/algorithms/bfs_dfs/BridgesAndArticulationPoints.h:83-119 | entering u keeps every low link at most its discovery time and every parent link a tree edge |
| `LowLinkShape.EnterKeeps` | include/algorithms/bfs_dfs/BridgesAndArticulationPoints.h:83-119 | entering u keeps every earlier time, link and record |
| `LowLinkShape.KeepsTrans` | include/algorithms/bfs_dfs/BridgesAndArticulationPoints.h:79-103 | "keeps everything earlier" composes over consecutive steps |
| `LowLinkShape.TimesTrans` | include/algorithms/bfs_dfs/BridgesAndArticulationPoints.h:83 | "keeps earlier times and ticks once per discovery" composes |
| `LowLinkShape.LinksTrans` | include/algorithms/bfs_dfs/BridgesAndArticulationPoints.h:88-126 | "keeps earlier parent and low links" composes |
| `LowLinkShape.PrefixTrans` | include/algorithms/bfs_dfs/BridgesAndArticulationPoints.h:96-143 | appending to a record twice is appending to it |
| `LowLinkShape.KeepsChild` | include/algorithms/bfs_dfs/BridgesAndArticulationPoints.h:88-128 | the recursive call on a child v of u keeps everything of u, its low link included |
| `LowLinkShape.ReturnedShape` | include/algorithms/bfs_dfs/BridgesAndArticulationPoints.h:92-144 | the step after the call on a child keeps the invariant and can only lower low[u] |
| `LowLinkShape.BackShape` | include/algorithms/bfs_dfs/BridgesAndArticulationPoints.h:98-148 | the step for an already discovered neighbour keeps the invariant and can only lower low[u] |
| `LowLinkShape.AdoptedTrans` | include/algorithms/bfs_dfs/BridgesAndArticulationPoints.h:88-126 | "new parent links come from the call" composes |
| `LowLinkShape.VisitShape` | include/algorithms/bfs_dfs/BridgesAndArticulationPoints.h:79-103 | a call on u keeps the invariant, discovers u, changes nothing earlier and links every newly discovered vertex within its subtree |
| `LowLinkShape.ChildShape` | include/algorithms/bfs_dfs/BridgesAndArticulationPoints.h:87-97 | the call on an undiscovered first neighbour and the step back keep the invariant and can only lower low[u] |
| `LowLinkShape.ScanShape` | include/algorithms/bfs_dfs/BridgesAndArticulationPoints.h:86-102 | the neighbour loop keeps the invariant and can only lower low[u] |
| `LowLinkShape.ScanChild` | include/algorithms/bfs_dfs/BridgesAndArticulationPoints.h:87-97 | the loop starting with an undiscovered neighbour keeps the invariant |
| `LowLinkShape.ScanBack` | include/algorithms/bfs_dfs/BridgesAndArticulationPoints.h:98-101 | the loop starting with a discovered neighbour keeps the invariant |
| `LowLinkBridges.BridgeKept` | include/algorithms/bfs_dfs/BridgesAndArticulationPoints.h:95 | a step on behalf of u does not change whether an edge into an earlier vertex other than u is a bridge |
| `LowLinkBridges.VisitBridges` | include/algorithms/bfs_dfs/BridgesAndArticulationPoints.h:79-103 | a call on u appends exactly the bridges into the vertices it discovers below u |
| `LowLinkBridges.ReturnedBridge` | include/algorithms/bfs_dfs/BridgesAndArticulationPoints.h:92-97 | after the call on child v, the edge u -> v is appended exactly when low[v] > discoveryTime[u], for each edge |
| `LowLinkBridges.ReturnedBridges` | include/algorithms/bfs_dfs/BridgesAndArticulationPoints.h:92-97 | after the call on child v, the bridges appended are exactly those into vertices discovered below u |
| `LowLinkBridges.ChildBridges` | include/algorithms/bfs_dfs/BridgesAndArticulationPoints.h:87-97 | the call on an undiscovered first neighbour and the bridge test after it append exactly the new bridges |
| `LowLinkBridges.ScanBridges` | include/algorithms/bfs_dfs/BridgesAndArticulationPoints.h:86-102 | the neighbour loop appends exactly the bridges into vertices it discovers |
| `LowLinkBridges.BridgeTrans` | include/algorithms/bfs_dfs/BridgesAndArticulationPoints.h:96 | the bridges appended by two consecutive steps compose, one edge at a time |
| `LowLinkBridges.BridgesTrans` | include/algorithms/bfs_dfs/BridgesAndArticulationPoints.h:96 | the bridges appended by two consecutive steps compose |
| `LowLinkBridges.ScanBridgesChild` | include/algorithms/bfs_dfs/BridgesAndArticulationPoints.h:87-97 | the loop starting with an undiscovered neighbour appends exactly the new bridges |
| `LowLinkBridges.ScanBridgesBack` | include/algorithms/bfs_dfs/BridgesAndArticulationPoints.h:98-101 | the loop starting with a discovered neighbour appends exactly the new bridges |
| `LowLinkValues.LowKept` | include/algorithms/bfs_dfs/BridgesAndArticulationPoints.h:92-100 | a step on behalf of u keeps the exact low link of every earlier vertex of which u is no child |
| `LowLinkValues.NewLowsTrans` | include/algorithms/bfs_dfs/BridgesAndArticulationPoints.h:86-102 | exact low links of the vertices found by two consecutive steps compose |
| `LowLinkValues.LoweredTrans` | include/algorithms/bfs_dfs/BridgesAndArticulationPoints.h:92-100 | what the step on the first neighbour and the loop over the rest did to low[u] compose into what the loop did |
| `LowLinkValues.LoweredCompose` | include/algorithms/bfs_dfs/BridgesAndArticulationPoints.h:92-100 | the same composition, from the individual facts about the two steps |
| `LowLinkValues.OldChildren` | include/algorithms/bfs_dfs/BridgesAndArticulationPoints.h:88 | a child of u after a step that was already discovered before it was already a child of u |
| `LowLinkValues.BackLowered` | include/algorithms/bfs_dfs/BridgesAndArticulationPoints.h:98-101 | for a discovered neighbour v other than u's parent, low[u] becomes min(low[u], discoveryTime[v]); the parent is skipped |
| `LowLinkValues.ChildLowered` | include/algorithms/bfs_dfs/BridgesAndArticulationPoints.h:87-92 | the call on an undiscovered neighbour v and the return lower low[u] to min(low[u], low[v]) and give v's subtree exact low links |
| `LowLinkValues.CallLows` | include/algorithms/bfs_dfs/BridgesAndArticulationPoints.h:88-92 | a call on v with exact low links, then the return to u, lower low[u] to min(low[u], low[v]) |
| `LowLinkValues.ReturnedLows` | include/algorithms/bfs_dfs/BridgesAndArticulationPoints.h:92 | the return to u after the call on v lowers low[u] by low[v] and keeps the found low links exact |
| `LowLinkValues.ReturnedLowered` | include/algorithms/bfs_dfs/BridgesAndArticulationPoints.h:92 | the return to u after the call on v makes low[u] min(low[u], low[v]) |
| `LowLinkValues.ReturnedNewLows` | include/algorithms/bfs_dfs/BridgesAndArticulationPoints.h:92 | the return to u after the call on v keeps exact the low links of the vertices the call found |
| `LowLinkValues.VisitLow` | include/algorithms/bfs_dfs/BridgesAndArticulationPoints.h:79-103 | after a call on u, low[u] is exactly the least of discoveryTime[u], its children's low links and the discovery times of its non-parent neighbours, and so is every low link the call found |
| `LowLinkValues.RootLow` | include/algorithms/bfs_dfs/BridgesAndArticulationPoints.h:83-102 | at the end of the call on u, what the loop did to low[u] makes it exact |
| `LowLinkValues.ScanLow` | include/algorithms/bfs_dfs/BridgesAndArticulationPoints.h:86-102 | the neighbour loop lowers low[u] over each neighbour it handles and gives every vertex it discovers its exact low link |
| `LowLinkValues.ScanLowChild` | include/algorithms/bfs_dfs/BridgesAndArticulationPoints.h:87-97 | the loop starting with an undiscovered neighbour keeps the low links exact |
| `LowLinkValues.ScanLowBack` | include/algorithms/bfs_dfs/BridgesAndArticulationPoints.h:98-101 | the loop starting with a discovered neighbour keeps the low links exact |
| `LowLinkValues.KeepsSelf` | include/algorithms/bfs_dfs/BridgesAndArticulationPoints.h:79-103 | a state keeps everything of itself |
| `LowLinkValues.SweepLows` | include/algorithms/bfs_dfs/BridgesAndArticulationPoints.h:37-41 | the outer loop keeps every discovered vertex's low link exact |
| `LowLinkValues.SearchLows` | include/algorithms/bfs_dfs/BridgesAndArticulationPoints.h:30-44 | after a whole search every discovered vertex has its exact low link |
| `LowLinkPoints.PointKept` | include/algorithms/bfs_dfs/BridgesAndArticulationPoints.h:135-144 | whether a discovered vertex other than u passes the test is not changed by a step on behalf of u of which it is no parent |
| `LowLinkPoints.FoundTrans` | include/algorithms/bfs_dfs/BridgesAndArticulationPoints.h:135-144 | u passes the test over two consecutive steps exactly when it passes it in one of them |
| `LowLinkPoints.PointsTrans` | include/algorithms/bfs_dfs/BridgesAndArticulationPoints.h:136-143 | the points recorded by two consecutive steps compose |
| `LowLinkPoints.VisitPoints` | include/algorithms/bfs_dfs/BridgesAndArticulationPoints.h:114-150 | a call on u records exactly the vertices it discovers that pass the test, and records u exactly when u passes it |
| `LowLinkPoints.RootFound` | include/algorithms/bfs_dfs/BridgesAndArticulationPoints.h:135-144 | at the end of the call on u, what the loop found is the test on u: two children for a root, a child with low >= discoveryTime[u] otherwise |
| `LowLinkPoints.ScanPoints` | include/algorithms/bfs_dfs/BridgesAndArticulationPoints.h:123-149 | the neighbour loop records exactly the new vertices that pass the test, and u exactly when it finds u passes |
| `LowLinkPoints.LowOnlyAt` | include/algorithms/bfs_dfs/BridgesAndArticulationPoints.h:131-147 | changing low at u alone does not change whether a vertex of which u is no child passes |
| `LowLinkPoints.OtherChildren` | include/algorithms/bfs_dfs/BridgesAndArticulationPoints.h:126 | besides v, the children of u after the call on v are those it had before |
| `LowLinkPoints.OnlyNewChild` | include/algorithms/bfs_dfs/BridgesAndArticulationPoints.h:126 | after the call on the undiscovered v, v is the only new child of u |
| `LowLinkPoints.ReturnedAdds` | include/algorithms/bfs_dfs/BridgesAndArticulationPoints.h:131-144 | after the call on child v, u is recorded exactly when it is a root with children > 1 or a non-root with low[v] >= discoveryTime[u] |
| `LowLinkPoints.ReturnedFound` | include/algorithms/bfs_dfs/BridgesAndArticulationPoints.h:131-144 | after the call on child v, u is recorded exactly when the test on u holds so far, and u has a child |
| `LowLinkPoints.ReturnedOther` | include/algorithms/bfs_dfs/BridgesAndArticulationPoints.h:131-144 | after the call on child v, a vertex other than u is newly recorded exactly when it is new and passes the test |
| `LowLinkPoints.ReturnedRecordsOnlyU` | include/algorithms/bfs_dfs/BridgesAndArticulationPoints.h:131-144 | the return to u records nothing but u and changes only low[u] |
| `LowLinkPoints.ReturnedPoints` | include/algorithms/bfs_dfs/BridgesAndArticulationPoints.h:131-144 | after the call on child v, the points recorded are exactly the new vertices passing the test and u when the test holds |
| `LowLinkPoints.ChildPoints` | include/algorithms/bfs_dfs/BridgesAndArticulationPoints.h:124-144 | the call on an undiscovered first neighbour and the tests after it record exactly the new points |
| `LowLinkPoints.ScanPointsChild` | include/algorithms/bfs_dfs/BridgesAndArticulationPoints.h:124-144 | the loop starting with an undiscovered neighbour records exactly the new points |
| `LowLinkPoints.ScanPointsBack` | include/algorithms/bfs_dfs/BridgesAndArticulationPoints.h:145-148 | the loop starting with a discovered neighbour records exactly the new points |
| `LowLinkPoints.BackThen` | include/algorithms/bfs_dfs/BridgesAndArticulationPoints.h:145-148 | a loop that starts with the step on a discovered neighbour records what the rest of it records |
| `LowLinkSamples.SixSample` | tests/test_bridges_articulation.cpp:10-52 | on the six-vertex graph `findBridges` from clock 0 returns [(3, 4), (1, 2)] and leaves the clock at 6, so (1, 2) and (3, 4) are bridges and (2, 3) is not; `findArticulationPoints` then returns [3, 2], so 2 and 3 are points and 1 and 4 are not |
| `LowLinkSamples.TriangleSample` | tests/test_bridges_articulation.cpp:54-86 | on the triangle `findBridges` returns no bridge and leaves the clock at 3, and `findArticulationPoints` then returns no point |
| `LowLinkSamples.SixSearch` | include/algorithms/bfs_dfs/BridgesAndArticulationPoints.h:30-64 | the whole search of the six-vertex graph from clock t: its discovery times, low values, parents, final clock, bridges and points |
| `LowLinkSamples.TriangleSearch` | include/algorithms/bfs_dfs/BridgesAndArticulationPoints.h:30-64 | the whole search of the triangle from clock t: every low value is the root's discovery time and nothing is recorded |
| `LowLinkSamples.SixBridges` | include/algorithms/bfs_dfs/BridgesAndArticulationPoints.h:30-44 | `findBridges` on the six-vertex graph from clock 0 gives [(3, 4), (1, 2)] and clock 6 |
| `LowLinkSamples.SixPoints` | include/algorithms/bfs_dfs/BridgesAndArticulationPoints.h:50-65 | `findArticulationPoints` on the six-vertex graph from clock 6 gives [3, 2] |
| `LowLinkSamples.BridgesFound` | tests/test_bridges_articulation.cpp:37-45 | the list [(3, 4), (1, 2)] contains edges equal to (1, 2) and (3, 4) and none equal to (2, 3) |
| `LowLinkSamples.PointsFound` | tests/test_bridges_articulation.cpp:47-50 | the list [3, 2] contains 2 and 3 and neither 1 nor 4 |
| `LowLinkSamples.SixHasShape` | tests/test_bridges_articulation.cpp:10-30 | the test's edge list gives the six vertices the neighbour lists [2], [3, 5, 1], [4, 6, 2], [3], [6, 2], [3, 5] |
| `LowLinkSamples.TriangleHasShape` | tests/test_bridges_articulation.cpp:54-65 | the triangle's edge list gives the neighbour lists [2, 3], [3, 1], [2, 1] |
| `LowLinkSamples.SixTargetsLow` | include/graph/Graph.h:231-232 | the neighbours of 1, 2 and 3 in the six-vertex graph, in edge order |
| `LowLinkSamples.SixTargetsHigh` | include/graph/Graph.h:231-232 | the neighbours of 4, 5 and 6 in the six-vertex graph, in edge order |
| `LowLinkSamples.TargetsFromSplit` | src/graph/Graph.cpp:62-76 | the neighbours of v are those among the first i edges followed by those read front to back from edge i on |
| `LowLinkSamples.TargetsForward` | src/graph/Graph.cpp:62-76 | the neighbours read from position 0 are the vertex's neighbours |
| `LowLinkSamples.ScanEnd` | include/algorithms/bfs_dfs/BridgesAndArticulationPoints.h:86 | the neighbour loop over no neighbours changes nothing |
| `LowLinkSamples.ScanSeen` | include/algorithms/bfs_dfs/BridgesAndArticulationPoints.h:98-101 | a discovered neighbour is skipped when it is the parent, and otherwise lowers `low[u]` to its discovery time |
| `LowLinkSamples.ScanNew` | include/algorithms/bfs_dfs/BridgesAndArticulationPoints.h:87-97 | an undiscovered neighbour gets u as parent, is entered, and the tests after its return are applied |
| `LowLinkSamples.ScanChild` | include/algorithms/bfs_dfs/BridgesAndArticulationPoints.h:87-97 | the step for an undiscovered neighbour with known result: the new state after the child returns |
| `LowLinkSamples.RootReturned` | include/algorithms/bfs_dfs/BridgesAndArticulationPoints.h:92-97 | after a root's first child returns with a low value no smaller than the root's, the root keeps its low value, no point is recorded, and the edge is recorded as a bridge exactly when the child's low value exceeds the root's discovery time |
| `LowLinkSamples.SweepNew` | include/algorithms/bfs_dfs/BridgesAndArticulationPoints.h:37-41 | the outer loop enters an undiscovered vertex and goes on with the rest |
| `LowLinkSamples.SweepDone` | include/algorithms/bfs_dfs/BridgesAndArticulationPoints.h:37-41 | the outer loop over vertices that are all discovered changes nothing |
| `FordFulkersonAsWritten.FirstEdgeTo` | include/algorithms/flowNetwork/FordFulkerson.h:96-97 | the edge the inner loop picks is the first edge of the parent whose target is v, and there is none exactly when no edge of the parent leads to v |
| `FordFulkersonAsWritten.AugmentAsWritten` | include/algorithms/flowNetwork/FordFulkerson.h:94-103 | the as-written walk from the sink back to the source keeps the arena well formed and changes no edge's endpoints, capacities or reverse links |
| `FordFulkersonAsWritten.StuckWf` | include/algorithms/flowNetwork/FlowNetwork.h:66-75 | the two-edge network 2 -> 1, 1 -> 2 (capacity 5 each) builds a well-formed arena, and so does every later state of the stuck run |
| `FordFulkersonAsWritten.StuckOwned` | include/algorithms/flowNetwork/FlowNetwork.h:82-86 | in that network vertex 1 holds arena edges 1 and 2 in that order, vertex 2 holds 0 and 3 |
| `FordFulkersonAsWritten.StuckSearch` | include/algorithms/flowNetwork/FordFulkerson.h:77-88 | in every stuck state the search from 1 discovers exactly 2, with parent 1, over the forward edge 1 -> 2 |
| `FordFulkersonAsWritten.StuckHop` | include/algorithms/flowNetwork/FordFulkerson.h:77-81 | in every stuck state the residual hop from 1 to 2 is arena edge 2 |
| `FordFulkersonAsWritten.TwoVertices` | include/algorithms/flowNetwork/FordFulkerson.h:88 | a repeat-free search order from a that reaches b, in a network of the two vertices a and b, is exactly [a, b] |
| `FordFulkersonAsWritten.SearchesTwoOrder` | include/algorithms/flowNetwork/FordFulkerson.h:88 | a search from a in a two-vertex network that reaches b discovered a and then b |
| `FordFulkersonAsWritten.TwoParent` | include/algorithms/flowNetwork/FordFulkerson.h:77-81 | the parent map of a search tree over [a, b] from a is exactly b to a |
| `FordFulkersonAsWritten.SearchesTwo` | include/algorithms/flowNetwork/FordFulkerson.h:77-91 | a search in a two-vertex network that reaches the sink has a single tree edge, the residual hop from source to sink |
| `FordFulkersonAsWritten.AsWrittenNeverTerminates` | include/algorithms/flowNetwork/FordFulkerson.h:38-53 | on the stuck network every round returns 5 and only moves the flow of reverse edge 1 -> 2 (capacity 0) further, breaking 0 <= flow <= capacity, so the loop never stops |
| `FordFulkersonAsWritten.StuckAugment` | include/algorithms/flowNetwork/FordFulkerson.h:94-103 | the as-written walk over the tree 1 -> 2 pushes 5 onto arena edge 1, the reverse of 2 -> 1, not onto the tree edge |
| `FordFulkersonAsWritten.AsWrittenPushesOtherEdge` | include/algorithms/flowNetwork/FordFulkerson.h:96-99 | the tree edge the search followed (arena edge 2) and the first edge of vertex 1 into 2 (arena edge 1) differ |
| `FordFulkersonAsWritten.StuckNetworkMaxFlow` | include/algorithms/flowNetwork/FordFulkerson.h:38-53 | on the stuck network every cut separating 1 from 2 has capacity at least 5 and one has exactly 5, so the maximum flow the corrected solver must reach is 5 |
| `BellmanFord.Touch` | include/algorithms/find_distance/BellmanFord.h:35-36 | evaluating `distances[v]` adds v as a key and changes no vertex's reading: a missing key reads 0 before and after |
| `BellmanFord.CheckErrSticks` | include/algorithms/find_distance/BellmanFord.h:42-47 | once some edge of the final pass has thrown, the whole pass throws that same error |
| `BellmanFord.ReadOperands` | include/algorithms/find_distance/BellmanFord.h:35-36 | the test reads the source, and the target only when the source is finite, inserting 0 for each missing key it reads |
| `BellmanFord.Initialize` | include/algorithms/find_distance/BellmanFord.h:27-31 | the loop leaves the initial distance map: every listed vertex at INF, then the start at 0 |
| `BellmanFord.RelaxRound` | include/algorithms/find_distance/BellmanFord.h:34-39 | the edge loop leaves the map of one round, relaxing the edges in list order |
| `BellmanFord.CheckEdges` | include/algorithms/find_distance/BellmanFord.h:42-47 | the check loop throws at the first edge that can still be relaxed and otherwise returns the map after all its reads |
| `BellmanFord.Run` | include/algorithms/find_distance/BellmanFord.h:24-50 | the method returns or throws exactly what the specification of `BellmanFord(graph, start)` gives, running `size() - 1` rounds in `size_t` |
| `BellmanFordTheory.UnsetFacts` | include/algorithms/find_distance/BellmanFord.h:28-30 | after the first loop the keys are exactly the listed vertices and each reads INF |
| `BellmanFordTheory.InitialFacts` | include/algorithms/find_distance/BellmanFord.h:27-31 | before the rounds the keys are the listed vertices plus the start, the start reads 0 and every other key INF |
| `BellmanFordTheory.RelaxLowers` | include/algorithms/find_distance/BellmanFord.h:35-38 | relaxing an edge never raises a reading, changes no vertex but its target, and adds at most its endpoints as keys |
| `BellmanFordTheory.RelaxReaches` | include/algorithms/find_distance/BellmanFord.h:35-38 | after relaxing an edge its target reads at most its source plus its weight |
| `BellmanFordTheory.LowerTrans` | include/algorithms/find_distance/BellmanFord.h:33-40 | never raising a reading and keeping every key compose over successive steps |
| `BellmanFordTheory.RoundLowers` | include/algorithms/find_distance/BellmanFord.h:34-39 | one round never raises a reading, keeps every key and adds only endpoints of edges |
| `BellmanFordTheory.RoundsLowers` | include/algorithms/find_distance/BellmanFord.h:33-40 | any number of rounds never raises a reading, keeps every key and adds only endpoints of edges |
| `BellmanFordTheory.RoundSplit` | include/algorithms/find_distance/BellmanFord.h:34-39 | a round is the round over the first j edges followed by the round over the rest |
| `BellmanFordTheory.RoundEdge` | include/algorithms/find_distance/BellmanFord.h:34-39 | after a round every edge's target reads at most what its source read before the round plus its weight |
| `BellmanFordTheory.RoundsBound` | include/algorithms/find_distance/BellmanFord.h:33-40 | after k rounds from a start at most 0, every vertex reads at most the weight of every walk of at most k edges from the start |
| `BellmanFordTheory.InitialSound` | include/algorithms/find_distance/BellmanFord.h:27-31 | the initial map holds every listed vertex and its only finite reading, the start's 0, is the weight of the empty walk |
| `BellmanFordTheory.RelaxSound` | include/algorithms/find_distance/BellmanFord.h:35-38 | relaxing a graph edge keeps every listed key and keeps every finite reading the weight of a walk from a seed |
| `BellmanFordTheory.RoundSound` | include/algorithms/find_distance/BellmanFord.h:34-39 | relaxing any sequence of graph edges keeps the map sound |
| `BellmanFordTheory.RoundsSound` | include/algorithms/find_distance/BellmanFord.h:33-40 | any number of rounds keeps the map sound |
| `BellmanFordTheory.CheckFacts` | include/algorithms/find_distance/BellmanFord.h:42-47 | the final pass throws exactly when some edge can still be relaxed; otherwise it only adds endpoint keys and changes no reading |
| `BellmanFordTheory.SettledWalk` | include/algorithms/find_distance/BellmanFord.h:42-47 | when no edge can be relaxed, along every walk from a finite vertex the end is finite and reads at most the start plus the walk's weight |
| `BellmanFordTheory.BellmanFordSound` | include/algorithms/find_distance/BellmanFord.h:24-50 | for every graph: the run throws exactly when an edge can still be relaxed after the rounds; otherwise every listed vertex and the start have a key, the start reads at most 0, and each finite reading is the weight of a walk from a seed |
| `BellmanFordTheory.ClosedKeys` | include/algorithms/find_distance/BellmanFord.h:27-49 | on a graph whose edges join listed vertices, starting at a listed vertex, no key beyond the listed vertices is ever added |
| `BellmanFordTheory.FromStart` | include/algorithms/find_distance/BellmanFord.h:33-40 | on such a graph a finite reading of a listed vertex is the weight of a walk from the start itself |
| `BellmanFordTheory.NoCycleSettles` | include/algorithms/find_distance/BellmanFord.h:33-47 | with no negative cycle reachable from the start, no edge can be relaxed after the `size() - 1` rounds |
| `BellmanFordTheory.StartFinite` | include/algorithms/find_distance/BellmanFord.h:31-40 | after the rounds the start reads a finite value of at most 0 |
| `BellmanFordTheory.BellmanFordDetects` | include/algorithms/find_distance/BellmanFord.h:42-47 | on a graph whose edges join listed vertices, the run throws `runtime_error` exactly when a negative-weight cycle can be reached from the start |
| `BellmanFordTheory.BellmanFordShortest` | include/algorithms/find_distance/BellmanFord.h:24-50 | on such a graph a run that returns maps each listed vertex, and only those, to its shortest distance from the start, INF exactly when no walk reaches it |
| `BellmanFordSamples.NegativeCycleThrows` | tests/test_bellman_ford.cpp:55-65 | the cycle 0 -> 1 -> 2 -> 0 of weight -2 makes the run throw |
| `BellmanFordSamples.StaysAtZero` | tests/test_bellman_ford.cpp:141-151 | in the self-loop graph every walk from 0 ends at 0 and uses only the loop at 0 |
| `BellmanFordSamples.NoCycleFromZero` | tests/test_bellman_ford.cpp:141-151 | the negative loop at 1 cannot be reached from 0 |
| `BellmanFordSamples.SelfLoopsUnreached` | tests/test_bellman_ford.cpp:141-151 | the run on the self-loop graph returns 0 for vertex 0 and INF for vertex 1 |
| `DijkstraQueue.TopExists` | include/algorithms/find_distance/Dijkstra.h:39-40 | a nonempty queue has an entry whose distance is no larger than any other's, the one `pq.top()` returns |
| `DijkstraQueue.StartState` | include/algorithms/find_distance/Dijkstra.h:23-36 | before the loop (every id at INF, the start at 0, the single entry {0, start}) the queue discipline holds, nothing is settled, and the start's distance is the empty walk |
| `DijkstraQueue.PopStale` | include/algorithms/find_distance/Dijkstra.h:43 | popping a least entry that is larger than its vertex's distance keeps the queue discipline with the popped distance as the new floor |
| `DijkstraQueue.PopFresh` | include/algorithms/find_distance/Dijkstra.h:39-43 | a least entry that is not stale holds exactly its vertex's distance, that vertex is not yet settled, and settling it keeps the discipline |
| `DijkstraQueue.VertexOfId` | include/algorithms/find_distance/Dijkstra.h:26 | a vertex is the vertex of its own id, so `distances[v.id]` names v |
| `DijkstraQueue.Lowering` | include/algorithms/find_distance/Dijkstra.h:47-49 | lowering a vertex to a distance no smaller than the last pop and pushing that entry keeps the discipline, and a settled vertex is never lowered |
| `DijkstraQueue.LoweringKeepsRelaxed` | include/algorithms/find_distance/Dijkstra.h:47-48 | lowering an unsettled vertex keeps every edge out of a settled vertex relaxed |
| `DijkstraQueue.LoweringKeepsWalked` | include/algorithms/find_distance/Dijkstra.h:47-48 | lowering v to the distance of u plus the weight of an edge u -> v keeps every finite distance the weight of a walk from the start |
| `DijkstraQueue.RelaxedWalk` | include/algorithms/find_distance/Dijkstra.h:38-52 | when every finite vertex is settled and relaxed, along every walk from a finite vertex the end is finite and at most the start plus the walk's weight |
| `DijkstraQueue.EmptyQueueShortest` | include/algorithms/find_distance/Dijkstra.h:38-54 | when the queue is empty each id holds its shortest distance from the start, INF exactly when no walk leads there |
| `Dijkstra.FirstIsOnly` | src/graph/WeightedGraph.cpp:15-26 | without duplicate edges `getEdgeWeight(s, t)` returns the weight of the one edge from s to t |
| `Dijkstra.ListedInRange` | include/algorithms/find_distance/Dijkstra.h:24-26 | when the ids of the vertices are 0 .. n - 1 for n vertices every edge endpoint indexes the distance vector |
| `Dijkstra.NearKept` | include/algorithms/find_distance/Dijkstra.h:45-51 | lowering distances keeps the neighbours visited so far within their edge weight of u and adds the neighbour just visited |
| `Dijkstra.ScanComplete` | include/algorithms/find_distance/Dijkstra.h:45-51 | once every neighbour is within its edge weight of u, every edge out of u is relaxed, so u joins the settled set |
| `Dijkstra.LowerNeighbour` | include/algorithms/find_distance/Dijkstra.h:47-49 | lowering the neighbour v of the settled u to `d[u] + weight` and pushing it lowers only v, keeps the queue discipline, the settled edges relaxed and every finite distance walked |
| `Dijkstra.Visit` | include/algorithms/find_distance/Dijkstra.h:46-50 | for one neighbour: distances only fall, u keeps its distance, v ends within `getEdgeWeight(u, v)` of u, and the search state is kept |
| `Dijkstra.ScanNeighbours` | include/algorithms/find_distance/Dijkstra.h:45-51 | after all neighbours of the fresh u: distances only fall, the search state is kept and every edge out of u is relaxed |
| `Dijkstra.Pop` | include/algorithms/find_distance/Dijkstra.h:39-41 | top then pop removes one entry of least distance |
| `Dijkstra.Settle` | include/algorithms/find_distance/Dijkstra.h:39-51 | one loop round keeps the search state and either settles a new vertex or shrinks the queue, so the loop ends |
| `Dijkstra.Run` | include/algorithms/find_distance/Dijkstra.h:21-55 | on a graph with ids 0 .. n - 1 for n vertices and no negative weight, entry i of the result is the shortest distance from the start to vertex i, INF exactly when no walk reaches it |
| `FloydWarshall.BaseShape` | include/algorithms/find_distance/FloydWarshall.h:24-29 | the base matrix is n by n with 0 on the diagonal and INF everywhere else |
| `FloydWarshall.Fresh` | include/algorithms/find_distance/FloydWarshall.h:22-29 | a new n-by-n array holding INF everywhere and 0 on the diagonal |
| `FloydWarshall.Place` | include/algorithms/find_distance/FloydWarshall.h:32 | writing one cell leaves the array holding the matrix with exactly that cell replaced |
| `FloydWarshall.Initialize` | include/algorithms/find_distance/FloydWarshall.h:22-33 | a new n-by-n array holding the initial matrix: the base matrix overwritten by each edge's weight in list order |
| `FloydWarshall.Cell` | include/algorithms/find_distance/FloydWarshall.h:38-41 | one inner step writes the min of the cell and the route through k, never raises a cell, keeps every finite cell the cost of a route, and advances the round to the next cell |
| `FloydWarshall.Row` | include/algorithms/find_distance/FloydWarshall.h:37-42 | one row of round k keeps the matrix below the initial one and witnessed and advances the round to the next row |
| `FloydWarshall.Round` | include/algorithms/find_distance/FloydWarshall.h:36-43 | round k keeps the matrix below the initial one and witnessed, and, without a negative cycle, every cell then bounds every route through ids below k + 1 |
| `FloydWarshall.Relax` | include/algorithms/find_distance/FloydWarshall.h:35-44 | the triple loop never raises a cell, leaves each finite cell the cost of a route of the initial matrix, and without a negative cycle leaves every cell the least such cost, INF exactly when there is no route |
| `FloydWarshall.Contents` | include/algorithms/find_distance/FloydWarshall.h:46 | the returned matrix is the one the array holds |
| `FloydWarshall.Run` | include/algorithms/find_distance/FloydWarshall.h:20-47 | on a graph whose edge ids index the matrix: no cell exceeds the initial one, every finite cell is the cost of a route, and without a negative cycle every cell is the shortest route cost |
| `FloydWarshallTheory.LastWeightIsLast` | include/algorithms/find_distance/FloydWarshall.h:31-33 | the weight left in a cell is that of the last edge between its ids, and there is none exactly when no edge joins them |
| `FloydWarshallTheory.WrittenSquare` | include/algorithms/find_distance/FloydWarshall.h:31-33 | writing edges keeps the matrix n by n |
| `FloydWarshallTheory.WrittenEntry` | include/algorithms/find_distance/FloydWarshall.h:31-33 | after the edge loop each cell holds the weight of the last edge between its ids, or its old value when there is none |
| `FloydWarshallTheory.InitialEntry` | include/algorithms/find_distance/FloydWarshall.h:22-33 | cell (s, t) of the initial matrix is the last edge weight from s to t if any, else 0 on the diagonal and INF elsewhere, so a self-loop overwrites the zero diagonal |
| `FloydWarshallTheory.CostSplit` | include/algorithms/find_distance/FloydWarshall.h:38-40 | the cost of a route is its cost up to any of its ids plus its cost from there |
| `FloydWarshallTheory.RouteJoin` | include/algorithms/find_distance/FloydWarshall.h:38-40 | routes i to k and k to j join to a route i to j whose cost is their sum |
| `FloydWarshallTheory.RouteSlice` | include/algorithms/find_distance/FloydWarshall.h:38-40 | every stretch of a route is a route between its ends |
| `FloydWarshallTheory.FirstVisit` | include/algorithms/find_distance/FloydWarshall.h:35-44 | the first visit to k from a given index on, when the route is at k later |
| `FloydWarshallTheory.LastVisit` | include/algorithms/find_distance/FloydWarshall.h:35-44 | the last visit to k up to a given index, when the route is at k earlier |
| `FloydWarshallTheory.CostAround` | include/algorithms/find_distance/FloydWarshall.h:38-40 | the cost of a route is the sum over its three stretches cut at two indices |
| `FloydWarshallTheory.HeadBelow` | include/algorithms/find_distance/FloydWarshall.h:35-44 | the stretch of a route up to its first visit to k has no interior id k or above |
| `FloydWarshallTheory.TailBelow` | include/algorithms/find_distance/FloydWarshall.h:35-44 | the stretch of a route from its last visit to k has no interior id k or above |
| `FloydWarshallTheory.SplitAtTop` | include/algorithms/find_distance/FloydWarshall.h:35-44 | without a negative cycle, a route through ids below k + 1 that visits k splits into routes i to k and k to j through ids below k that cost no more together |
| `FloydWarshallTheory.WitnessedWrite` | include/algorithms/find_distance/FloydWarshall.h:40 | writing a finite cell with a route of that cost keeps every finite cell witnessed by a route |
| `FloydWarshallTheory.CellWitnessed` | include/algorithms/find_distance/FloydWarshall.h:38-41 | the inner step keeps every finite cell the cost of its witness route |
| `FloydWarshallTheory.CellBelow` | include/algorithms/find_distance/FloydWarshall.h:38-41 | the inner step never raises a cell above the initial matrix |
| `FloydWarshallTheory.CellBounded` | include/algorithms/find_distance/FloydWarshall.h:38-41 | without a negative cycle, if cells (i, j), (i, k) and (k, j) bound the routes through ids below k, the updated (i, j) bounds those through ids below k + 1 |
| `FloydWarshallTheory.CellProgress` | include/algorithms/find_distance/FloydWarshall.h:38-41 | without a negative cycle the inner step at (i, j) of round k advances the round's progress to the next cell |
| `FloydWarshallTheory.RowDone` | include/algorithms/find_distance/FloydWarshall.h:37-42 | a finished row moves the round on to the next row |
| `FloydWarshallTheory.RoundDone` | include/algorithms/find_distance/FloydWarshall.h:36-43 | a finished round k moves on to round k + 1 |
| `FloydWarshallTheory.Direct` | include/algorithms/find_distance/FloydWarshall.h:31-33 | the direct hop routes, one per cell, all of the matrix's shape |
| `FloydWarshallTheory.StartState` | include/algorithms/find_distance/FloydWarshall.h:31-35 | before round 0 each finite cell is its direct hop and bounds every route with no interior id |
| `FloydWarshallTheory.WitnessedSound` | include/algorithms/find_distance/FloydWarshall.h:35-44 | witnessed cells are sound: each finite cell is the cost of some route |
| `FloydWarshallTheory.RouteInside` | include/algorithms/find_distance/FloydWarshall.h:35-44 | a route of an n-by-n matrix visits only ids below n |
| `FloydWarshallTheory.AllShortest` | include/algorithms/find_distance/FloydWarshall.h:35-46 | after the last round every cell is the least route cost of the initial matrix, INF exactly when there is no route |
| `FloydWarshallSamples.RouteInit` | tests/test_floyd_warshall.cpp:31-52 | a route without its last id is a route to the id before it |
| `FloydWarshallSamples.Telescope` | tests/test_floyd_warshall.cpp:31-68 | under a potential every route costs the difference of the potential at its ends |
| `FloydWarshallSamples.UpwardRoute` | tests/test_floyd_warshall.cpp:31-68 | when every finite hop goes upward, a route never ends below its start |
| `FloydWarshallSamples.PotentialNoCycle` | tests/test_floyd_warshall.cpp:31-68 | under a potential no cycle has negative cost |
| `FloydWarshallSamples.PotentialShortest` | tests/test_floyd_warshall.cpp:31-68 | under a potential the shortest route cost, when a route exists, is the difference of the potential |
| `FloydWarshallSamples.UpwardNoRoute` | tests/test_floyd_warshall.cpp:31-52 | below the diagonal of an upward matrix there is no route, so the shortest cost is INF |
| `FloydWarshallSamples.UpwardCells` | tests/test_floyd_warshall.cpp:31-68 | a finished run on an upward matrix with a potential holds the potential's difference on and above the diagonal and INF below |
| `FloydWarshallSamples.ChainEdgeAt` | tests/test_floyd_warshall.cpp:36-38 | edge q of the chain sample runs from q to q + 1 with weight 1 |
| `FloydWarshallSamples.ChainLast` | tests/test_floyd_warshall.cpp:36-38 | the only edge between two ids of the chain is the one from s to s + 1 |
| `FloydWarshallSamples.ChainEntry` | tests/test_floyd_warshall.cpp:31-40 | the initial chain matrix is 1 just above the diagonal, 0 on it and INF elsewhere |
| `FloydWarshallSamples.ChainShape` | tests/test_floyd_warshall.cpp:31-40 | the chain matrix has the potential x and is upward |
| `FloydWarshallSamples.ChainRoute` | tests/test_floyd_warshall.cpp:31-40 | the chain matrix has the route i, i + 1, ..., j for every i <= j |
| `FloydWarshallSamples.ChainDistances` | tests/test_floyd_warshall.cpp:31-52 | on the chain 0 -> 1 -> ... -> m of weight-1 edges the finished matrix holds j - i on and above the diagonal and INF below |
| `FloydWarshallSamples.EmptyShape` | tests/test_floyd_warshall.cpp:70-76 | with no edges the initial matrix has the zero potential |
| `FloydWarshallSamples.DisconnectedDistances` | tests/test_floyd_warshall.cpp:70-86 | with no edges the finished matrix is 0 on the diagonal and INF everywhere else |
| `FloydWarshallSamples.Stuck` | tests/test_floyd_warshall.cpp:70-86 | with no edges a route never leaves its start |
| `FloydWarshallSamples.NegativeLast` | tests/test_floyd_warshall.cpp:54-61 | the edges of the negative sample are 0 -> 1 (-1), 1 -> 2 (-2) and 0 -> 2 (-3) |
| `FloydWarshallSamples.NegativeShape` | tests/test_floyd_warshall.cpp:54-63 | the initial matrix of the negative sample has the potential 0, -1, -3, is upward and is finite on and above the diagonal |
| `FloydWarshallSamples.NegativeCell` | tests/test_floyd_warshall.cpp:54-68 | each cell of a finished run on the negative sample is the potential difference on and above the diagonal and INF below |
| `FloydWarshallSamples.NegativeDistances` | tests/test_floyd_warshall.cpp:54-68 | the finished matrix of the negative sample holds -1 at (0, 1), -2 at (1, 2), -3 at (0, 2), 0 on the diagonal and INF below it |
| `FlowSamples.CutFromSplit` | include/algorithms/flowNetwork/FlowNetwork.h:48-55 | the cut capacity of the base graph is that of its first i edges plus what the rest add |
| `FlowSamples.BaseCutForward` | include/algorithms/flowNetwork/FlowNetwork.h:48-55 | the cut capacity of the base graph is the sum front to back of the capacities of its edges that leave the cut |
| `FlowSamples.SolverReturns` | include/algorithms/flowNetwork/FordFulkerson.h:38-53 | a run that ends as each `computeMaxFlow` ensures (same shape, feasible conserved flow, residual-closed cut, value the growth of the source's outflow) returns exactly the minimum cut capacity of the base graph, whichever solver ran |
| `FlowSamples.SimpleMinCut` | tests/test_network.cpp:31-38 | on the base flow graph every cut separating 1 from 4 has capacity at least 18 and {1, 2, 3} has exactly 18, the value the test expects |
| `FlowSamples.SinglePathMinCut` | tests/test_network.cpp:40-55 | on the single path 1 -> 2 -> 3 the minimum cut capacity is 5, the value the test expects |
| `FlowSamples.DiamondMinCut` | tests/test_network.cpp:57-75 | on the diamond the minimum cut capacity is 9, reached by {1, 2} |
| `FlowSamples.DiamondNotEleven` | tests/test_network.cpp:57-75 | 11, the value the diamond test expects, is not the maximum flow |
| `FlowSamples.ComplexMinCut` | tests/test_network.cpp:77-100 | on the six-vertex network the minimum cut capacity from 1 to 6 is 23, the value the test expects |
| `FlowSamples.NoPathMinCut` | tests/test_network.cpp:102-118 | with no path from 1 to 4 the minimum cut capacity is 0, the value the test expects |
| `FlowSamples.MultipleMinCut` | tests/test_network.cpp:192-214 | on the seven-vertex network the minimum cut capacity from 1 to 7 is 5, reached by {1, 2, 3} |
| `FlowSamples.MultipleNotSix` | tests/test_network.cpp:192-214 | 6, the value that test expects, is not the maximum flow |
| `FlowSamples.LargeMinCut` | tests/test_network.cpp:288-315 | on the ten-vertex network the minimum cut capacity from 1 to 8 is 30, the value the test expects |

## Left out

- Console output of the visitors (`DefaultVisitor` prints to stdout). Visitor calls are modelled as an appended trace of events (`visitVertex`, `examineEdge`, `treeEdge`, `finishVertex`); the hook-only visitor bases have no behaviour of their own.
- `include/algorithms/BFS.h`, `include/algorithms/DFS.h` and `include/algorithms/BridgesAndArticulationPoints.h`: broken duplicates of the `bfs_dfs` versions. They stop neighbour iteration at another vertex's iterator and call functions that do not exist. Only the `bfs_dfs` files are modelled.
- `include/algorithms/bfs_dfs/DFS.h` is not part of this model. The Ford-Fulkerson search is modelled as a recursive depth-first search from the source. It follows only edges with `flow < capacity` and reports a tree edge on each first discovery.
- Neighbour functions that return iterators into local or static vectors return dangling iterators. They are modelled as functions returning the sequence of neighbours, so iterator identity is not modelled.
- Hashing (`std::hash<Vertex>` hashes only the id): a vertex is its id, so the hash has no counterpart.
- `Edge` copy assignment is not modelled because edges are values.
- C++ slicing (the bridges class copies its graph by value) and pointer aliasing are not modelled.
- `FlowEdge::reverse` is an index into the arena, with -1 for a null pointer, so the invalidation of those pointers when the vector grows is not modelled. For `addEdge(v, v, c)` the model keeps the quirk of the code: the forward edge gets no reverse and the second edge points at itself.
- Capacities passed through the containers are not modelled: no container stores them. Flow networks are built from explicit (source, target, capacity) base edges.
- Integer overflow of `int` sums is not modelled; distances and flows are unbounded integers. `INT_MAX` appears only as the starting value of a bottleneck (`IntMax`), and the INF distance is a separate value.
- Dijkstra's tie order among entries of equal distance is not modelled: a pop returns any entry of least distance.
- `EdmondsKarp.EdmondsKarpSolver.Bfs`: the code runs BFS on a `getBaseGraph()` and calls network methods (`hasResidualCapacity`, `getResidualCapacity`, `addFlow`) that do not exist. The search is modelled as the BFS over the residual network that its comments describe, and those helpers are modelled as acting on the first edge p -> v with `flow < capacity`.
- `Dinic.DinicSolver.InitializePtr`: the structured binding over `FlowEdge` does not compile. It is modelled as `ptr.clear()`, so an unset entry reads 0.
- `Dinic.DinicSolver.FindBlockingFlow`: the recursion runs over values. The edge arena, the lists and `ptr` are passed down and returned, then stored back into the fields, so updates in place during the recursion are not modelled.
- `FordFulkerson.FordFulkersonSolver.ComputeMaxFlow` and `EdmondsKarp.EdmondsKarpSolver.ComputeMaxFlow` require a feasible, conserved starting flow. The network constructor gives one whenever every capacity is at least 0; for a negative capacity no claim is made. A source equal to the sink is covered: the first search finds no parent for the sink, so both return 0 and change nothing (include/algorithms/flowNetwork/FordFulkerson.h:91, include/algorithms/flowNetwork/EdmondsKarp.h:67).
- `Dinic.DinicSolver.ComputeMaxFlow` requires a feasible, conserved starting flow and `source != sink`. With the source equal to the sink, the level graph always reaches the sink and `findBlockingFlow` returns INT_MAX at once (include/algorithms/flowNetwork/Dinic.h:107), so the loop at line 45 never ends; the model claims nothing for that case.
- `Dijkstra.Run` requires vertex ids 0 .. n - 1 for n vertices, a start among them and no negative weight. The code indexes its vector by id, so other ids are out of bounds. With a negative weight it can settle a vertex too early, and no property is claimed for that case.
- `FloydWarshall.Run` requires every edge's ids to index the matrix, because the code writes `distance[source.id][target.id]`.
- `BreadthFirst.Bfs` requires the start's id and every edge endpoint's id to index the vector `d` of `|vertices| + 1` entries, which is what the code's indexing assumes.
- `WeightedGraphs.WeightedGraph.AddVertex`, `WeightedGraphs.WeightedGraph.RemoveVertex` and `WeightedGraphs.WeightedGraph.RemoveEdge`: include/graph/WeightedGraph.h declares `addVertex`, `removeVertex` and `removeEdge` for the weighted graph, but src/graph/WeightedGraph.cpp gives them no body. The model supplies the base behaviour of src/graph/Graph.cpp for them, keeping each remaining edge's weight.
- `getAdjacencyVertices` is declared without a body for the base graph (include/graph/Graph.h:231), the undirected graph (include/graph/UndirectedGraph.h:66), the edge-list graph (include/graph/EdgeListGraph.h:92) and the weighted graph (include/graph/WeightedGraph.h:77). BFS, the bridges search and Dijkstra call it. The model uses in its place the targets of the edges whose source is the vertex, in edge order, which is what the neighbour loops of src/graph/Graph.cpp compute.
- Header-only declarations, signature mismatches between headers and sources, and the gtest test framework have no counterpart. Commented-out tests are used only as sample networks.

## Findings

| source | as written | input that shows it | evidently intended | confidence | as-written member | corrected member |
|---|---|---|---|---|---|---|
| include/algorithms/flowNetwork/FordFulkerson.h:94-103 | for each hop p -> v the augmentation pushes onto the first edge of p whose target is v, whatever its residual | base edges 2 -> 1 and 1 -> 2, capacity 5 each, source 1, sink 2: the search uses 1 -> 2, but the push lands on the reverse of 2 -> 1 (capacity 0). Every round returns 5 and `computeMaxFlow` never stops | push onto the tree edge the search used (the first edge p -> v with residual) | medium (the search in `bfs_dfs/DFS.h` is not part of this model), not executed | `FordFulkersonAsWritten.AsWrittenNeverTerminates` | `FordFulkerson.FordFulkersonSolver.FindAugmentingPath` |
| src/graph/AdjacencyListGraph.cpp:30-33 | the loop binding shadows the parameter, so each vertex's own id is stripped from its own list and edges to the removed vertex stay | vertices 1, 2, edge 1 -> 2, removeVertex(2): vertex 1 still lists 2 | strip the removed vertex from every list and drop its edges | high, not executed | `AdjacencyListAsWritten.AsWrittenKeepsDanglingEdge` | `AdjacencyListGraphs.AdjacencyListGraph.RemoveVertex` |
| src/graph/AdjacencyMatrixGraph.cpp:35-61 | removeVertex shifts the matrix and `vertexToIndex` but leaves `indexToVertex` and the edge vector unchanged | vertices 1, 2, 3, edge 1 -> 3, removeVertex(2): the neighbours of 1 are reported as [2] | also close up `indexToVertex` and drop the incident edges | high, not executed | `AdjacencyMatrixAsWritten.AsWrittenReportsRemovedVertex` | `AdjacencyMatrixGraphs.AdjacencyMatrixGraph.RemoveVertex` |
| include/algorithms/bfs_dfs/BridgesAndArticulationPoints.h:141-145 | `parent[u.id]` through `operator[]` inserts parent 0 for a root, so the root then passes the non-root test | edges 1 -> 1, 1 -> 2, 2 -> 1: the root 1 has one child but is reported as an articulation point | look the parent up without inserting, so a root is judged only by its child count | high, not executed | `LowLinkAsWritten.AsWrittenReportsRoot` | `LowLinkAsWritten.CorrectedReportsNone` |

The same `parent[u.id]` insertion in `dfsBridges` (line 98) can change the root's `low`, but never the bridges. For a root it makes the search skip every already discovered neighbour with id 0. That neighbour can be discovered earlier: with vertices [0, 1] and the directed edge 1 -> 0, root 1 skips 0 and keeps `low[1] = 2` instead of 1. Only the root's own entry is affected: every other vertex gets its parent at line 88 before it is entered, so the lookup finds that parent and inserts nothing. A root's `low` is never read afterwards: it is nobody's child, so line 92 never copies it, and line 95 compares only a child's `low`. The bridge list is therefore the same with or without the insertion.
