# Graph layout DSL and graph drawing theory structures, in Dafny

This project models two parts of a graph drawing system.

The first part is the layout DSL. A user describes how a graph, or named subgraphs of it, should be laid out. They can name an algorithm with its parameters, a style (circular, tree, hierarchical, symmetric, general, automatic), or aesthetic criteria (planar, crossings, symmetric, flow, distribute, ...). The Python interpreter turns the parsed description into layout directives (`MLayoutGraph`, `MLayoutSubgraphs`). The Java layouter `DSLLayouter` then does four things:

- it splits each subgraph's target back into vertices;
- it maps each directive to a layout algorithm and the properties copied into it;
- it lays out the vertices that no subgraph claimed under the "others" directive;
- it places the drawings side by side in rows.

The second part is the graph theory library that the layouter draws on:

- graphs and paths;
- graph operations and graph properties (connectivity, cut vertices, biconnectivity, trees, multi-edges, rings);
- split pairs;
- permutations and the dihedral permutation group;
- ordered partitions;
- the LR-partition sets of the planarity test;
- PQ-tree nodes;
- the DFS tree with its lowpoints;
- biconnected splitting;
- bipartiteness testing;
- Paton's simple-cycle search.

Each source file has its own module or modules:

- `GraphElements` models Graph.java; `Paths` models Path.java; `GraphOperations` models GraphOperations.java.
- `Properties` models GraphProperties.java. `PropertiesFindings` holds the counterexamples to two of its methods.
- `SplitPairs`, `Permutations`, `PermutationGroups`, `OrderedPartitions`, `LRPartitionEdges`, `LRPartitionSets`, `PQTreeNodes`, `DFSTrees` and `Bipartiteness` each model the source file of the same class.
- BiconnectedSplitting.java has three modules. `Biconnected` holds the search. `BiconnectedPushes` covers what happens to the edge stack. `BiconnectedCover` shows that the components cover the edges.
- PatonSimpleCycles.java has three modules. `PatonCycles` holds the search. `PatonTermination` proves that the climb to a common ancestor ends, that the cycles reported are simple and that every self-loop is reported. `PatonFindings` holds the counterexamples about parallel edges.
- pythonmodels.py is `PythonModels`, Interpreter.py is `Interpreter` and DSLLayouter.java is `DSLLayouter`. `Wrappers` holds the shared `Option` and `Result` types.

Java objects whose fields the source updates in place are classes with `modifies` frames. These are:

- the graph and the path;
- the arrays of the GraphProperties depth-first search;
- the LR-partition edge and the LR-partition set;
- the ordered partition and the permutation group;
- the PQ-tree node and the DFS tree;
- the bipartite tester and the biconnected splitter;
- the positioner of `DSLLayouter`.

The Paton search is a class holding only its graph. Its method changes nothing, so it has no frame.

Loops of the source are `while` and `for` loops, each proved against a specification function. This includes the loops of the Python interpreter, such as `BuildTarget` and `Execute`. The value objects and the rest of the interpreter are functions over datatypes.

Where a method differs from what its documentation or its evident purpose promises, the model does two things. It keeps the code as written, with a lemma that exhibits the difference. It also proves the intended behaviour about a corrected definition (see "## Findings").

## Model

| member | source | states |
|---|---|---|
| GraphElements.RemoveFirstMultiset | GraphDrawingTheory/src/graph/elements/Graph.java:179-183 | `List.remove(e)` takes exactly one copy of `e` out of the list's multiset, and nothing when `e` is absent |
| GraphElements.RemoveFirstMembership | GraphDrawingTheory/src/graph/elements/Graph.java:179-183 | removing one occurrence keeps every other element, and removes `e` entirely when it occurred at most once |
| GraphElements.RemoveFirstNoDuplicates | GraphDrawingTheory/src/graph/elements/Graph.java:97 | removing a vertex from a list without repeats leaves no copy of it and no repeats |
| GraphElements.EmptyGraph | GraphDrawingTheory/src/graph/elements/Graph.java:43-49 | a new graph has no vertices and no edges, and satisfies the graph invariant |
| GraphElements.AddVertexValid | GraphDrawingTheory/src/graph/elements/Graph.java:83-89 | addVertex keeps the invariant, lists the vertex, keeps the edges, and does nothing for a vertex already there, so adding twice is adding once |
| GraphElements.AddVertexContent | GraphDrawingTheory/src/graph/elements/Graph.java:88 | a newly added vertex is found by its content; adding a present vertex leaves the content index unchanged |
| GraphElements.AddEdgeValid | GraphDrawingTheory/src/graph/elements/Graph.java:109-123 | addEdge keeps the invariant and ignores an edge already listed; a new edge is listed and appended to its origin's list, and in an undirected graph to its destination's list too |
| GraphElements.AddEdgeCounted | GraphDrawingTheory/src/graph/elements/Graph.java:115-120 | after adding a new edge, each adjacency list holds every edge at most once per endpoint it has there |
| GraphElements.AddEdgeListed | GraphDrawingTheory/src/graph/elements/Graph.java:114-120 | after adding a new edge, every edge in an adjacency list is also in the edge list |
| GraphElements.AddEdgeDegree | GraphDrawingTheory/src/graph/elements/Graph.java:109-123 | a new edge raises its origin's vertexDegree by one; in an undirected graph it raises its destination's too, so a self-loop counts twice; no other degree changes |
| GraphElements.RemoveEdgeValid | GraphDrawingTheory/src/graph/elements/Graph.java:178-184 | removeEdge keeps the vertices and the set of adjacency-list owners, and removes the edge from the edge list and from every adjacency list |
| GraphElements.RemoveEdgeCounted | GraphDrawingTheory/src/graph/elements/Graph.java:180-183 | after removeEdge no adjacency list holds the edge, and the per-endpoint count bound still holds |
| GraphElements.RemoveEdgeListed | GraphDrawingTheory/src/graph/elements/Graph.java:178-184 | after removeEdge every edge in an adjacency list is still in the edge list |
| GraphElements.RemoveEdgeKeepsOthers | GraphDrawingTheory/src/graph/elements/Graph.java:178-184 | removeEdge leaves the count of every other edge in every adjacency list unchanged |
| GraphElements.RemoveEdgesValid | GraphDrawingTheory/src/graph/elements/Graph.java:98-102 | removing a copied list of edges one at a time keeps the vertices and list owners, removes exactly those edges, and keeps every other edge |
| GraphElements.RemoveVertexValid | GraphDrawingTheory/src/graph/elements/Graph.java:96-105 | on a listed vertex, removeVertex keeps the invariant; afterwards the vertex is neither listed nor owns a list, and the edges are exactly the old edges not at it |
| GraphElements.EdgesAt | GraphDrawingTheory/src/graph/elements/Graph.java:271-277 | allEdges(v) holds exactly the listed edges with v as origin or destination, and no more than there are edges |
| GraphElements.HasEdgeSymmetric | GraphDrawingTheory/src/graph/elements/Graph.java:131-145 | in an undirected graph where both vertices have lists, hasEdge answers and does not depend on the order of its arguments |
| GraphElements.HasEdgeAfterAddEdge | GraphDrawingTheory/src/graph/elements/Graph.java:109-145 | after addEdge in an undirected graph, hasEdge holds between the two ends in both orders |
| GraphElements.NeighbourFoldSpec | GraphDrawingTheory/src/graph/elements/Graph.java:204-213 | adjacentVertices lists no vertex twice, and lists u exactly when some edge of v's list leads to u |
| GraphElements.Graph.constructor | GraphDrawingTheory/src/graph/elements/Graph.java:62-65 | `new Graph(directed)` is the empty graph with that direction |
| GraphElements.Graph.AddVertex | GraphDrawingTheory/src/graph/elements/Graph.java:83-89 | the object's new state is the value-level addVertex of its old state |
| GraphElements.Graph.AddEdge | GraphDrawingTheory/src/graph/elements/Graph.java:109-123 | the object's new state is the value-level addEdge of its old state |
| GraphElements.Graph.RemoveEdge | GraphDrawingTheory/src/graph/elements/Graph.java:178-184 | the object's new state is the value-level removeEdge of its old state |
| GraphElements.Graph.RemoveVertex | GraphDrawingTheory/src/graph/elements/Graph.java:96-105 | it reports the NullPointerException exactly when v has no adjacency list, and then v has left only the vertex list; otherwise the new state is the value-level removeVertex |
| GraphElements.Graph.RemoveEdges | GraphDrawingTheory/src/graph/elements/Graph.java:98-102 | the loop of removeVertex has the effect of removeEdge applied to each edge in turn |
| GraphElements.Graph.HasEdge | GraphDrawingTheory/src/graph/elements/Graph.java:131-145 | the two loops answer as the value-level hasEdge, with None where a missing list is dereferenced |
| GraphElements.Graph.AllEdges | GraphDrawingTheory/src/graph/elements/Graph.java:271-277 | the loop returns the edges at v in list order |
| GraphElements.Graph.AdjacentVertices | GraphDrawingTheory/src/graph/elements/Graph.java:204-213 | the loop returns the far ends of v's edges in order of first appearance, without repeats |
| GraphElements.Graph.VertexDegree | GraphDrawingTheory/src/graph/elements/Graph.java:326-328 | the size of v's adjacency list, or None where v has none |
| GraphElements.Graph.GetVertexByContent | GraphDrawingTheory/src/graph/elements/Graph.java:444-446 | the content index answers as the value-level lookup: the last added vertex with that content |
| Paths.AddUnique | GraphDrawingTheory/src/graph/elements/Path.java:70-73 | adding a vertex unless present adds exactly it, and keeps a list without repeats free of repeats |
| Paths.Walk | GraphDrawingTheory/src/graph/elements/Path.java:155-172 | the walk of a path has one vertex more than it has edges, and none when it is empty |
| Paths.WalkShape | GraphDrawingTheory/src/graph/elements/Path.java:158-170 | the walk starts at the traversal start of the first edge, and its (i+1)-th vertex is where the i-th edge ends |
| Paths.WalkOnceSpec | GraphDrawingTheory/src/graph/elements/Path.java:179-202 | pathVertivesWithoutDuplicates lists every vertex of the walk, and each only once |
| Paths.SingleEdgeCalledCyclic | GraphDrawingTheory/src/graph/elements/Path.java:111-125 | as written, a one-edge path between two different vertices is reported cyclic; the corrected check says it is not |
| Paths.IsCyclicClosesWalk | GraphDrawingTheory/src/graph/elements/Path.java:107-111 | the corrected isCyclic holds exactly when the walk ends where it starts |
| Paths.Path.constructor | GraphDrawingTheory/src/graph/elements/Path.java:33-35 | a new path has no edges, directions or vertices |
| Paths.Path.AddEdge | GraphDrawingTheory/src/graph/elements/Path.java:65-74 | the edge and its direction are appended together; the destination, then the origin, join the unique vertices unless already there; the invariant is kept |
| Paths.Path.Size | GraphDrawingTheory/src/graph/elements/Path.java:103-105 | size() is the number of edges, which is also the number of directions |
| Paths.Path.ContainsDuplicates | GraphDrawingTheory/src/graph/elements/Path.java:146-149 | as written, it answers true exactly when NO edge repeats |
| Paths.Path.ContainsDuplicatesIntended | GraphDrawingTheory/src/graph/elements/Path.java:141-146 | the documented answer: true exactly when some edge repeats |
| Paths.Path.PathVertices | GraphDrawingTheory/src/graph/elements/Path.java:155-172 | the loop returns the walk, one vertex more than the path's size when it is not empty |
| Paths.Path.PathVerticesWithoutDuplicates | GraphDrawingTheory/src/graph/elements/Path.java:179-202 | the loop returns the walk's vertices without repeats, each vertex of the walk appearing |
| Paths.Path.IsCyclic | GraphDrawingTheory/src/graph/elements/Path.java:111-125 | the as-written comparison, with None for an empty path (IndexOutOfBoundsException) |
| GraphOperations.Common | GraphDrawingTheory/src/graph/operations/GraphOperations.java:27-31 | the members of the first list also in the second, in the first's order, without repeats when the first has none |
| GraphOperations.VerticesInCommon | GraphDrawingTheory/src/graph/operations/GraphOperations.java:25-32 | exactly the vertices of graph1 that graph2 has, in graph1's order |
| GraphOperations.EdgesInCommon | GraphDrawingTheory/src/graph/operations/GraphOperations.java:41-48 | exactly the edges of graph1 that graph2 has, in graph1's order |
| GraphOperations.IsSubgraph | GraphDrawingTheory/src/graph/operations/GraphOperations.java:79-89 | true exactly when every vertex and every edge of the subgraph is in the supergraph |
| GraphOperations.ProperSubgraphMissesSomething | GraphDrawingTheory/src/graph/operations/GraphOperations.java:99-108 | for valid graphs, the size comparison is exact: a proper subgraph is a subgraph that lacks some vertex or edge of the supergraph |
| GraphOperations.AddVerticesSpec | GraphDrawingTheory/src/graph/operations/GraphOperations.java:60-62 | adding vertices keeps the graph valid, adds exactly them, keeps the edges, and appends them in order when none was there |
| GraphOperations.AddEdgesSpec | GraphDrawingTheory/src/graph/operations/GraphOperations.java:64-66 | adding edges keeps the graph valid, adds exactly them and keeps the vertices |
| GraphOperations.UnionSpec | GraphDrawingTheory/src/graph/operations/GraphOperations.java:57-70 | the union is valid, so each vertex and edge appears once, and its vertices and edges are exactly those of the given graphs |
| GraphOperations.UnionStep | GraphDrawingTheory/src/graph/operations/GraphOperations.java:59-67 | one more graph adds exactly its own vertices and edges to those already in the union |
| GraphOperations.AddAllVertices | GraphDrawingTheory/src/graph/operations/GraphOperations.java:60-62 | the loop's effect on the graph object is the value-level addition of the vertices |
| GraphOperations.AddAllEdges | GraphDrawingTheory/src/graph/operations/GraphOperations.java:64-66 | the loop's effect on the graph object is the value-level addition of the edges |
| GraphOperations.UnionOf | GraphDrawingTheory/src/graph/operations/GraphOperations.java:57-70 | union builds a fresh graph object whose state is the value-level union |
| GraphOperations.RemoveEdgeFromGraphSpec | GraphDrawingTheory/src/graph/operations/GraphOperations.java:116-120 | the copy is a valid undirected graph with the same vertices and every edge of the original except the removed one |
| GraphOperations.RemoveEdgeFromGraphOf | GraphDrawingTheory/src/graph/operations/GraphOperations.java:116-120 | a fresh graph object holds the copy without the edge; the original object is not changed |
| GraphOperations.CycleStep | GraphDrawingTheory/src/graph/operations/GraphOperations.java:133-139 | one round of the loop adds vertex k and the edge from it to vertex k+1 |
| GraphOperations.CyclePrefixSpec | GraphDrawingTheory/src/graph/operations/GraphOperations.java:133-139 | after k rounds the graph holds the first k vertices and the first k cycle edges, in order |
| GraphOperations.FormCycleGraphSpec | GraphDrawingTheory/src/graph/operations/GraphOperations.java:129-150 | on two or more distinct vertices the result is a valid undirected graph on exactly them, with edges from each vertex to the next and from the last back to the first |
| GraphOperations.FormCycleGraph | GraphDrawingTheory/src/graph/operations/GraphOperations.java:129-150 | formCycleGraph as written: each vertex with an edge to the next, then the last vertex and the closing edge; none with fewer than two vertices |
| GraphOperations.FormCycleGraphIntended | GraphDrawingTheory/src/graph/operations/GraphOperations.java:129-150 | the one-vertex case as evidently intended: the vertex with a loop on it; otherwise as written |
| GraphOperations.OneVertexCycle | GraphDrawingTheory/src/graph/operations/GraphOperations.java:141-147 | on a single vertex the code as written gives no graph (the null `current` is dereferenced); the intended result is that vertex with one self-loop |
| GraphOperations.FormCycleGraphOf | GraphDrawingTheory/src/graph/operations/GraphOperations.java:129-150 | the method on a graph object reports the NullPointerException exactly where the value-level model fails, and otherwise builds that graph |
| Properties.IndexOf | GraphDrawingTheory/src/graph/properties/GraphProperties.java:76 | `indexOf` gives the first position holding the vertex |
| Properties.IndexOfUnique | GraphDrawingTheory/src/graph/properties/GraphProperties.java:85 | in a vertex list without repeats, the position found for the vertex at j is j |
| Properties.Dfs | GraphDrawingTheory/src/graph/properties/GraphProperties.java:72-98 | dfs marks the current vertex, keeps every earlier mark and record, and leaves strictly fewer vertices unvisited |
| Properties.DfsStep | GraphDrawingTheory/src/graph/properties/GraphProperties.java:85-95 | one adjacent vertex: the arrays keep their size and every earlier mark, and the current vertex stays visited |
| Properties.Initial | GraphDrawingTheory/src/graph/properties/GraphProperties.java:33-36 | the fresh arrays have one null entry per vertex, so nothing is visited |
| Properties.SearchFromFirst | GraphDrawingTheory/src/graph/properties/GraphProperties.java:35-36 | the search from `getVertices().get(0)`; absent for a graph without vertices, where get(0) throws |
| Properties.DfsReaches | GraphDrawingTheory/src/graph/properties/GraphProperties.java:72-98 | soundness: every vertex a search from `current` newly visits is reachable from `current` |
| Properties.DfsCloses | GraphDrawingTheory/src/graph/properties/GraphProperties.java:84-96 | closure: after the search from `current`, it and every vertex it newly visited have all their adjacent vertices visited |
| Properties.WalkSeen | GraphDrawingTheory/src/graph/properties/GraphProperties.java:84-96 | in a closed state, every vertex on a walk out of a visited vertex is visited |
| Properties.SearchVisitsReachable | GraphDrawingTheory/src/graph/properties/GraphProperties.java:30-43 | the search from the first vertex visits exactly the vertices reachable from it |
| Properties.IsConnectedMeans | GraphDrawingTheory/src/graph/properties/GraphProperties.java:30-43 | isConnected fails exactly on a graph without vertices; otherwise it answers whether every vertex is reachable from the first |
| Properties.DfsLow | GraphDrawingTheory/src/graph/properties/GraphProperties.java:78-95 | the low value of every visited vertex stays at or below its depth, and the search keeps the depth of earlier vertices |
| Properties.DfsArrays.constructor | GraphDrawingTheory/src/graph/properties/GraphProperties.java:50-55 | six fresh arrays of the graph's size, all null |
| Properties.DfsArrays.DepthFirst | GraphDrawingTheory/src/graph/properties/GraphProperties.java:72-98 | the recursive method on the six arrays leaves them as the value-level dfs |
| Properties.DfsArrays.Step | GraphDrawingTheory/src/graph/properties/GraphProperties.java:84-96 | one turn of the loop leaves the arrays as the value-level step |
| Properties.DfsArrays.Descend | GraphDrawingTheory/src/graph/properties/GraphProperties.java:86-93 | the child branch: parent, recursive search, child count, articulation flag and low value, as the value-level step |
| Properties.CutsUpToMembers | GraphDrawingTheory/src/graph/properties/GraphProperties.java:59-61 | the loop reports exactly the vertices that pass the articulation test |
| Properties.CutVerticesMeans | GraphDrawingTheory/src/graph/properties/GraphProperties.java:47-65 | getCutVertices answers exactly on a connected graph, and then reports each vertex that passes the test, once |
| Properties.CutVerticesSpec | GraphDrawingTheory/src/graph/properties/GraphProperties.java:47-65 | getCutVertices: the vertices passing the articulation test after a search from the first vertex; none where get(0) or a null entry throws |
| Properties.IsBiconnectedMeans | GraphDrawingTheory/src/graph/properties/GraphProperties.java:67-69 | isBiconnected answers on a connected graph, and holds exactly when no vertex passes the cut-vertex test |
| Properties.IsTreeMeans | GraphDrawingTheory/src/graph/properties/GraphProperties.java:150-152 | isTree holds exactly for an acyclic graph whose every vertex is reachable from the first |
| Properties.LeavesUpToMembers | GraphDrawingTheory/src/graph/properties/GraphProperties.java:160-163 | the loop's result holds exactly the vertices seen so far that are leaves |
| Properties.TreeLeavesMeans | GraphDrawingTheory/src/graph/properties/GraphProperties.java:158-165 | the leaves are the listed vertices other than the root with exactly one adjacent edge; a valid graph always gets an answer |
| Properties.DestIs | GraphDrawingTheory/src/graph/elements/Graph.java:157-159 | the edges of a list that end at w |
| Properties.EdgesBetweenEnds | GraphDrawingTheory/src/graph/elements/Graph.java:153-168 | every edge edgeesBetween reports ends at v2 and comes from v1's list, or ends at v1 and comes from v2's list of an undirected graph |
| Properties.JoiningMembers | GraphDrawingTheory/src/graph/properties/GraphProperties.java:175 | the corrected pair lists hold exactly the edges that join the two vertices |
| Properties.JoiningDistinct | GraphDrawingTheory/src/graph/properties/GraphProperties.java:175 | the corrected pair lists repeat no edge |
| Properties.RowStep | GraphDrawingTheory/src/graph/properties/GraphProperties.java:174-178 | one more j appends the list between i and j exactly when it has more than one edge |
| Properties.RowSound | GraphDrawingTheory/src/graph/properties/GraphProperties.java:174-178 | every list in row i comes from a pair (i, k) with k up to j |
| Properties.RowComplete | GraphDrawingTheory/src/graph/properties/GraphProperties.java:174-178 | every list reported for such a pair is in row i |
| Properties.MultiUpToSound | GraphDrawingTheory/src/graph/properties/GraphProperties.java:173-178 | every list in the first i rows comes from a pair a <= b with a < i |
| Properties.MultiUpToComplete | GraphDrawingTheory/src/graph/properties/GraphProperties.java:173-178 | every list reported for such a pair is in the first i rows |
| Properties.ListMultiEdgesMeans | GraphDrawingTheory/src/graph/properties/GraphProperties.java:169-182 | listMultiEdges lists exactly the edgeesBetween results of more than one edge, over the pairs of positions a <= b |
| Properties.ListMultiEdgesIntended | GraphDrawingTheory/src/graph/properties/GraphProperties.java:169-182 | with the pairs corrected, every list holds two or more distinct edges, all joining the same two vertices, and every such group is reported |
| Properties.ListMultiEdgesSpec | GraphDrawingTheory/src/graph/properties/GraphProperties.java:169-182 | listMultiEdges: over the pairs of positions i <= j, the edgesBetween results holding more than one edge (or, corrected, the edges joining each pair, each once) |
| Properties.RingWalkAccepts | GraphDrawingTheory/src/graph/properties/GraphProperties.java:201-221 | an accepting walk extends the traversed vertices with degree-2 vertices only, and ends with as many as there are vertices (corrected: all of them) |
| Properties.IsRingMeans | GraphDrawingTheory/src/graph/properties/GraphProperties.java:189-224 | isRing fails only on an empty graph or where the walk fails; a ring has as many vertices as edges and a walk of that many degree-2 vertices |
| Properties.IsRingIntended | GraphDrawingTheory/src/graph/properties/GraphProperties.java:189-224 | with the final check corrected, a ring has as many edges as vertices, and every vertex has exactly two adjacent edges |
| Properties.RingWalk | GraphDrawingTheory/src/graph/properties/GraphProperties.java:201-221 | the walk along the other edge of each vertex, false at a vertex without exactly two edges, ending with the count comparison (or, corrected, the all-vertices check) |
| Properties.IsRingSpec | GraphDrawingTheory/src/graph/properties/GraphProperties.java:189-224 | isRing: false unless there are as many vertices as edges, otherwise the walk from the first edge; none when there are no edges, where get(0) throws |
| Properties.EdgesBetween | GraphDrawingTheory/src/graph/elements/Graph.java:153-168 | the two loops of edgeesBetween return the value-level list |
| Properties.AddEdgesEndingAt | GraphDrawingTheory/src/graph/elements/Graph.java:157-165 | one loop appends the edges of a list that end at w, in order |
| Properties.GraphProperties.constructor | GraphDrawingTheory/src/graph/properties/GraphProperties.java:21-23 | the object keeps the graph it is given |
| Properties.GraphProperties.SearchArrays | GraphDrawingTheory/src/graph/properties/GraphProperties.java:49-57 | the arrays after the search from the first vertex are the value-level search |
| Properties.GraphProperties.IsConnected | GraphDrawingTheory/src/graph/properties/GraphProperties.java:30-43 | the method answers as the value-level isConnected, proved to mean reachability above |
| Properties.GraphProperties.GetCutVertices | GraphDrawingTheory/src/graph/properties/GraphProperties.java:47-65 | the method answers as the value-level getCutVertices |
| Properties.GraphProperties.IsBiconnected | GraphDrawingTheory/src/graph/properties/GraphProperties.java:67-69 | the method answers as the value-level isBiconnected |
| Properties.GraphProperties.IsTree | GraphDrawingTheory/src/graph/properties/GraphProperties.java:150-152 | the method answers as the value-level isTree |
| Properties.GraphProperties.TreeLeaves | GraphDrawingTheory/src/graph/properties/GraphProperties.java:158-165 | the loop returns the value-level leaves |
| Properties.GraphProperties.MultiRow | GraphDrawingTheory/src/graph/properties/GraphProperties.java:174-178 | the inner loop returns row i |
| Properties.GraphProperties.ListMultiEdges | GraphDrawingTheory/src/graph/properties/GraphProperties.java:169-182 | the method returns the value-level list, as the code is written |
| Properties.GraphProperties.IsRing | GraphDrawingTheory/src/graph/properties/GraphProperties.java:189-224 | the loop answers as the value-level walk, as the code is written |
| PropertiesFindings.OneEdgeBetween | GraphDrawingTheory/src/graph/elements/Graph.java:153-168 | for a single edge a-b, edgeesBetween(b, b) lists that edge twice |
| PropertiesFindings.SingleEdgeReported | GraphDrawingTheory/src/graph/properties/GraphProperties.java:173-177 | as written, a graph with one edge a-b reports that edge as a multi-edge |
| PropertiesFindings.SingleEdgeNotReported | GraphDrawingTheory/src/graph/properties/GraphProperties.java:173-177 | with the pairs corrected, nothing is reported for it |
| PropertiesFindings.TwoPairsRing | GraphDrawingTheory/src/graph/properties/GraphProperties.java:189-224 | as written, two separate double edges a=b and c=d are reported as a ring |
| PropertiesFindings.TwoPairsNotRing | GraphDrawingTheory/src/graph/properties/GraphProperties.java:220-223 | with the final check corrected, they are not |
| PropertiesFindings.TwoPairsDisconnected | GraphDrawingTheory/src/graph/properties/GraphProperties.java:189-190 | that graph is not even connected, so it is not one cycle |
| SplitPairs.Make | GraphDrawingTheory/src/graph/properties/components/SplitPair.java:29-33 | a pair of v and u with type 0 |
| SplitPairs.MakeTyped | GraphDrawingTheory/src/graph/properties/components/SplitPair.java:42-47 | a pair of v and u with the given type |
| SplitPairs.SetV | GraphDrawingTheory/src/graph/properties/components/SplitPair.java:59-61 | only v changes |
| SplitPairs.SetU | GraphDrawingTheory/src/graph/properties/components/SplitPair.java:73-75 | only u changes |
| SplitPairs.SetType | GraphDrawingTheory/src/graph/properties/components/SplitPair.java:87-89 | only the type changes |
| SplitPairs.EqualsAsWrittenMeaning | GraphDrawingTheory/src/graph/properties/components/SplitPair.java:107-114 | equals holds exactly when both ends match in order, or when this u (not other's u) is other's v and the v's match |
| SplitPairs.EqualsAsWritten | GraphDrawingTheory/src/graph/properties/components/SplitPair.java:107-114 | equals as written: second vertices equal and first vertices equal, or this second vertex the other's first and the first vertices equal again |
| SplitPairs.EqualsReflexive | GraphDrawingTheory/src/graph/properties/components/SplitPair.java:107-114 | a pair equals itself, both as written and as intended |
| SplitPairs.SwappedPairNotEqual | GraphDrawingTheory/src/graph/properties/components/SplitPair.java:111-112 | as written, (a, b) does not equal (b, a), although they are the same unordered pair |
| SplitPairs.EqualsAsWrittenAsymmetric | GraphDrawingTheory/src/graph/properties/components/SplitPair.java:109-112 | as written, equals is not symmetric: (a, a) equals (a, b) but not the other way round |
| SplitPairs.SamePairIsEquivalence | GraphDrawingTheory/src/graph/properties/components/SplitPair.java:107-114 | the corrected comparison is symmetric and transitive, and ignores order |
| SplitPairs.HashCode | GraphDrawingTheory/src/graph/properties/components/SplitPair.java:97-103 | a 32-bit value congruent to 961 + 31·hash(u) + hash(v) |
| SplitPairs.HashIgnoresType | GraphDrawingTheory/src/graph/properties/components/SplitPair.java:97-103 | two pairs with the same ends hash alike whatever their types |
| SplitPairs.HashOrderDependent | GraphDrawingTheory/src/graph/properties/components/SplitPair.java:97-103 | the hash depends on the order of the ends |
| LRPartitionEdges.Appended | GraphDrawingTheory/src/graph/algorithms/lrpartition/LRPartitionEdge.java:47-58 | what the loop appends comes from the added set, is not the edge itself and is not blocked |
| LRPartitionEdges.AppendedSucceeds | GraphDrawingTheory/src/graph/algorithms/lrpartition/LRPartitionEdge.java:47-58 | the addition succeeds exactly when no added edge other than the edge itself is in the other list, and then appends all of them |
| LRPartitionEdges.AppendedPrefix | GraphDrawingTheory/src/graph/algorithms/lrpartition/LRPartitionEdge.java:48-55 | on failure the edges appended before the conflict are a prefix of those the addition would append |
| LRPartitionEdges.LRPartitionEdge.constructor | GraphDrawingTheory/src/graph/algorithms/lrpartition/LRPartitionEdge.java:39-44 | empty lists, valid, and the lists consistent |
| LRPartitionEdges.LRPartitionEdge.AddToSame | GraphDrawingTheory/src/graph/algorithms/lrpartition/LRPartitionEdge.java:47-58 | the result, the grown `same` list and the valid flag are those of the value-level addition; `different` is untouched; consistency is kept |
| LRPartitionEdges.LRPartitionEdge.AddToDifferent | GraphDrawingTheory/src/graph/algorithms/lrpartition/LRPartitionEdge.java:61-73 | the same for `different`, checked against `same` |
| OrderedPartitions.IndexOf | GraphDrawingTheory/src/graph/symmetry/nauty/OrderedPartition.java:43 | `indexOf`: none exactly when the part is absent, otherwise its first position |
| OrderedPartitions.FirstContaining | GraphDrawingTheory/src/graph/symmetry/nauty/OrderedPartition.java:54-59 | none exactly when no part holds u, otherwise the first part that does |
| OrderedPartitions.FirstNontrivial | GraphDrawingTheory/src/graph/symmetry/nauty/OrderedPartition.java:64-69 | none exactly when every part has at most one vertex, otherwise the first larger part |
| OrderedPartitions.ReplacedShape | GraphDrawingTheory/src/graph/symmetry/nauty/OrderedPartition.java:42-48 | the parts before i stay, the replacements follow in order, then the parts after i |
| OrderedPartitions.ReplacedVertices | GraphDrawingTheory/src/graph/symmetry/nauty/OrderedPartition.java:42-48 | the vertex order is the old one with part i's vertices replaced by the replacements'; replacing a part by a split of it keeps the vertex order |
| OrderedPartitions.VerticesInOrderMembers | GraphDrawingTheory/src/graph/symmetry/nauty/OrderedPartition.java:54-76 | a vertex is in the vertex order exactly when some part contains it |
| OrderedPartitions.OrderedPartition.Empty | GraphDrawingTheory/src/graph/symmetry/nauty/OrderedPartition.java:21-23 | no parts |
| OrderedPartitions.OrderedPartition.FromParts | GraphDrawingTheory/src/graph/symmetry/nauty/OrderedPartition.java:32-35 | the parts given, in order |
| OrderedPartitions.OrderedPartition.Replace | GraphDrawingTheory/src/graph/symmetry/nauty/OrderedPartition.java:42-48 | found exactly when the part is present (Java throws otherwise, and the model leaves the partition); then the partition is the replaced one |
| OrderedPartitions.OrderedPartition.PartContainingVertex | GraphDrawingTheory/src/graph/symmetry/nauty/OrderedPartition.java:54-59 | the first part containing u, or none (null) |
| OrderedPartitions.OrderedPartition.FirstNontrivialPart | GraphDrawingTheory/src/graph/symmetry/nauty/OrderedPartition.java:64-69 | the first part with more than one vertex, or none (null) |
| OrderedPartitions.OrderedPartition.VerticesInOrder | GraphDrawingTheory/src/graph/symmetry/nauty/OrderedPartition.java:71-76 | the parts' vertices concatenated in order |
| OrderedPartitions.OrderedPartition.AddPart | GraphDrawingTheory/src/graph/symmetry/nauty/OrderedPartition.java:87-89 | the part is appended |
| Permutations.Inverse | GraphDrawingTheory/src/graph/symmetry/Permutation.java:24-34 | every entry of the inverse maps an image back to a key that maps to it, and every image of a listed key is a key of the inverse |
| Permutations.Mul | GraphDrawingTheory/src/graph/symmetry/Permutation.java:36-46 | the product has the keys of this permutation |
| Permutations.Images | GraphDrawingTheory/src/graph/symmetry/Permutation.java:29-30 | the images of the keys, in key order |
| Permutations.ImagesDistinct | GraphDrawingTheory/src/graph/symmetry/Permutation.java:29-30 | a bijection's images repeat no value, so inverse puts no key twice |
| Permutations.Surjective | GraphDrawingTheory/src/graph/symmetry/Permutation.java:24-34 | every key of a bijection is the image of some key |
| Permutations.InverseUndoes | GraphDrawingTheory/src/graph/symmetry/Permutation.java:24-34 | the inverse sends the image of every key back to that key |
| Permutations.InverseKeys | GraphDrawingTheory/src/graph/symmetry/Permutation.java:24-34 | the inverse of a bijection has the same keys |
| Permutations.InverseOfBijection | GraphDrawingTheory/src/graph/symmetry/Permutation.java:24-34 | the inverse of a bijection is a bijection on the same keys that undoes it |
| Permutations.MulInverseIdentity | GraphDrawingTheory/src/graph/symmetry/Permutation.java:24-46 | a bijection multiplied by its inverse, in either order, is the identity on its keys |
| Permutations.PowerApply | GraphDrawingTheory/src/graph/symmetry/Permutation.java:48-55 | the j-th power sends x where j applications of the permutation send it |
| Permutations.ApplyAdd | GraphDrawingTheory/src/graph/symmetry/Permutation.java:48-55 | a + b applications are b applications after a |
| Permutations.Cancel | GraphDrawingTheory/src/graph/symmetry/Permutation.java:48-55 | if x returns to the same point after i and after j steps, then j - i steps bring x back to x |
| Permutations.Period | GraphDrawingTheory/src/graph/symmetry/Permutation.java:78-83 | every key of a bijection returns to itself within as many steps as there are keys |
| Permutations.DividesFactorial | GraphDrawingTheory/src/graph/symmetry/Permutation.java:48-55 | every period up to n divides n!, so some power brings every key back at once |
| Permutations.IdentityPower | GraphDrawingTheory/src/graph/symmetry/Permutation.java:48-55 | the power of a bijection with the number of its keys, factorial, is the identity |
| Permutations.IdentityPowerBound | GraphDrawingTheory/src/graph/symmetry/Permutation.java:48-55 | there is a bound at or below which some power is the identity, so the loop of order() ends |
| Permutations.Order | GraphDrawingTheory/src/graph/symmetry/Permutation.java:48-59 | order() returns the least n >= 1 whose power is the identity |
| Permutations.PowerStep | GraphDrawingTheory/src/graph/symmetry/Permutation.java:53 | multiplying the n-th power by the permutation gives the (n+1)-th power |
| Permutations.CycleClosed | GraphDrawingTheory/src/graph/symmetry/Permutation.java:76-83 | a cycle is closed under the permutation |
| Permutations.OrbitIsCycle | GraphDrawingTheory/src/graph/symmetry/Permutation.java:76-83 | the points visited from x until it returns form a cycle of the permutation |
| Permutations.OrbitMeets | GraphDrawingTheory/src/graph/symmetry/Permutation.java:71-73 | a cycle sharing a point with the cycles already found starts inside them, so a covered key is skipped safely |
| Permutations.AddCycle | GraphDrawingTheory/src/graph/symmetry/Permutation.java:84 | adding a fresh cycle keeps the found cycles disjoint and covering exactly the keys processed |
| Permutations.SkipKey | GraphDrawingTheory/src/graph/symmetry/Permutation.java:72-73 | a key already covered leaves the found cycles as they are |
| Permutations.FollowCycle | GraphDrawingTheory/src/graph/symmetry/Permutation.java:76-83 | the inner loop returns the points from key until it comes back, in order, and marks all but key as covered |
| Permutations.CyclicRepresentation | GraphDrawingTheory/src/graph/symmetry/Permutation.java:68-87 | the cycles are cycles of the permutation, disjoint, and together hold exactly its keys |
| Permutations.Fix | GraphDrawingTheory/src/graph/symmetry/Permutation.java:90-98 | exactly the keys that map to themselves, each once |
| Permutations.FixAll | GraphDrawingTheory/src/graph/symmetry/Permutation.java:90-98 | fix() returns every key exactly when every key is fixed |
| Permutations.IdentityIffFixAll | GraphDrawingTheory/src/graph/symmetry/Permutation.java:61-66 | isIdentityPermutation holds exactly when fix() returns every key |
| Permutations.Orbit | GraphDrawingTheory/src/graph/symmetry/Permutation.java:106-121 | the orbit has order() entries: u, then the image of u under each power from 1 to order() - 1 |
| Permutations.OrbitImages | GraphDrawingTheory/src/graph/symmetry/Permutation.java:110-119 | the loop gives u first and then the image of u under the i-th power |
| Permutations.OrbitOfKey | GraphDrawingTheory/src/graph/symmetry/Permutation.java:106-121 | for a key u, the orbit holds the successive images of u, and the next image is u again |
| Permutations.EqualsIff | GraphDrawingTheory/src/graph/symmetry/Permutation.java:140-160 | two permutations are equal exactly when they have the same keys and images |
| PermutationGroups.Powers | GraphDrawingTheory/src/graph/symmetry/PermutationGroup.java:37-40 | the list of the first n powers of a permutation |
| PermutationGroups.OrderExists | GraphDrawingTheory/src/graph/symmetry/Permutation.java:48-59 | every bijection has an order |
| PermutationGroups.OrderUnique | GraphDrawingTheory/src/graph/symmetry/Permutation.java:48-59 | the order is unique |
| PermutationGroups.SamePowerCancels | GraphDrawingTheory/src/graph/symmetry/PermutationGroup.java:37-40 | two equal powers a < b make the (b - a)-th power the identity |
| PermutationGroups.PowersDistinct | GraphDrawingTheory/src/graph/symmetry/PermutationGroup.java:37-40 | the powers before the order are all different, so the group lists no rotation twice |
| PermutationGroups.RotationGroup | GraphDrawingTheory/src/graph/symmetry/PermutationGroup.java:35-42 | with only a rotation of order k, the group lists its k powers, the last one the identity and no earlier one |
| PermutationGroups.ReflectionGroup | GraphDrawingTheory/src/graph/symmetry/PermutationGroup.java:31-34 | with only a reflection, the group lists it and its square |
| PermutationGroups.DihedralGroupSize | GraphDrawingTheory/src/graph/symmetry/PermutationGroup.java:30-51 | with both, the group has 1 + k1 + k2 members, whatever orders are chosen |
| PermutationGroups.PowerBijection | GraphDrawingTheory/src/graph/symmetry/PermutationGroup.java:37-40 | powers of a bijection are bijections on the same keys |
| PermutationGroups.MulBijection | GraphDrawingTheory/src/graph/symmetry/PermutationGroup.java:44 | the product of two bijections on the same keys is a bijection |
| PermutationGroups.StabilizersOf | GraphDrawingTheory/src/graph/symmetry/PermutationGroup.java:57-66 | exactly the listed permutations that fix u |
| PermutationGroups.Leading | GraphDrawingTheory/src/graph/symmetry/PermutationGroup.java:78-82 | the number of leading elements of Y whose image is in Y, before the first that is not |
| PermutationGroups.SubsetStabilizers | GraphDrawingTheory/src/graph/symmetry/PermutationGroup.java:68-72 | the documented result: exactly the listed permutations that map Y into Y, each once |
| PermutationGroups.SubsetStabilizersRepeats | GraphDrawingTheory/src/graph/symmetry/PermutationGroup.java:76-87 | as written, a stabilizer of Y = [1, 2] is listed twice, and with Y empty nothing is listed |
| PermutationGroups.StabilizerListedPerElement | GraphDrawingTheory/src/graph/symmetry/PermutationGroup.java:76-87 | as written, a stabilizer of Y is listed once per element of Y |
| PermutationGroups.CommonFixed | GraphDrawingTheory/src/graph/symmetry/PermutationGroup.java:95-112 | exactly the elements fixed by every permutation, each once |
| PermutationGroups.FixNonEmpty | GraphDrawingTheory/src/graph/symmetry/PermutationGroup.java:135 | fix() is non-empty exactly when the permutation has a fixed point |
| PermutationGroups.RotationOrbit | GraphDrawingTheory/src/graph/symmetry/PermutationGroup.java:118-124 | the group's i-th rotation sends u where i + 1 rotations do |
| PermutationGroups.RotationOrbitCloses | GraphDrawingTheory/src/graph/symmetry/PermutationGroup.java:118-124 | the last rotation listed sends u back to u |
| PermutationGroups.PermutationGroup.constructor | GraphDrawingTheory/src/graph/symmetry/PermutationGroup.java:23-28 | the group keeps its generators and lists the members for their orders |
| PermutationGroups.PermutationGroup.InitPermutations | GraphDrawingTheory/src/graph/symmetry/PermutationGroup.java:30-51 | the reflection and its square, the rotation's powers up to the identity, and the product's powers before the identity, appended in that order |
| PermutationGroups.PermutationGroup.AppendPowersBeforeIdentity | GraphDrawingTheory/src/graph/symmetry/PermutationGroup.java:36-41 | the loop appends the powers before the order and ends holding the identity power |
| PermutationGroups.PermutationGroup.Stabilizers | GraphDrawingTheory/src/graph/symmetry/PermutationGroup.java:57-66 | the permutations that fix u, in list order |
| PermutationGroups.PermutationGroup.SubsetStabilizersListed | GraphDrawingTheory/src/graph/symmetry/PermutationGroup.java:72-89 | the nested loop returns the as-written list |
| PermutationGroups.PermutationGroup.Fix | GraphDrawingTheory/src/graph/symmetry/PermutationGroup.java:95-112 | none exactly for an empty group (get(0) throws); otherwise the first permutation's keys fixed by every member, each once |
| PermutationGroups.PermutationGroup.Orbit | GraphDrawingTheory/src/graph/symmetry/PermutationGroup.java:118-124 | the image of u under each member, in list order |
| PermutationGroups.PermutationGroup.IsSemiRegular | GraphDrawingTheory/src/graph/symmetry/PermutationGroup.java:132-138 | true exactly when no non-identity member has a fixed point |
| LRPartitionSets.SharesSymmetric | GraphDrawingTheory/src/graph/algorithms/lrpartition/LRPartitionSet.java:206-217 | containSame does not depend on which list it scans, so it is symmetric |
| LRPartitionSets.PickedOverlapUnique | GraphDrawingTheory/src/graph/algorithms/lrpartition/LRPartitionSet.java:62-75 | the overlapping pair the scan picks is determined: the first row with a partner and its first partner, unless a later row shares an edge with its neighbour; then the last such row and its neighbour |
| LRPartitionSets.JoinMissing | GraphDrawingTheory/src/graph/algorithms/lrpartition/LRPartitionSet.java:219-223 | exclusiveJoin keeps list1 as a prefix and ends with exactly the edges of either list |
| LRPartitionSets.JoinMissingNoDuplicates | GraphDrawingTheory/src/graph/algorithms/lrpartition/LRPartitionSet.java:219-223 | exclusiveJoin adds no repeat to a list without repeats |
| LRPartitionSets.FirstEqual | GraphDrawingTheory/src/graph/algorithms/lrpartition/LRPartitionSet.java:163 | `same.remove(list)` removes the first list equal in content, and finds one whenever one exists |
| LRPartitionSets.MergeKeepsEdges | GraphDrawingTheory/src/graph/algorithms/lrpartition/LRPartitionSet.java:77-80 | joining two overlapping lists and dropping the second keeps the set of edges held by the lists |
| LRPartitionSets.GrowKeepsEdges | GraphDrawingTheory/src/graph/algorithms/lrpartition/LRPartitionSet.java:162 | appending one list to another keeps the set of edges held by the lists |
| LRPartitionSets.DropCoveredKeepsEdges | GraphDrawingTheory/src/graph/algorithms/lrpartition/LRPartitionSet.java:163 | dropping a list whose edges another list holds keeps the set of edges held by the lists |
| LRPartitionSets.PadKeepsConflicts | GraphDrawingTheory/src/graph/algorithms/lrpartition/LRPartitionSet.java:107-111 | adding an empty list keeps every pair of lists in conflict |
| LRPartitionSets.PadKeepsEdges | GraphDrawingTheory/src/graph/algorithms/lrpartition/LRPartitionSet.java:107-111 | adding an empty list keeps the set of edges held by the lists |
| LRPartitionSets.LRPartitionSet.constructor | GraphDrawingTheory/src/graph/algorithms/lrpartition/LRPartitionSet.java:25-29 | no lists and no exclusive pairs |
| LRPartitionSets.LRPartitionSet.Add | GraphDrawingTheory/src/graph/algorithms/lrpartition/LRPartitionSet.java:31-49 | the classes are refused exactly when they share an edge, and nothing changes then; otherwise each non-empty class becomes a list, and a pair of non-empty classes becomes an exclusive pair |
| LRPartitionSets.LRPartitionSet.ScanRow | GraphDrawingTheory/src/graph/algorithms/lrpartition/LRPartitionSet.java:64-74 | one row of the scan keeps the earlier pick unless i overlaps a later list, and then picks i and its first overlapping j |
| LRPartitionSets.LRPartitionSet.FindOverlap | GraphDrawingTheory/src/graph/algorithms/lrpartition/LRPartitionSet.java:60-75 | none exactly when no two lists share an edge; otherwise the determined pair |
| LRPartitionSets.LRPartitionSet.ExclusiveJoin | GraphDrawingTheory/src/graph/algorithms/lrpartition/LRPartitionSet.java:219-223 | only list1 changes, to the join of the two lists |
| LRPartitionSets.LRPartitionSet.MergeOverlapping | GraphDrawingTheory/src/graph/algorithms/lrpartition/LRPartitionSet.java:58-83 | the loop ends with no two lists sharing an edge, no more lists than before, and the same set of edges held |
| LRPartitionSets.LRPartitionSet.PairConflict | GraphDrawingTheory/src/graph/algorithms/lrpartition/LRPartitionSet.java:91-95 | true exactly when some exclusive pair separates the two edges |
| LRPartitionSets.LRPartitionSet.ConflictWithinList | GraphDrawingTheory/src/graph/algorithms/lrpartition/LRPartitionSet.java:88-96 | true exactly when e1 conflicts with some other edge of the list |
| LRPartitionSets.LRPartitionSet.NoInternalConflicts | GraphDrawingTheory/src/graph/algorithms/lrpartition/LRPartitionSet.java:86-98 | true exactly when no list holds two edges that an exclusive pair separates |
| LRPartitionSets.LRPartitionSet.ListsInConflict | GraphDrawingTheory/src/graph/algorithms/lrpartition/LRPartitionSet.java:134-149 | true exactly when some edge of one list conflicts with some edge of the other |
| LRPartitionSets.LRPartitionSet.FindJoinable | GraphDrawingTheory/src/graph/algorithms/lrpartition/LRPartitionSet.java:129-159 | a pair of different lists without a conflict, or none, and then every pair conflicts |
| LRPartitionSets.LRPartitionSet.JoinStep | GraphDrawingTheory/src/graph/algorithms/lrpartition/LRPartitionSet.java:161-164 | one join removes one list and keeps the set of edges held |
| LRPartitionSets.LRPartitionSet.JoinPartitions | GraphDrawingTheory/src/graph/algorithms/lrpartition/LRPartitionSet.java:122-166 | the loop ends with every two lists in conflict, no more lists than before, and the same set of edges held |
| LRPartitionSets.LRPartitionSet.OrganizePartitions | GraphDrawingTheory/src/graph/algorithms/lrpartition/LRPartitionSet.java:52-118 | after merging, ok holds exactly when no merged list has an internal conflict and at most two lists remain after joining; when ok there are two lists, the joined ones pairwise in conflict and any added ones empty, with the set of edges held unchanged |
| PQTreeNodes.SelectAppend | GraphDrawingTheory/src/graph/tree/pq/PQTreeNode.java:178-185 | the children of one label in a joined list are those of each part, in order |
| PQTreeNodes.SelectRelabel | GraphDrawingTheory/src/graph/tree/pq/PQTreeNode.java:353-398 | relabelling child k moves it from the bag of its old label to the bag of its new label and changes no other bag |
| PQTreeNodes.SelectRemoveAt | GraphDrawingTheory/src/graph/tree/pq/PQTreeNode.java:337-345 | removing child k takes it out of the bag of its label only |
| PQTreeNodes.SelectInsertAt | GraphDrawingTheory/src/graph/tree/pq/PQTreeNode.java:326-335 | inserting a child adds it to the bag of its label only |
| PQTreeNodes.SelectCount | GraphDrawingTheory/src/graph/tree/pq/PQTreeNode.java:157-167 | the number of children with a label equals the count of that label |
| PQTreeNodes.CountPositive | GraphDrawingTheory/src/graph/tree/pq/PQTreeNode.java:198-200 | a label is counted exactly when some child has it |
| PQTreeNodes.RemoveFirstAt | GraphDrawingTheory/src/graph/tree/pq/PQTreeNode.java:338 | `children.remove(node)` drops the first occurrence |
| PQTreeNodes.LabelsReverse | GraphDrawingTheory/src/graph/tree/pq/PQTreeNode.java:203-205 | reversing the children reverses their labels |
| PQTreeNodes.OrderedNotReversed | GraphDrawingTheory/src/graph/tree/pq/PQTreeNode.java:202-205 | children already in empty, partial, full order are not reversed |
| PQTreeNodes.DescendingReversed | GraphDrawingTheory/src/graph/tree/pq/PQTreeNode.java:202-205 | children ordered only the other way round are reversed |
| PQTreeNodes.ReversalChoice | GraphDrawingTheory/src/graph/tree/pq/PQTreeNode.java:189-205 | after the reversal decision the children are ordered exactly when they were ordered one way or the other |
| PQTreeNodes.ReversedLabels | GraphDrawingTheory/src/graph/tree/pq/PQTreeNode.java:202-205 | the reversal keeps the set of labels and makes the order valid exactly when one direction was |
| PQTreeNodes.ScanFromCorrect | GraphDrawingTheory/src/graph/tree/pq/PQTreeNode.java:213-252 | from any point, the loop accepts exactly when the rest keeps the empty, partial, full order given the state so far |
| PQTreeNodes.ScanCorrect | GraphDrawingTheory/src/graph/tree/pq/PQTreeNode.java:207-252 | the check after the reversal accepts exactly the label sequences in empty, singly partial, full order |
| PQTreeNodes.OnePartialChoice | GraphDrawingTheory/src/graph/tree/pq/PQTreeNode.java:195-253 | orderValidUpToOnePartial accepts exactly when the children are ordered in one direction, and when it accepts they are left in that order |
| PQTreeNodes.CountAtLeast | GraphDrawingTheory/src/graph/tree/pq/PQTreeNode.java:305-316 | two positions with a label make its count at least two, and a third makes it at least three |
| PQTreeNodes.CountAround | GraphDrawingTheory/src/graph/tree/pq/PQTreeNode.java:274-301 | with only empty children outside [a, b), the empty count is those outside plus those inside, and every other label is counted inside |
| PQTreeNodes.FirstNonEmpty | GraphDrawingTheory/src/graph/tree/pq/PQTreeNode.java:276-283 | the first child that is not empty, at or after k |
| PQTreeNodes.LastNonEmpty | GraphDrawingTheory/src/graph/tree/pq/PQTreeNode.java:284-293 | the last child that is not empty, at or before i |
| PQTreeNodes.AcceptsEnds | GraphDrawingTheory/src/graph/tree/pq/PQTreeNode.java:263-316 | an accepted list has no full child at either end, only empty children outside its non-empty run, and its partial children at the ends of that run |
| PQTreeNodes.AcceptsShape | GraphDrawingTheory/src/graph/tree/pq/PQTreeNode.java:255-258 | an accepted list has the documented shape: empty, partial, full, partial, empty |
| PQTreeNodes.ShapeAccepts | GraphDrawingTheory/src/graph/tree/pq/PQTreeNode.java:255-258 | every list of that shape is accepted |
| PQTreeNodes.TwoPartialChoice | GraphDrawingTheory/src/graph/tree/pq/PQTreeNode.java:255-320 | the corrected check accepts exactly the lists of the documented shape |
| PQTreeNodes.TwoPartialRejectsValid | GraphDrawingTheory/src/graph/tree/pq/PQTreeNode.java:318-320 | the list partial, full, partial has the documented shape and the corrected check accepts it (the method as written rejects it) |
| PQTreeNodes.PQTreeNode.constructor | GraphDrawingTheory/src/graph/tree/pq/PQTreeNode.java:116-141 | a new node has no parent and no children; a leaf is labelled empty and has no child lists, the other types have them |
| PQTreeNodes.PQTreeNode.AddChild | GraphDrawingTheory/src/graph/tree/pq/PQTreeNode.java:178-187 | the child is appended, added to the list of its label, and gets this node as parent |
| PQTreeNodes.PQTreeNode.AddChildAt | GraphDrawingTheory/src/graph/tree/pq/PQTreeNode.java:326-335 | the child is inserted at the index, added to the list of its label, and gets this node as parent |
| PQTreeNodes.PQTreeNode.RemoveChild | GraphDrawingTheory/src/graph/tree/pq/PQTreeNode.java:337-346 | the first occurrence leaves the children and the list of its label; its parent is cleared |
| PQTreeNodes.PQTreeNode.LabelAsFull | GraphDrawingTheory/src/graph/tree/pq/PQTreeNode.java:353-363 | the label becomes full; the parent's full list gains the node and its old list loses it |
| PQTreeNodes.PQTreeNode.LabelAsEmpty | GraphDrawingTheory/src/graph/tree/pq/PQTreeNode.java:370-380 | the label becomes empty; the parent's empty list gains the node and its old list loses it |
| PQTreeNodes.PQTreeNode.LabelAsPartial | GraphDrawingTheory/src/graph/tree/pq/PQTreeNode.java:388-398 | the label becomes the given one; the parent's partial list gains the node and its old list loses it |
| PQTreeNodes.PQTreeNode.ImmediateSiblings | GraphDrawingTheory/src/graph/tree/pq/PQTreeNode.java:478-494 | none unless the parent is a Q-node; then the one neighbour of an end child or the two neighbours of an inner child, the left one first |
| PQTreeNodes.PQTreeNode.ConsistentCounts | GraphDrawingTheory/src/graph/tree/pq/PQTreeNode.java:153-167 | with consistent lists, each list's size is the number of children with that label |
| PQTreeNodes.PQTreeNode.OnePartialScan | GraphDrawingTheory/src/graph/tree/pq/PQTreeNode.java:213-252 | the loop gives the value-level scan of the children's labels |
| PQTreeNodes.PQTreeNode.OrderValidUpToOnePartial | GraphDrawingTheory/src/graph/tree/pq/PQTreeNode.java:195-253 | the children are reversed exactly when the reversal test says so, and the answer is the scan of the resulting labels |
| PQTreeNodes.PQTreeNode.OnePartialMeaning | GraphDrawingTheory/src/graph/tree/pq/PQTreeNode.java:189-194 | with consistent lists, orderValidUpToOnePartial accepts exactly when some direction is in empty, partial, full order, and then leaves them in it |
| PQTreeNodes.PQTreeNode.OrderValidUpToTwoPartial | GraphDrawingTheory/src/graph/tree/pq/PQTreeNode.java:259-320 | the corrected method returns the corrected check on the children's labels |
| PQTreeNodes.PQTreeNode.OrderValidUpToTwoPartialAsWritten | GraphDrawingTheory/src/graph/tree/pq/PQTreeNode.java:259-323 | as written, the method returns false on every input |
| PQTreeNodes.PQTreeNode.TwoPartialMeaning | GraphDrawingTheory/src/graph/tree/pq/PQTreeNode.java:255-258 | with consistent lists and at most two partial children, the corrected method accepts exactly the documented shape |
| DFSTrees.Unlisted | GraphDrawingTheory/src/graph/trees/DFSTree.java:65-72 | the edges of the list that are not already listed, and nothing else |
| DFSTrees.OutgoingMembers | GraphDrawingTheory/src/graph/trees/DFSTree.java:157-170 | the outgoing tree edges of v are without repeats and are exactly the tree edges at v whose other end has a larger index |
| DFSTrees.DirectMembers | GraphDrawingTheory/src/graph/trees/DFSTree.java:233-243 | the direct descendants of v are without repeats and are exactly the far ends of tree edges at v with a larger index |
| DFSTrees.DescVisitAbove | GraphDrawingTheory/src/graph/trees/DFSTree.java:215-225 | the recursive descent only appends vertices whose index is larger than that of the vertex it starts from |
| DFSTrees.DescVisitDistinct | GraphDrawingTheory/src/graph/trees/DFSTree.java:215-225 | the recursive descent never adds a vertex twice |
| DFSTrees.DescendantsShape | GraphDrawingTheory/src/graph/trees/DFSTree.java:205-225 | allDescendantsOf lists each descendant once, starts with v exactly when v is included, and otherwise lists only vertices with larger indices |
| DFSTrees.PointsBelowMembers | GraphDrawingTheory/src/graph/trees/DFSTree.java:273-294 | the return points collected are exactly those of back edges leaving the descendants below the bound |
| DFSTrees.MinOf | GraphDrawingTheory/src/graph/trees/DFSTree.java:273-294 | the least element of a non-empty list, which is in the list |
| DFSTrees.MaxOf | GraphDrawingTheory/src/graph/trees/DFSTree.java:356-377 | the greatest element of a non-empty list, which is in the list |
| DFSTrees.Above | GraphDrawingTheory/src/graph/trees/DFSTree.java:320-331 | the elements larger than the given one, and nothing else |
| DFSTrees.SecondStep | GraphDrawingTheory/src/graph/trees/DFSTree.java:320-331 | how one more return point changes the second lowest point: none for the first, the old lowest when the new one is lower, unchanged when equal, else the lower of it and the old second |
| DFSTrees.EdgePointsBounded | GraphDrawingTheory/src/graph/trees/DFSTree.java:387-446 | an edge's lowpoint and highpoint are at most the index of its upper end, and a back edge's lowpoint is at most its highpoint |
| DFSTrees.ReturningAmongMembers | GraphDrawingTheory/src/graph/trees/DFSTree.java:456-498 | the returning edges picked are exactly the listed back edges that leave the descendants below the bound |
| DFSTrees.ReturningMeaning | GraphDrawingTheory/src/graph/trees/DFSTree.java:456-498 | a back edge returns itself; a tree edge returns exactly the back edges from the subtree below it to vertices above its lower end |
| DFSTrees.LeastMeaning | GraphDrawingTheory/src/graph/trees/DFSTree.java:528-550 | leastAncestor is absent exactly when no back edge at v goes to a lower vertex; otherwise it is such a vertex and has the least index of them |
| DFSTrees.LowptMeaning | GraphDrawingTheory/src/graph/trees/DFSTree.java:273-294 | lowpt is -1 when no back edge returns from the subtree of v, else the least index reached by one |
| DFSTrees.LowptsOrdered | GraphDrawingTheory/src/graph/trees/DFSTree.java:304-346 | lowpt1 <= lowpt2 <= index of v; both are the index of v with no returning edge, lowpt1 is the lowpoint otherwise, and lowpt2 is the index of v or the second lowest point reached |
| DFSTrees.HighptMeaning | GraphDrawingTheory/src/graph/trees/DFSTree.java:356-377 | highpt is -1 when no back edge returns from the proper descendants of v, else the greatest index below that of v reached by one |
| DFSTrees.LowestTake | GraphDrawingTheory/src/graph/trees/DFSTree.java:284-291 | one loop step keeps the running minimum equal to the minimum of the points seen |
| DFSTrees.HighestTake | GraphDrawingTheory/src/graph/trees/DFSTree.java:367-374 | one loop step keeps the running maximum equal to the maximum of the points seen |
| DFSTrees.LowptsTake | GraphDrawingTheory/src/graph/trees/DFSTree.java:320-331 | one loop step keeps the two running values equal to the lowest and second lowest points seen |
| DFSTrees.DFSTree.constructor | GraphDrawingTheory/src/graph/trees/DFSTree.java:43-50 | a tree with the given root, an empty graph and no indices or edges |
| DFSTrees.DFSTree.FormBackEdges | GraphDrawingTheory/src/graph/trees/DFSTree.java:65-72 | every edge not already a tree edge is appended to the back edges, so every edge is a tree or back edge; nothing else changes |
| DFSTrees.DFSTree.GetIndex | GraphDrawingTheory/src/graph/trees/DFSTree.java:78-80 | the index recorded for the vertex |
| DFSTrees.DFSTree.AddVertex | GraphDrawingTheory/src/graph/trees/DFSTree.java:88-91 | the vertex is added to the graph with its index; the edges are unchanged |
| DFSTrees.DFSTree.AddTreeEdge | GraphDrawingTheory/src/graph/trees/DFSTree.java:98-101 | the edge is appended to the tree edges and added to the graph; nothing else changes |
| DFSTrees.DFSTree.AllEdgesOf | GraphDrawingTheory/src/graph/trees/DFSTree.java:105-113 | exactly the tree and back edges incident with v |
| DFSTrees.DFSTree.AllOutgoingTreeEdges | GraphDrawingTheory/src/graph/trees/DFSTree.java:157-170 | exactly the tree edges from v to a vertex with a larger index, each once |
| DFSTrees.DFSTree.OutgoingAmong | GraphDrawingTheory/src/graph/trees/DFSTree.java:157-170 | the loop computes the outgoing tree edges among the given edges |
| DFSTrees.DFSTree.DirectDescendantsOf | GraphDrawingTheory/src/graph/trees/DFSTree.java:233-243 | exactly the far ends of tree edges from v to larger indices, each once |
| DFSTrees.DFSTree.DescendantsInto | GraphDrawingTheory/src/graph/trees/DFSTree.java:215-225 | the recursive helper computes the specified descent |
| DFSTrees.DFSTree.AllDescendantsOf | GraphDrawingTheory/src/graph/trees/DFSTree.java:205-212 | the descendants without repeats, v first when included and absent otherwise, all others with larger indices |
| DFSTrees.DFSTree.ReturnIndex | GraphDrawingTheory/src/graph/trees/DFSTree.java:273-294 | the index of the end of a back edge that lies outside the descendants |
| DFSTrees.DFSTree.Lowpt | GraphDrawingTheory/src/graph/trees/DFSTree.java:273-294 | the loop computes the lowpoint of v |
| DFSTrees.DFSTree.Highpt | GraphDrawingTheory/src/graph/trees/DFSTree.java:356-377 | the loop computes the highpoint of v |
| DFSTrees.DFSTree.Lowpts | GraphDrawingTheory/src/graph/trees/DFSTree.java:304-346 | the loop computes the two lowest points of v |
| DFSTrees.DFSTree.LowptEdge | GraphDrawingTheory/src/graph/trees/DFSTree.java:387-411 | for a back edge the index of its lower end; for a tree edge the lowpoint of its upper end, or that end's index when there is none |
| DFSTrees.DFSTree.HighptEdge | GraphDrawingTheory/src/graph/trees/DFSTree.java:422-446 | for a back edge the index of its upper end; for a tree edge the highpoint of its upper end, or the lower end's index when there is none |
| DFSTrees.DFSTree.ReturningEdges | GraphDrawingTheory/src/graph/trees/DFSTree.java:456-498 | the loop computes the returning edges of e |
| DFSTrees.DFSTree.LeastAncestor | GraphDrawingTheory/src/graph/trees/DFSTree.java:528-550 | the loop computes the least lower neighbour of v over the back edges |
| Bipartiteness.NeighbourEdge | src/graph/algorithms/bipartite/Bipartite.java:59-60 | y is a neighbour of x exactly when some edge at x has y at its other end |
| Bipartiteness.NeighboursSymmetric | src/graph/algorithms/bipartite/Bipartite.java:59-60 | the neighbour relation is symmetric |
| Bipartiteness.ProperSeparates | src/graph/algorithms/bipartite/Bipartite.java:40-52 | a proper two-colouring gives neighbours different colours |
| Bipartiteness.ColouringWitness | src/graph/algorithms/bipartite/Bipartite.java:40-52 | a colour map that differs across every edge makes the graph two-colourable |
| Bipartiteness.ConflictNotColourable | src/graph/algorithms/bipartite/Bipartite.java:68-70 | two same-coloured neighbours in one search tree, whose colours alternate along tree edges, rule out every two-colouring |
| Bipartiteness.FailureNotColourable | src/graph/algorithms/bipartite/Bipartite.java:68-70 | once the flag is cleared under the search invariant, the graph has no two-colouring |
| Bipartiteness.MarkedBound | src/graph/algorithms/bipartite/Bipartite.java:54-73 | an unmarked vertex of the graph leaves the marked list shorter than the vertex set, which bounds the recursion |
| Bipartiteness.RootStep | src/graph/algorithms/bipartite/Bipartite.java:56-57 | starting a new search tree at an uncoloured vertex keeps the invariant |
| Bipartiteness.MarkStep | src/graph/algorithms/bipartite/Bipartite.java:58 | marking the visited vertex keeps the invariant |
| Bipartiteness.ChildStep | src/graph/algorithms/bipartite/Bipartite.java:62-65 | colouring an unmarked neighbour with the opposite colour keeps the invariant |
| Bipartiteness.ConflictStep | src/graph/algorithms/bipartite/Bipartite.java:68-70 | clearing the flag on a same-coloured marked neighbour keeps the invariant |
| Bipartiteness.PopStep | src/graph/algorithms/bipartite/Bipartite.java:54-73 | leaving a vertex whose neighbours are all marked, and differently coloured while the flag holds, keeps the invariant |
| Bipartiteness.Bipartite.constructor | src/graph/algorithms/bipartite/Bipartite.java:33-38 | no vertex is marked or coloured |
| Bipartiteness.Bipartite.IsBipartite | src/graph/algorithms/bipartite/Bipartite.java:40-52 | true means every vertex is marked and every edge joins two differently coloured vertices; false means no two-colouring exists |
| Bipartiteness.Bipartite.Dfs | src/graph/algorithms/bipartite/Bipartite.java:54-73 | the search from v keeps the invariant, only grows what is marked and coloured, and never sets the flag back to true |
| Bipartiteness.Bipartite.VisitEdge | src/graph/algorithms/bipartite/Bipartite.java:59-71 | one edge of the loop keeps the visiting invariant one step further |
| Bipartiteness.Bipartite.Descend | src/graph/algorithms/bipartite/Bipartite.java:62-65 | colouring and visiting an unmarked neighbour keeps the invariant and the common root of the stack |
| Biconnected.GrowsUnvisited | GraphDrawingTheory/src/graph/properties/splitting/BiconnectedSplitting.java:60-63 | a later search state has no more unvisited vertices than an earlier one |
| Biconnected.Initial | GraphDrawingTheory/src/graph/properties/splitting/BiconnectedSplitting.java:41-48 | the arrays have one entry per vertex and no vertex is visited |
| Biconnected.VisitShrinks | GraphDrawingTheory/src/graph/properties/splitting/BiconnectedSplitting.java:60-64 | visiting an unvisited vertex removes exactly that vertex from the unvisited ones |
| Biconnected.PopComponent | GraphDrawingTheory/src/graph/properties/splitting/BiconnectedSplitting.java:87-98 | popping stops at the last occurrence of e and leaves the stack below it |
| Biconnected.DfsVisit | GraphDrawingTheory/src/graph/properties/splitting/BiconnectedSplitting.java:60-84 | dfsVisit marks the vertex, strictly shrinks the unvisited set and only pushes on top of the stack |
| Biconnected.EdgesLoop | GraphDrawingTheory/src/graph/properties/splitting/BiconnectedSplitting.java:65-83 | the loop over the adjacent edges keeps the vertex visited and the old stack as a prefix |
| Biconnected.EdgeStep | GraphDrawingTheory/src/graph/properties/splitting/BiconnectedSplitting.java:66-82 | one adjacent edge keeps the vertex visited and the old stack as a prefix |
| Biconnected.Min | GraphDrawingTheory/src/graph/properties/splitting/BiconnectedSplitting.java:77 | Math.min: no larger than either argument and equal to one of them |
| Biconnected.Outer | GraphDrawingTheory/src/graph/properties/splitting/BiconnectedSplitting.java:53-55 | the loop over all vertices keeps the arrays sized |
| Biconnected.SplitSearch | GraphDrawingTheory/src/graph/properties/splitting/BiconnectedSplitting.java:38-58 | the whole search keeps one array entry per vertex |
| Biconnected.PopOne | GraphDrawingTheory/src/graph/properties/splitting/BiconnectedSplitting.java:91-94 | one pop adds its edge and both its ends to the component, keeping it valid |
| Biconnected.PopComponentEdges | GraphDrawingTheory/src/graph/properties/splitting/BiconnectedSplitting.java:87-98 | the component's edges are exactly the popped edges, from the top down to e |
| Biconnected.PopComponentVertices | GraphDrawingTheory/src/graph/properties/splitting/BiconnectedSplitting.java:87-98 | the component's vertices are exactly the ends of the popped edges |
| Biconnected.FormComponentCollected | GraphDrawingTheory/src/graph/properties/splitting/BiconnectedSplitting.java:87-98 | a formed component is an undirected valid graph with at least one edge, all from the adjacency lists, and every vertex is an end of one of its edges |
| Biconnected.DfsVisitNumbered | GraphDrawingTheory/src/graph/properties/splitting/BiconnectedSplitting.java:60-84 | the search numbers each visited vertex once, with 1 <= low <= d <= count |
| Biconnected.EdgesLoopNumbered | GraphDrawingTheory/src/graph/properties/splitting/BiconnectedSplitting.java:65-83 | the numbering invariant holds through the loop over adjacent edges |
| Biconnected.EdgeStepNumbered | GraphDrawingTheory/src/graph/properties/splitting/BiconnectedSplitting.java:66-82 | the numbering invariant holds through one adjacent edge |
| Biconnected.DfsVisitCollected | GraphDrawingTheory/src/graph/properties/splitting/BiconnectedSplitting.java:60-84 | the stack only holds listed edges and every component formed is a component graph |
| Biconnected.EdgesLoopCollected | GraphDrawingTheory/src/graph/properties/splitting/BiconnectedSplitting.java:65-83 | the same through the loop over adjacent edges |
| Biconnected.EdgeStepCollected | GraphDrawingTheory/src/graph/properties/splitting/BiconnectedSplitting.java:66-82 | the same through one adjacent edge |
| Biconnected.InitialNumbered | GraphDrawingTheory/src/graph/properties/splitting/BiconnectedSplitting.java:41-48 | the initial state satisfies both invariants |
| Biconnected.BelowSize | GraphDrawingTheory/src/graph/properties/splitting/BiconnectedSplitting.java:42 | the first n indices form a set of size n |
| Biconnected.OuterKeeps | GraphDrawingTheory/src/graph/properties/splitting/BiconnectedSplitting.java:53-55 | after the outer loop every vertex is visited and both invariants still hold |
| Biconnected.SplitSearchNumbers | GraphDrawingTheory/src/graph/properties/splitting/BiconnectedSplitting.java:38-58 | at the end count is the number of vertices, every vertex is visited with 1 <= low <= d <= n, and the d numbers are distinct |
| Biconnected.FindComponentsValid | GraphDrawingTheory/src/graph/properties/splitting/BiconnectedSplitting.java:36-58 | every component returned is a valid undirected graph with at least one edge, its edges from the graph's adjacency lists and no isolated vertex |
| Biconnected.FormComponent | GraphDrawingTheory/src/graph/properties/splitting/BiconnectedSplitting.java:87-98 | formComponent: the graph of the popped edges and their ends, and the stack left below e |
| Biconnected.FindComponentsSpec | GraphDrawingTheory/src/graph/properties/splitting/BiconnectedSplitting.java:38-58 | findBiconnectedComponents: the components formed by the search, in order |
| Biconnected.Splitter.constructor | GraphDrawingTheory/src/graph/properties/splitting/BiconnectedSplitting.java:31-33 | the splitter holds the graph and nothing else yet |
| Biconnected.Splitter.Allocate | GraphDrawingTheory/src/graph/properties/splitting/BiconnectedSplitting.java:41-48 | fresh arrays, one entry per vertex, in the initial state |
| Biconnected.Splitter.FindBiconnectedComponents | GraphDrawingTheory/src/graph/properties/splitting/BiconnectedSplitting.java:38-58 | the list returned is the specified list of components |
| Biconnected.Splitter.Search | GraphDrawingTheory/src/graph/properties/splitting/BiconnectedSplitting.java:60-84 | the recursive visit updates the arrays, stack and components as the specification function says |
| Biconnected.Splitter.Enter | GraphDrawingTheory/src/graph/properties/splitting/BiconnectedSplitting.java:61-64 | marks the vertex visited, advances count, and sets d and low to it |
| Biconnected.Splitter.Explore | GraphDrawingTheory/src/graph/properties/splitting/BiconnectedSplitting.java:66-82 | one adjacent edge updates the state as the specification function says |
| Biconnected.Splitter.Descend | GraphDrawingTheory/src/graph/properties/splitting/BiconnectedSplitting.java:70-77 | the tree edge branch updates the state as the specification function says |
| Biconnected.Splitter.FormComponentOf | GraphDrawingTheory/src/graph/properties/splitting/BiconnectedSplitting.java:87-98 | the component and the remaining stack are those of the specification; nothing else changes |
| BiconnectedPushes.PushedEdges | GraphDrawingTheory/src/graph/properties/splitting/BiconnectedSplitting.java:71 | the edges of the pushes, position by position |
| BiconnectedPushes.EndsOf | GraphDrawingTheory/src/graph/properties/splitting/BiconnectedSplitting.java:66-67 | an adjacent edge has the vertex at one end and a listed vertex at the other |
| BiconnectedPushes.PushAccounted | GraphDrawingTheory/src/graph/properties/splitting/BiconnectedSplitting.java:71 | pushing an edge not yet pushed keeps every edge pushed once and accounted for |
| BiconnectedPushes.FormAccounted | GraphDrawingTheory/src/graph/properties/splitting/BiconnectedSplitting.java:87-98 | forming a component moves edges from the stack into a new component disjoint from the others |
| BiconnectedPushes.SplitCovers | GraphDrawingTheory/src/graph/properties/splitting/BiconnectedSplitting.java:87-98 | the pushed edges remain those on the stack or in a component |
| BiconnectedPushes.SplitOffStack | GraphDrawingTheory/src/graph/properties/splitting/BiconnectedSplitting.java:87-98 | no component edge remains on the stack, and the stack has no repeats |
| BiconnectedPushes.SplitDisjoint | GraphDrawingTheory/src/graph/properties/splitting/BiconnectedSplitting.java:87-98 | a component made of stack edges shares no edge with earlier components |
| BiconnectedPushes.ListedOnce | GraphDrawingTheory/src/graph/properties/splitting/BiconnectedSplitting.java:65 | an edge listed once in a vertex's adjacency list does not occur earlier in it |
| BiconnectedPushes.TreeFresh | GraphDrawingTheory/src/graph/properties/splitting/BiconnectedSplitting.java:70-71 | an edge to an unvisited vertex has not been pushed before |
| BiconnectedPushes.BackFresh | GraphDrawingTheory/src/graph/properties/splitting/BiconnectedSplitting.java:78-80 | an edge to a visited ancestor other than the parent, met now, has not been pushed before |
| BiconnectedPushes.TreePushInv | GraphDrawingTheory/src/graph/properties/splitting/BiconnectedSplitting.java:70-72 | pushing a tree edge keeps the push invariant |
| BiconnectedPushes.BackPushInv | GraphDrawingTheory/src/graph/properties/splitting/BiconnectedSplitting.java:78-81 | pushing a back edge keeps the push invariant |
| BiconnectedPushes.DfsVisitPushes | GraphDrawingTheory/src/graph/properties/splitting/BiconnectedSplitting.java:60-84 | the recursive visit keeps the push invariant |
| BiconnectedPushes.EdgesLoopPushes | GraphDrawingTheory/src/graph/properties/splitting/BiconnectedSplitting.java:65-83 | the loop over adjacent edges keeps the push invariant |
| BiconnectedPushes.EdgeStepPushes | GraphDrawingTheory/src/graph/properties/splitting/BiconnectedSplitting.java:66-82 | one adjacent edge keeps the push invariant |
| BiconnectedPushes.TreeStepPushes | GraphDrawingTheory/src/graph/properties/splitting/BiconnectedSplitting.java:69-76 | the tree edge branch keeps the push invariant |
| BiconnectedPushes.OuterPushes | GraphDrawingTheory/src/graph/properties/splitting/BiconnectedSplitting.java:53-55 | the outer loop keeps the push invariant |
| BiconnectedPushes.SplitSearchPushes | GraphDrawingTheory/src/graph/properties/splitting/BiconnectedSplitting.java:66-82 | each edge is pushed at most once, and only as a tree edge or a back edge to an ancestor; the pushed edges are exactly those left on the stack or in a component; no component edge stays on the stack; the components share no edge |
| BiconnectedPushes.EnterPushInv | GraphDrawingTheory/src/graph/properties/splitting/BiconnectedSplitting.java:53-55 | entering an unvisited root from the outer loop keeps the push invariant with that root as the vertex about to be visited |
| BiconnectedCover.Flip | GraphDrawingTheory/src/graph/properties/splitting/BiconnectedSplitting.java:66-68 | on a simple graph an edge from a to b is listed at b too, leads back to a, and a and b differ |
| BiconnectedCover.DonePushes | GraphDrawingTheory/src/graph/properties/splitting/BiconnectedSplitting.java:78-82 | an edge leading to a vertex whose whole list was pushed has itself been pushed |
| BiconnectedCover.FreshNotDone | GraphDrawingTheory/src/graph/properties/splitting/BiconnectedSplitting.java:70-71 | an edge not yet pushed leads to a vertex whose list is not all pushed |
| BiconnectedCover.PushedGrow | GraphDrawingTheory/src/graph/properties/splitting/BiconnectedSplitting.java:71 | a longer push record still holds every edge pushed before |
| BiconnectedCover.FinishedGrow | GraphDrawingTheory/src/graph/properties/splitting/BiconnectedSplitting.java:66-83 | more pushes with no newly visited vertex keep every finished vertex done |
| BiconnectedCover.TreeEdgeStable | GraphDrawingTheory/src/graph/properties/splitting/BiconnectedSplitting.java:71-73 | the pushed tree edge from a visited vertex's parent stays pushed and still joins them |
| BiconnectedCover.AncestorsStable | GraphDrawingTheory/src/graph/properties/splitting/BiconnectedSplitting.java:73 | the recursive call leaves the caller's number, parent, ancestors and tree edge as they were |
| BiconnectedCover.PopsBackTo | GraphDrawingTheory/src/graph/properties/splitting/BiconnectedSplitting.java:87-98 | formComponent for a tree edge pushed onto s0, on a stack without repeats, leaves exactly s0 |
| BiconnectedCover.DfsVisitCover | GraphDrawingTheory/src/graph/properties/splitting/BiconnectedSplitting.java:60-84 | afterwards every visited vertex other than those being searched has all its edges pushed, low values of the current tree stay at or above its root's number, and a root's search leaves the stack as it found it |
| BiconnectedCover.EdgesLoopCover | GraphDrawingTheory/src/graph/properties/splitting/BiconnectedSplitting.java:66-83 | the loop over the adjacent edges ends with every edge of the list pushed, the same finished and low facts, and a root's stack unchanged |
| BiconnectedCover.EdgesLoopCoverStep | GraphDrawingTheory/src/graph/properties/splitting/BiconnectedSplitting.java:66-83 | the same, from an entry before the end of the list |
| BiconnectedCover.ScanDone | GraphDrawingTheory/src/graph/properties/splitting/BiconnectedSplitting.java:66-83 | a scan past the last entry leaves the vertex done and the other facts in place |
| BiconnectedCover.StepOn | GraphDrawingTheory/src/graph/properties/splitting/BiconnectedSplitting.java:66-82 | one adjacent edge keeps the scan invariant one entry further, does not grow the unvisited set and keeps a root's stack |
| BiconnectedCover.EdgeStepCover | GraphDrawingTheory/src/graph/properties/splitting/BiconnectedSplitting.java:66-82 | after one adjacent edge the entries up to it are pushed, finished vertices stay done and a root's stack is unchanged |
| BiconnectedCover.BackStepCover | GraphDrawingTheory/src/graph/properties/splitting/BiconnectedSplitting.java:78-81 | a back edge leads to a vertex being searched; pushing it keeps the finished and low facts and the entries up to it pushed |
| BiconnectedCover.SkipStepCover | GraphDrawingTheory/src/graph/properties/splitting/BiconnectedSplitting.java:78 | an edge neither branch pushes (to the parent, or to a vertex numbered later) has already been pushed |
| BiconnectedCover.TreeStepCover | GraphDrawingTheory/src/graph/properties/splitting/BiconnectedSplitting.java:70-77 | the tree edge branch ends with the entries up to the edge pushed, finished vertices done and a root's stack unchanged |
| BiconnectedCover.TreeChildCover | GraphDrawingTheory/src/graph/properties/splitting/BiconnectedSplitting.java:70-73 | the child's search, entered below the current vertex, leaves every visited vertex outside the ancestors done |
| BiconnectedCover.TreeEnterCover | GraphDrawingTheory/src/graph/properties/splitting/BiconnectedSplitting.java:70-72 | pushing the tree edge and setting the parent meet what the child's search requires |
| BiconnectedCover.TreeTailCover | GraphDrawingTheory/src/graph/properties/splitting/BiconnectedSplitting.java:74-76 | the tree edge is still on the stack, and forming a component when low[v] >= d[u] keeps the finished and low facts; at a root it pops the stack back to where it was |
| BiconnectedCover.OuterCover | GraphDrawingTheory/src/graph/properties/splitting/BiconnectedSplitting.java:53-55 | between roots every visited vertex is done and the stack stays empty |
| BiconnectedCover.SplitSearchCovers | GraphDrawingTheory/src/graph/properties/splitting/BiconnectedSplitting.java:38-58 | on a simple undirected graph the stack ends empty and every edge of an adjacency list lies in some component |
| BiconnectedCover.FindComponentsPartition | GraphDrawingTheory/src/graph/properties/splitting/BiconnectedSplitting.java:35-58 | on a simple undirected graph every edge of an adjacency list lies in exactly one returned component, and every component edge is a listed edge |
| PatonCycles.Up | GraphDrawingTheory/src/graph/algorithm/cycles/PatonSimpleCycles.java:121-124 | k steps up the parent map stay among the vertices with a parent |
| PatonCycles.ClimbStuck | GraphDrawingTheory/src/graph/algorithm/cycles/PatonSimpleCycles.java:121-124 | a climb that reaches a root not used by the neighbour never ends, so the bounded climb reports none |
| PatonCycles.ClimbShape | GraphDrawingTheory/src/graph/algorithm/cycles/PatonSimpleCycles.java:116-127 | a finished climb extends the cycle begun with the neighbour and current, and each further vertex is the parent of the one before until one used by the neighbour |
| PatonCycles.ClimbMisses | GraphDrawingTheory/src/graph/algorithm/cycles/PatonSimpleCycles.java:121-124 | when the bounded climb reports none, no vertex it passes is used by the neighbour |
| PatonCycles.UpMissesForever | GraphDrawingTheory/src/graph/algorithm/cycles/PatonSimpleCycles.java:121-124 | missing the neighbour's used set for as many steps as there are vertices means missing it forever, so the Java loop never ends |
| PatonCycles.ClimbHits | GraphDrawingTheory/src/graph/algorithm/cycles/PatonSimpleCycles.java:121-124 | a finished climb met a vertex used by the neighbour within the bound |
| PatonCycles.NeighbourJoined | GraphDrawingTheory/src/graph/algorithm/cycles/PatonSimpleCycles.java:98-101 | the neighbour picked from an edge at current is joined to it by that edge, both ways round |
| PatonCycles.EdgeStepGrows | GraphDrawingTheory/src/graph/algorithm/cycles/PatonSimpleCycles.java:98-128 | one edge only extends the search state and keeps it well formed |
| PatonCycles.EdgesFromGrows | GraphDrawingTheory/src/graph/algorithm/cycles/PatonSimpleCycles.java:97-129 | the loop over current's edges only extends the search state |
| PatonCycles.PopWF | GraphDrawingTheory/src/graph/algorithm/cycles/PatonSimpleCycles.java:94-95 | popping keeps the state well formed and current has a used set |
| PatonCycles.PopStep | GraphDrawingTheory/src/graph/algorithm/cycles/PatonSimpleCycles.java:94-129 | one pop and its edge loop only extend the state |
| PatonCycles.DrainSettles | GraphDrawingTheory/src/graph/algorithm/cycles/PatonSimpleCycles.java:93-130 | the walk of one component ends with an empty stack and only extends the state |
| PatonCycles.FreshWF | GraphDrawingTheory/src/graph/algorithm/cycles/PatonSimpleCycles.java:86-89 | starting a component at a root gives a well formed state |
| PatonCycles.ComponentsCover | GraphDrawingTheory/src/graph/algorithm/cycles/PatonSimpleCycles.java:77-131 | after the loop over roots every vertex has a parent |
| PatonCycles.ClimbCycleOk | GraphDrawingTheory/src/graph/algorithm/cycles/PatonSimpleCycles.java:116-127 | a cycle built by the climb is a closed walk of the graph (with the fix: it does not start at a vertex the neighbour already used) |
| PatonCycles.ReachSound | GraphDrawingTheory/src/graph/algorithm/cycles/PatonSimpleCycles.java:102-109 | recording a new vertex under current keeps the parent and used sets sound |
| PatonCycles.CycleSound | GraphDrawingTheory/src/graph/algorithm/cycles/PatonSimpleCycles.java:110-127 | adding an allowed cycle keeps the state sound |
| PatonCycles.UseSound | GraphDrawingTheory/src/graph/algorithm/cycles/PatonSimpleCycles.java:126 | adding current to the neighbour's used set keeps the state sound |
| PatonCycles.EdgeStepSound | GraphDrawingTheory/src/graph/algorithm/cycles/PatonSimpleCycles.java:98-128 | one edge keeps the state sound |
| PatonCycles.EdgesFromSound | GraphDrawingTheory/src/graph/algorithm/cycles/PatonSimpleCycles.java:97-129 | the edge loop keeps the state sound |
| PatonCycles.PopStepSound | GraphDrawingTheory/src/graph/algorithm/cycles/PatonSimpleCycles.java:94-129 | one pop keeps the state sound |
| PatonCycles.DrainSound | GraphDrawingTheory/src/graph/algorithm/cycles/PatonSimpleCycles.java:93-130 | the walk keeps the state sound |
| PatonCycles.FreshSound | GraphDrawingTheory/src/graph/algorithm/cycles/PatonSimpleCycles.java:86-89 | starting a component keeps the state sound |
| PatonCycles.ComponentsSound | GraphDrawingTheory/src/graph/algorithm/cycles/PatonSimpleCycles.java:77-131 | the loop over roots keeps the state sound |
| PatonCycles.WalkDivergesMeans | GraphDrawingTheory/src/graph/algorithm/cycles/PatonSimpleCycles.java:116-127 | the step fails exactly when the neighbour is used, differs from current, is not in current's used set, and the climb from current's parent never meets the neighbour's used set |
| PatonCycles.SearchMeaning | GraphDrawingTheory/src/graph/algorithm/cycles/PatonSimpleCycles.java:67-134 | a null graph is an error; a finished search gives every vertex a parent, empties the stack and is sound |
| PatonCycles.ClimbFrom | GraphDrawingTheory/src/graph/algorithm/cycles/PatonSimpleCycles.java:122-127 | the climb up the parent map from p, adding each vertex until one used by the neighbour, then that one; none when the fuel runs out first |
| PatonCycles.EdgeStep | GraphDrawingTheory/src/graph/algorithm/cycles/PatonSimpleCycles.java:97-130 | one edge of current's list: a new neighbour is parented, used with current and stacked; a self-loop gives [current]; a neighbour not used with current closes the climbed cycle and becomes used with it; with the fix a second edge gives [neighbour, current] |
| PatonCycles.EdgesFrom | GraphDrawingTheory/src/graph/algorithm/cycles/PatonSimpleCycles.java:97-131 | the loop over current's edges, one step per edge, stopping at the first failure |
| PatonCycles.Drain | GraphDrawingTheory/src/graph/algorithm/cycles/PatonSimpleCycles.java:94-132 | the while loop of one component: pop and scan until the stack is empty |
| PatonCycles.Components | GraphDrawingTheory/src/graph/algorithm/cycles/PatonSimpleCycles.java:77-133 | the loop over the vertices: each one without a parent roots a component, searched with the used sets cleared |
| PatonCycles.Search | GraphDrawingTheory/src/graph/algorithm/cycles/PatonSimpleCycles.java:67-134 | a null graph throws; otherwise the loop over the vertices from the empty state |
| PatonCycles.CyclesOf | GraphDrawingTheory/src/graph/algorithm/cycles/PatonSimpleCycles.java:67-134 | findSimpleCycles: the cycles of the final state, or the exception |
| PatonCycles.CyclesAsWritten | GraphDrawingTheory/src/graph/algorithm/cycles/PatonSimpleCycles.java:63-66 | every cycle reported as written is a closed walk or repeats the root |
| PatonCycles.CyclesCorrected | GraphDrawingTheory/src/graph/algorithm/cycles/PatonSimpleCycles.java:63-66 | every cycle reported with the fix is a closed walk |
| PatonCycles.Climb | GraphDrawingTheory/src/graph/algorithm/cycles/PatonSimpleCycles.java:120-125 | the loop computes the specified climb |
| PatonCycles.VisitEdge | GraphDrawingTheory/src/graph/algorithm/cycles/PatonSimpleCycles.java:98-128 | one edge of the loop computes the specified step |
| PatonCycles.WalkEdges | GraphDrawingTheory/src/graph/algorithm/cycles/PatonSimpleCycles.java:97-129 | the loop over current's edges computes the specified fold |
| PatonCycles.Walk | GraphDrawingTheory/src/graph/algorithm/cycles/PatonSimpleCycles.java:93-130 | the stack loop computes the specified walk |
| PatonCycles.PatonSimpleCycles.constructor | GraphDrawingTheory/src/graph/algorithm/cycles/PatonSimpleCycles.java:57-60 | the finder holds the graph |
| PatonCycles.PatonSimpleCycles.FindSimpleCycles | GraphDrawingTheory/src/graph/algorithm/cycles/PatonSimpleCycles.java:67-134 | the cycles returned are those of the specified search of the graph, or the null-graph error |
| PatonTermination.EdgesAtNoParallel | GraphDrawingTheory/src/graph/algorithm/cycles/PatonSimpleCycles.java:97 | the edges at one vertex of a graph without parallel edges have none either |
| PatonTermination.NeighbourLinks | GraphDrawingTheory/src/graph/algorithm/cycles/PatonSimpleCycles.java:98-101 | the neighbour picked is joined to current by the edge, and picking from the other side gives current back |
| PatonTermination.RepeatIsRoot | GraphDrawingTheory/src/graph/algorithm/cycles/PatonSimpleCycles.java:121-124 | a climb that revisits a vertex has reached a root |
| PatonTermination.ReachOk | GraphDrawingTheory/src/graph/algorithm/cycles/PatonSimpleCycles.java:102-109 | recording a new vertex keeps the loop invariant |
| PatonTermination.UseOk | GraphDrawingTheory/src/graph/algorithm/cycles/PatonSimpleCycles.java:116-126 | adding to a used set keeps the loop invariant |
| PatonTermination.ClimbReaches | GraphDrawingTheory/src/graph/algorithm/cycles/PatonSimpleCycles.java:116-124 | when a cycle is to be built, the neighbour is still on the stack and the climb from current's parent meets its used set |
| PatonTermination.ClimbSimple | GraphDrawingTheory/src/graph/algorithm/cycles/PatonSimpleCycles.java:116-127 | the cycle built has no repeated vertex |
| PatonTermination.NotUsedYet | GraphDrawingTheory/src/graph/algorithm/cycles/PatonSimpleCycles.java:116 | without parallel edges, current is never already in the used set of a neighbour still to be joined |
| PatonTermination.StepOk | GraphDrawingTheory/src/graph/algorithm/cycles/PatonSimpleCycles.java:98-128 | with the fix, or without parallel edges, one edge never fails and keeps the invariant |
| PatonTermination.EdgesFromOk | GraphDrawingTheory/src/graph/algorithm/cycles/PatonSimpleCycles.java:97-129 | under the same condition the edge loop never fails and keeps the invariant |
| PatonTermination.PopStepOk | GraphDrawingTheory/src/graph/algorithm/cycles/PatonSimpleCycles.java:94-129 | under the same condition one pop never fails |
| PatonTermination.DrainOk | GraphDrawingTheory/src/graph/algorithm/cycles/PatonSimpleCycles.java:93-130 | under the same condition the walk never fails and all cycles are simple |
| PatonTermination.ComponentsOk | GraphDrawingTheory/src/graph/algorithm/cycles/PatonSimpleCycles.java:77-131 | under the same condition the loop over roots never fails and all cycles are simple |
| PatonTermination.CorrectedSearchTerminates | GraphDrawingTheory/src/graph/algorithm/cycles/PatonSimpleCycles.java:63-66 | with the fix the search never diverges, and every cycle is a closed walk without a repeated vertex |
| PatonTermination.AsWrittenTerminatesWithoutParallel | GraphDrawingTheory/src/graph/algorithm/cycles/PatonSimpleCycles.java:63-66 | as written, on a graph without parallel edges, the search never diverges and every cycle is a simple closed walk |
| PatonTermination.EdgeStepLoops | GraphDrawingTheory/src/graph/algorithm/cycles/PatonSimpleCycles.java:110-115 | a step at a self-loop records the one-vertex cycle, and no step removes a cycle |
| PatonTermination.SelfLoopAt | GraphDrawingTheory/src/graph/algorithm/cycles/PatonSimpleCycles.java:97-101 | a self-loop at v is among the edges at v |
| PatonTermination.PopStepLoops | GraphDrawingTheory/src/graph/algorithm/cycles/PatonSimpleCycles.java:94-129 | after popping v, a self-loop at v has been recorded |
| PatonTermination.DrainLoops | GraphDrawingTheory/src/graph/algorithm/cycles/PatonSimpleCycles.java:93-130 | the walk records the self-loop of every vertex it pops |
| PatonTermination.ComponentsLoops | GraphDrawingTheory/src/graph/algorithm/cycles/PatonSimpleCycles.java:77-131 | the loop over roots records the self-loop of every vertex |
| PatonTermination.SelfLoopsReported | GraphDrawingTheory/src/graph/algorithm/cycles/PatonSimpleCycles.java:110-115 | a finished search reports [v] for a vertex v exactly when v has a self-loop |
| PatonFindings.RootParallel | GraphDrawingTheory/src/graph/algorithm/cycles/PatonSimpleCycles.java:116-127 | for a root with two parallel edges to one child, the search reports one cycle: [b, a, a] as written, [b, a] with the fix |
| PatonFindings.RootParallelNotWalk | GraphDrawingTheory/src/graph/algorithm/cycles/PatonSimpleCycles.java:116-127 | [b, a, a] is not a closed walk of that graph, and [b, a] is |
| PatonFindings.ParallelStep2 | GraphDrawingTheory/src/graph/algorithm/cycles/PatonSimpleCycles.java:116-124 | for a parallel pair b-c below the root a, the climb from b's parent never meets the used set of c |
| PatonFindings.Drain2 | GraphDrawingTheory/src/graph/algorithm/cycles/PatonSimpleCycles.java:93-130 | the walk of that graph diverges as written and ends with the fix |
| PatonFindings.BelowRootParallel | GraphDrawingTheory/src/graph/algorithm/cycles/PatonSimpleCycles.java:116-127 | for that graph the search diverges as written and reports [[c, b]] with the fix |
| PythonModels.LayoutGraphDefaults | GraphLayoutDSL/src/models/pythonmodels.py:10-19 | a layout graph built with no arguments has no graph, type, criteria, algorithm or expression, an empty style and exception, and is not content-addressed |
| PythonModels.LayoutGraphGetters | GraphLayoutDSL/src/models/pythonmodels.py:10-43 | each getter returns the value given to the constructor |
| PythonModels.SubgraphsKeepOrder | GraphLayoutDSL/src/models/pythonmodels.py:46-54 | getSubgraphs returns the list given, in order |
| PythonModels.GetTermsAlwaysFails | GraphLayoutDSL/src/models/pythonmodels.py:58-62 | getTerms always raises AttributeError for att_terms, since the constructor stored attrterms |
| PythonModels.GetTermsIntendedRoundTrip | GraphLayoutDSL/src/models/pythonmodels.py:58-62 | the intended getter returns the terms given to the constructor |
| PythonModels.GetFactorsRoundTrip | GraphLayoutDSL/src/models/pythonmodels.py:66-70 | getFactors returns the factors given to the constructor |
| PythonModels.FactorGetters | GraphLayoutDSL/src/models/pythonmodels.py:74-85 | isNegative and getExpression return what was given (negative is false by default); getAestheticCriterion always raises AttributeError, while the intended getter returns the criterion |
| PythonModels.GetAestheticCriterion | GraphLayoutDSL/src/models/pythonmodels.py:82-83 | getAestheticCriterion as written: an AttributeError for `att_aesthetic_criterion` |
| PythonModels.GetAestheticCriterionIntended | GraphLayoutDSL/src/models/pythonmodels.py:74-83 | the getter as evidently intended: the criterion the constructor stored |
| Interpreter.MapOfSnoc | GraphLayoutDSL/src/interpreter/Interpreter.py:76-78 | writing one more key into the dictionary is a map update |
| Interpreter.MapOfLastWriteWins | GraphLayoutDSL/src/interpreter/Interpreter.py:76-78 | a key is in the dictionary exactly when some attribute had that name, and it holds the value of the last one |
| Interpreter.VisibleAttrsSnoc | GraphLayoutDSL/src/interpreter/Interpreter.py:91-93 | one more attribute is kept exactly when its name neither starts with an underscore nor is parent |
| Interpreter.AlgorithmAttrsPrefix | GraphLayoutDSL/src/interpreter/Interpreter.py:70-78 | the loop over the algorithm's attributes is a left fold, one attribute at a time |
| Interpreter.AlgorithmAttrsFailurePersists | GraphLayoutDSL/src/interpreter/Interpreter.py:70-78 | once reading an attribute fails, the whole loop fails with that fault |
| Interpreter.AlgorithmAttrsHideSkipped | GraphLayoutDSL/src/interpreter/Interpreter.py:70-78 | no key starting with an underscore, and no parent key, reaches the algorithm's properties |
| Interpreter.VisibleAttrsHideSkipped | GraphLayoutDSL/src/interpreter/Interpreter.py:92 | no key starting with an underscore, and no parent key, reaches a criterion's properties |
| Interpreter.NodesVisibleAttrsHideSkipped | GraphLayoutDSL/src/interpreter/Interpreter.py:73-76 | the same for the attributes of the nested properties |
| Interpreter.AlgorithmWithoutProperties | GraphLayoutDSL/src/interpreter/Interpreter.py:70-78 | an algorithm with no properties attribute contributes exactly its visible attributes |
| Interpreter.PropertiesUnwrappedOneLevel | GraphLayoutDSL/src/interpreter/Interpreter.py:72-76 | a properties attribute contributes the visible attributes of each property, one level deep, and not itself |
| Interpreter.NatToString | GraphLayoutDSL/src/interpreter/Interpreter.py:42 | str of a natural number is a non-empty string of decimal digits |
| Interpreter.Tokens | GraphLayoutDSL/src/interpreter/Interpreter.py:40-45 | one token per vertex reference, in order |
| Interpreter.JoinedSnoc | GraphLayoutDSL/src/interpreter/Interpreter.py:46-47 | the tokens are joined with commas between them, and none after the last |
| Interpreter.ContentOnlySnoc | GraphLayoutDSL/src/interpreter/Interpreter.py:41-43 | the target stays content-addressed exactly while no vertex so far has a non-zero index |
| Interpreter.BuildTarget | GraphLayoutDSL/src/interpreter/Interpreter.py:38-48 | the loop builds the comma-joined target (or keeps the previous graph for an empty list) and says whether it is content-addressed |
| Interpreter.TargetSoFarStep | GraphLayoutDSL/src/interpreter/Interpreter.py:40-48 | one loop step appends the token and, unless it is the last, a comma |
| Interpreter.CriteriaMaps | GraphLayoutDSL/src/interpreter/Interpreter.py:87-94 | one property map per criterion, in order |
| Interpreter.PutVisible | GraphLayoutDSL/src/interpreter/Interpreter.py:91-93 | the loop adds exactly the visible attributes, later ones overwriting earlier ones |
| Interpreter.PutProperties | GraphLayoutDSL/src/interpreter/Interpreter.py:73-76 | the loop adds the visible attributes of each nested property |
| Interpreter.ExecuteOne | GraphLayoutDSL/src/interpreter/Interpreter.py:62-96 | execute_one returns the specified layout graph for the layout type |
| Interpreter.AlgorithmProperties | GraphLayoutDSL/src/interpreter/Interpreter.py:67-78 | the dictionary built from the algorithm's attributes, or the fault that stopped it |
| Interpreter.CriteriaList | GraphLayoutDSL/src/interpreter/Interpreter.py:87-94 | the list of criterion dictionaries |
| Interpreter.RunEntriesFailurePersists | GraphLayoutDSL/src/interpreter/Interpreter.py:32-55 | once a subgraph entry fails, the whole subgraph loop fails with that fault |
| Interpreter.RunEntriesPrefix | GraphLayoutDSL/src/interpreter/Interpreter.py:32-55 | the subgraph loop is a left fold, one entry at a time |
| Interpreter.ExecuteEntry | GraphLayoutDSL/src/interpreter/Interpreter.py:34-55 | one subgraph entry updates the loop state as specified |
| Interpreter.Execute | GraphLayoutDSL/src/interpreter/Interpreter.py:16-59 | execute returns the specified result; a syntax error gives a layout graph holding the message |
| Interpreter.SingleGraphTarget | GraphLayoutDSL/src/interpreter/Interpreter.py:25-28 | a whole-graph layout targets "graph" and carries the layout type |
| Interpreter.ExecuteOneKinds | GraphLayoutDSL/src/interpreter/Interpreter.py:62-96 | a directive is produced exactly for the algorithm, style and criteria types; it targets the given graph with that type, and other types give None |
| Interpreter.RunEntryFacts | GraphLayoutDSL/src/interpreter/Interpreter.py:34-55 | each entry appends one directive built for it; its content flag becomes the loop's flag, which an "others" entry leaves unchanged |
| Interpreter.EntriesInOrder | GraphLayoutDSL/src/interpreter/Interpreter.py:32-57 | one directive per entry, in order, each built for its entry; an "others" entry repeats the content flag of the entry before it |
| Interpreter.FirstOthersEntryFails | GraphLayoutDSL/src/interpreter/Interpreter.py:34-53 | an "others" entry first in the list fails, because content is not yet bound |
| Interpreter.AngleCriterionMap | GraphLayoutDSL/src/interpreter/Interpreter.py:89-94 | an angle criterion's dictionary holds exactly its criterion name and threshold |
| Interpreter.FlowCriterionMap | GraphLayoutDSL/src/interpreter/Interpreter.py:89-94 | a flow criterion's dictionary holds exactly its criterion name and direction |
| Interpreter.DistributeCriterionMap | GraphLayoutDSL/src/interpreter/Interpreter.py:89-94 | a distribute criterion's dictionary holds exactly its criterion name |
| Interpreter.CriteriaExample | GraphLayoutDSL/src/interpreter/Interpreter.py:86-96 | a criteria layout of three criteria gives their three dictionaries in order |
| DSLLayouter.SplitAll | GraphDrawingTheory/src/graph/layout/dsl/DSLLayouter.java:129 | splitting on commas gives at least one piece |
| DSLLayouter.SplitAllCommaFree | GraphDrawingTheory/src/graph/layout/dsl/DSLLayouter.java:129 | a piece with no comma splits into itself |
| DSLLayouter.SplitAllAppend | GraphDrawingTheory/src/graph/layout/dsl/DSLLayouter.java:129 | splitting at a comma splits each side separately |
| DSLLayouter.SplitAllJoined | GraphDrawingTheory/src/graph/layout/dsl/DSLLayouter.java:129 | splitting the comma-joined target gives back its comma-free tokens |
| DSLLayouter.JavaSplitJoined | GraphDrawingTheory/src/graph/layout/dsl/DSLLayouter.java:129 | String.split on the target built by the interpreter gives back its tokens, unless the last token is empty |
| DSLLayouter.JavaSplitDropsTrailingToken | GraphDrawingTheory/src/graph/layout/dsl/DSLLayouter.java:129 | String.split drops a trailing empty token: "1," splits into ["1"] |
| DSLLayouter.DigitsOfNat | GraphDrawingTheory/src/graph/layout/dsl/DSLLayouter.java:136 | the decimal digits of a natural number read back as that number |
| DSLLayouter.ParseIntOfDigits | GraphDrawingTheory/src/graph/layout/dsl/DSLLayouter.java:136 | Integer.parseInt reads a digit string within the int range as its value |
| DSLLayouter.ParseIntOfNegatedDigits | GraphDrawingTheory/src/graph/layout/dsl/DSLLayouter.java:136 | Integer.parseInt reads a minus sign and digits within the int range as the negated value |
| DSLLayouter.ParseIntOfIntToString | GraphDrawingTheory/src/graph/layout/dsl/DSLLayouter.java:136 | Integer.parseInt reads back any int written in decimal |
| DSLLayouter.BigNeedsBothThresholds | GraphDrawingTheory/src/graph/layout/dsl/DSLLayouter.java:228-231 | a graph is big exactly when it has at least 1000 vertices and at least 2000 edges |
| DSLLayouter.CopyPropertiesSpec | GraphDrawingTheory/src/graph/layout/dsl/DSLLayouter.java:238-400 | copying a table sets exactly the properties whose source key the algorithm map holds, each to the copied value |
| DSLLayouter.AlgorithmTablesDistinct | GraphDrawingTheory/src/graph/layout/dsl/DSLLayouter.java:238-404 | each algorithm's copy table sets each property at most once |
| DSLLayouter.AlgorithmTablesInFamily | GraphDrawingTheory/src/graph/layout/dsl/DSLLayouter.java:238-404 | each algorithm's copy table only sets properties of that algorithm's own family |
| DSLLayouter.HierarchicalLeftMissesOrientation | GraphDrawingTheory/src/graph/layout/dsl/DSLLayouter.java:311-321 | orientation "left" for the hierarchical layout sets the node-link tree orientation key and not the hierarchical one; the intended version sets the hierarchical key |
| DSLLayouter.HierarchicalOrientationIntendedSpec | GraphDrawingTheory/src/graph/layout/dsl/DSLLayouter.java:311-321 | the intended orientation sets the hierarchical orientation for right, left, down and up and changes nothing otherwise |
| DSLLayouter.SelectAlgorithm | GraphDrawingTheory/src/graph/layout/dsl/DSLLayouter.java:233-408 | a selected algorithm always carries properties, not the algorithm's defaults |
| DSLLayouter.SelectAlgorithmCopies | GraphDrawingTheory/src/graph/layout/dsl/DSLLayouter.java:233-408 | for a known name the chosen algorithm is the one the name gives, and its properties are exactly the table's copied entries |
| DSLLayouter.OrganicVariants | GraphDrawingTheory/src/graph/layout/dsl/DSLLayouter.java:358-393 | "organic" with a type attribute selects the fast organic layout, without one the organic layout |
| DSLLayouter.SelectStyle | GraphDrawingTheory/src/graph/layout/dsl/DSLLayouter.java:410-438 | a recognised style gives an algorithm; only "automatic" comes without properties, the others with the algorithm's defaults |
| DSLLayouter.StyleMapping | GraphDrawingTheory/src/graph/layout/dsl/DSLLayouter.java:410-438 | exactly the six styles are recognised; automatic has no properties; general is ISOM for a big graph and Kamada-Kawai otherwise; no other style depends on the graph |
| DSLLayouter.RecordSpec | GraphDrawingTheory/src/graph/layout/dsl/DSLLayouter.java:480-512 | recording a criterion sets its index and leaves the others |
| DSLLayouter.ScanSpec | GraphDrawingTheory/src/graph/layout/dsl/DSLLayouter.java:476-513 | the recorded indices are -1 or positions in the list |
| DSLLayouter.ScanCriteria | GraphDrawingTheory/src/graph/layout/dsl/DSLLayouter.java:476-513 | the loop computes the specified scan |
| DSLLayouter.ScanFailurePersists | GraphDrawingTheory/src/graph/layout/dsl/DSLLayouter.java:476-513 | once a criterion name cannot be read, the scan fails with that fault |
| DSLLayouter.ScanRecordsLastOccurrence | GraphDrawingTheory/src/graph/layout/dsl/DSLLayouter.java:476-513 | a criterion's index is -1 exactly when no criterion has that name, and otherwise the last position with it |
| DSLLayouter.ScanStep | GraphDrawingTheory/src/graph/layout/dsl/DSLLayouter.java:476-513 | each criterion records its name at its position |
| DSLLayouter.ScanFaultsOnBadName | GraphDrawingTheory/src/graph/layout/dsl/DSLLayouter.java:479-480 | the scan fails exactly when some criterion's name cannot be read as a string |
| DSLLayouter.DecideCriteria | GraphDrawingTheory/src/graph/layout/dsl/DSLLayouter.java:517-620 | the criteria decision always gives an algorithm and properties |
| DSLLayouter.SelectLayoutOutcomes | GraphDrawingTheory/src/graph/layout/dsl/DSLLayouter.java:226-630 | an unknown layout type selects nothing; criteria always select an algorithm; a style selects what the style mapping says |
| DSLLayouter.PlanarCriterionAlone | GraphDrawingTheory/src/graph/layout/dsl/DSLLayouter.java:524-550 | planarity or crossings alone chooses compact tree for a tree, convex for a convex-drawable graph, ISOM for a big graph and organic otherwise |
| DSLLayouter.TreeCriteria | GraphDrawingTheory/src/graph/layout/dsl/DSLLayouter.java:552-582 | for a tree not covered by the single planar case, with no distribution or with flow, the choice is the node-link tree; flow to the left before symmetry gives orientation 1 |
| DSLLayouter.OrganicFlagsSpec | GraphDrawingTheory/src/graph/layout/dsl/DSLLayouter.java:603-618 | the organic layout always fine-tunes, and optimises crossings, edge distance or node distribution exactly when those criteria are present |
| DSLLayouter.IndexedVertices | GraphDrawingTheory/src/graph/layout/dsl/DSLLayouter.java:131-138 | one vertex per token, each the one the token names |
| DSLLayouter.IndexedVerticesSucceed | GraphDrawingTheory/src/graph/layout/dsl/DSLLayouter.java:131-138 | when every token names a vertex, the selection succeeds |
| DSLLayouter.IndexedFailurePersists | GraphDrawingTheory/src/graph/layout/dsl/DSLLayouter.java:131-138 | a token that names no vertex makes the selection fail with its fault |
| DSLLayouter.SelectByIndex | GraphDrawingTheory/src/graph/layout/dsl/DSLLayouter.java:131-138 | the loop computes the specified selection |
| DSLLayouter.ContentScan | GraphDrawingTheory/src/graph/layout/dsl/DSLLayouter.java:139-142 | the loop computes the as-written content selection |
| DSLLayouter.ContentScanSelectsNothing | GraphDrawingTheory/src/graph/layout/dsl/DSLLayouter.java:139-142 | as written, selecting vertices by content selects none |
| DSLLayouter.ContentVerticesSpec | GraphDrawingTheory/src/graph/layout/dsl/DSLLayouter.java:139-142 | the intended content selection holds exactly the vertices whose content is one of the tokens |
| DSLLayouter.ContentTargetExample | GraphDrawingTheory/src/graph/layout/dsl/DSLLayouter.java:139-142 | for the target "a" and one vertex with content a, the code selects nothing and the intended version selects that vertex |
| DSLLayouter.PartsFailurePersists | GraphDrawingTheory/src/graph/layout/dsl/DSLLayouter.java:118-153 | once a subgraph fails, the whole loop fails with that fault |
| DSLLayouter.RunParts | GraphDrawingTheory/src/graph/layout/dsl/DSLLayouter.java:118-153 | the loop over subgraphs computes the specified steps |
| DSLLayouter.OtherVertices | GraphDrawingTheory/src/graph/layout/dsl/DSLLayouter.java:157-160 | the loop computes the vertices no subgraph claimed |
| DSLLayouter.Layout | GraphDrawingTheory/src/graph/layout/dsl/DSLLayouter.java:98-172 | layout computes the specified plan |
| DSLLayouter.UnclaimedSpec | GraphDrawingTheory/src/graph/layout/dsl/DSLLayouter.java:157-160 | the other vertices are exactly the vertices no subgraph claimed |
| DSLLayouter.PartsSpecFacts | GraphDrawingTheory/src/graph/layout/dsl/DSLLayouter.java:118-153 | the claimed vertices are exactly those of the steps; no step is for "others"; the others directive is the one named "others" in the list, and is absent exactly when none is |
| DSLLayouter.PartsClaimed | GraphDrawingTheory/src/graph/layout/dsl/DSLLayouter.java:144 | the claimed vertices are exactly those of the steps |
| DSLLayouter.PartsDirectives | GraphDrawingTheory/src/graph/layout/dsl/DSLLayouter.java:118-123 | no step is for "others", and the others directive is present exactly when the list names one |
| DSLLayouter.PartsOthers | GraphDrawingTheory/src/graph/layout/dsl/DSLLayouter.java:120-123 | the others directive comes from the list and is absent exactly when none is named "others" |
| DSLLayouter.NoOthersSplit | GraphDrawingTheory/src/graph/layout/dsl/DSLLayouter.java:120-123 | no entry named "others" in a list means none in its prefix and none at its end |
| DSLLayouter.OthersGetTheRest | GraphDrawingTheory/src/graph/layout/dsl/DSLLayouter.java:156-169 | when the list names "others", the last step lays out exactly the vertices no earlier step claimed |
| DSLLayouter.SingleExceptionRaised | GraphDrawingTheory/src/graph/layout/dsl/DSLLayouter.java:104-105 | a single directive with an exception message raises DSLException with that message |
| DSLLayouter.IndexTokenShape | GraphDrawingTheory/src/graph/layout/dsl/DSLLayouter.java:129-136 | an index token is non-empty and has no comma |
| DSLLayouter.IndexTargetRoundTrip | GraphDrawingTheory/src/graph/layout/dsl/DSLLayouter.java:129-138 | a target written from vertex indices within range selects exactly those vertices, in order |
| DSLLayouter.AllDrawingsInFirstRow | GraphDrawingTheory/src/graph/layout/dsl/DSLLayouter.java:195-222 | as written, every drawing stays in the first row: the counter stays 1 and the vertical start never moves |
| DSLLayouter.IntendedRowPrefix | GraphDrawingTheory/src/graph/layout/dsl/DSLLayouter.java:195-222 | with the counter advancing, fewer than four drawings stay in the first row, side by side |
| DSLLayouter.IntendedFirstRowWraps | GraphDrawingTheory/src/graph/layout/dsl/DSLLayouter.java:216-220 | with the counter advancing, the fourth drawing ends the row and the next starts at startX, below the tallest |
| DSLLayouter.CopiesSizes | GraphDrawingTheory/src/graph/layout/dsl/DSLLayouter.java:195-222 | n equal drawings have n times the width and, when n > 0, the height of one |
| DSLLayouter.FifthDrawingAsWritten | GraphDrawingTheory/src/graph/layout/dsl/DSLLayouter.java:195-222 | after four 100 by 100 drawings the next starts at (1400, 200) as written |
| DSLLayouter.FifthDrawingIntended | GraphDrawingTheory/src/graph/layout/dsl/DSLLayouter.java:195-222 | after four 100 by 100 drawings the next starts at (200, 500) as intended |
| DSLLayouter.Positioner.constructor | GraphDrawingTheory/src/graph/layout/dsl/DSLLayouter.java:77-88 | the counters start at (200, 200) with maxYInRow 0 and the counter 1 |
| DSLLayouter.Positioner.PositionDrawing | GraphDrawingTheory/src/graph/layout/dsl/DSLLayouter.java:195-222 | the offsets move the drawing's leftmost point and top to the current start, and the counters change as the as-written placement says |
| DSLLayouter.PartsStepsNamed | GraphDrawingTheory/src/graph/layout/dsl/DSLLayouter.java:118-123 | every step is for a named subgraph other than "others" |
| DSLLayouter.PartsOthersFrom | GraphDrawingTheory/src/graph/layout/dsl/DSLLayouter.java:120-123 | a recorded others directive is an entry of the list named "others" |
| DSLLayouter.PartsOthersAbsent | GraphDrawingTheory/src/graph/layout/dsl/DSLLayouter.java:120-123 | no others directive is recorded exactly when no entry is named "others" |

## Left out

- Permutations.Order: Java compares boxed `Integer` values with `==` and `!=` (Permutation.java lines 63, 79, 94 and 156; PermutationGroup.java lines 61 and 103), and the model compares values instead. For labels outside -128..127, two equal values can be distinct objects. There, isIdentityPermutation, fix, equals and stabilizers answer false, and the loops of `order()` and `cyclicRepresenatation` never end. The model does not capture this.
- Permutations.Inverse: a key whose image is null is dropped. Java's inverse() (Permutation.java lines 24-34) puts it under the null key, which HashMap accepts, and mul can produce such an image when the key sets differ. Null images, and the null key they create, are not modelled; a bijection has none.
- Permutations.Order: requires a bijection. On a map that is not one, the Java loop may never reach the identity.
- Permutations.CyclicRepresentation: the same value-comparison simplification applies. `while (next != key)` at Permutation.java line 79 is modelled on values.
- DSLLayouter.Positioner.PositionDrawing: coordinates are unbounded integers. The 32-bit `int` wrap-around of Java's `currentStartPositionX/Y` and of the offsets is not modelled.
- DSLLayouter.Layout: the drawing itself is not modelled. This covers the JUNG/JGraphX layouts behind Layouter, the `Drawing` objects, `formOneGraph`, and the null drawing that `executeOne` returns after a CannotBeAppliedException. That null would raise a NullPointerException in subgraph mode, and the model does not capture it.
- DSLLayouter.Layout: when the style is "automatic", Java leaves the layouter's previously set properties in place. The model records only that no properties are set.
- DSLLayouter.SelectLayout: the facts about the graph are inputs (`GraphFacts`), not computed. These are the vertex and edge counts, GraphProperties.isTree, and whether ConvexDrawing.execute succeeds. The planarity test's result is computed but never read by the layouter, so the call is dropped.
- DSLLayouter.ParseInt: accepts only the ASCII digits '0'..'9'. Java's Integer.parseInt also accepts other Unicode decimal digits.
- DSLLayouter.RunParts: Java reuses one `subgraphVertices` list object across the subgraphs. The model builds a fresh sequence per subgraph, so the aliasing is not modelled.
- Interpreter.Execute: the textX metamodel loading and parsing are inputs. `Execute` receives either the syntax error message or the parsed model.
- Interpreter.Execute: Python's `print` calls are left out.
- Interpreter.Execute: a CST node's attributes (`__dict__`) are an explicit sequence. Python 2's dict iteration order is not modelled.
- OrderedPartitions.OrderedPartition.Replace: returns `found == false` and leaves the partition unchanged when the part is absent. Java's `partition.remove(-1)` throws IndexOutOfBoundsException there.
- OrderedPartitions.OrderedPartition.AddPart: parts are values. Java's partition holds references to the caller's lists, which can be shared and changed from outside, and that aliasing is not modelled.
- LRPartitionSets.LRPartitionSet.Add: the stored list is a copy of the caller's class. Java stores the caller's list object itself, so later changes by the caller would show through. That aliasing is not modelled.
- LRPartitionSets.LRPartitionSet: addRemainingEdges is left out, because it places edges by random choice.
- PQTreeNodes.PQTreeNode.ImmediateSiblings: requires that a Q-node parent has at least two children. With one child, Java indexes out of range.
- PQTreeNodes.PQTreeNode.AddChild: requires the child lists to be allocated. On a leaf, Java throws NullPointerException.
- DFSTrees.DFSTree.GetIndex: requires the vertex to have an index. Java unboxes null and throws NullPointerException.
- DFSTrees.Outgoing: the tree functions require `Indexed` (every tree or back edge endpoint has an index), which the DFS construction guarantees. On a tree that breaks it, Java would throw NullPointerException.
- DFSTrees.DFSTree: the following are left out as accessors and debugging helpers that the algorithms here do not use: incomingEdge, allIncomingBackEdges, allOutgoingEdges, getHighestReturningEdge, treeEdgesBetween, treePathBetween, findAllPathsDFS, the second constructor, the getters and setters, and toString.
- SplitPairs.EqualsAsWritten: takes a split pair. Java's equals(Object) throws ClassCastException on any other kind of object (SplitPair.java line 108).
- Biconnected.FindComponentsValid: the components are not proved 2-connected, nor maximal. What is proved (BiconnectedCover.FindComponentsPartition) is that on a graph without self-loops or parallel edges every listed edge lies in exactly one component.
- Biconnected.FindComponentsValid: on a graph with a self-loop, or with a second edge to a vertex's parent, the test at BiconnectedSplitting.java line 78 never pushes that edge. Such edges land in no component. The model computes this, but no lemma states it.
- Properties.Indexed: every GraphProperties query requires that the ends of listed edges are listed vertices. Graph.addEdge (Graph.java lines 109-121) allows an edge whose other end is not a listed vertex. There indexOf gives -1 and `visited[-1]` throws ArrayIndexOutOfBoundsException (GraphProperties.java lines 84-85). The model does not capture this exception.
- Biconnected.Splittable: excludes the same indexOf -1 case, at BiconnectedSplitting.java line 68. It also excludes the NullPointerException at line 66 for a vertex without an adjacency list. The model captures neither exception.
- PQTreeNodes.PQTreeNode.OrderValidUpToOnePartial: requires at least one child. On a node without children, `children.get(0)` throws IndexOutOfBoundsException (PQTreeNode.java line 202).
- PQTreeNodes.PQTreeNode.OrderValidUpToTwoPartial: requires at least one child, where `children.get(0)` throws otherwise (PQTreeNode.java line 263). It also requires no more empty children than children, as a consistent node has. On an inconsistent node, the `children.get(firstEmpty)` at lines 307 and 313 can index past the end.
- GraphOperations.FormCycleGraph: the edge class parameter and createNewEdge are not modelled (GraphOperations.java lines 161-176); each edge is built directly. A null edge class throws RuntimeException. A failed newInstance returns a null edge, which is then added to the graph. The model captures neither.
- Properties.IsTreeSpec: the result of isCyclic is a parameter, not computed, because it is a separate traversal.
- toString and logging methods of every class are left out. So is hashCode, except for SplitPair.hashCode, which `SplitPairs.HashCode` models.

## Findings

| source | as written | input that shows it | evidently intended | confidence | as-written member | corrected member |
|---|---|---|---|---|---|---|
| GraphDrawingTheory/src/graph/elements/Path.java:146-149 | containsDuplicates returns `set.size() == path.size()`, true when no edge repeats | a path of two distinct edges | true exactly when some edge occurs twice, as its documentation says | high, not executed | Paths.Path.ContainsDuplicates | Paths.Path.ContainsDuplicatesIntended |
| GraphDrawingTheory/src/graph/elements/Path.java:111-125 | isCyclic takes the start of the last edge as its end | a single edge a to b, traversed to its destination, is called cyclic | cyclic exactly when the walk ends where it starts | high, not executed | Paths.SingleEdgeCalledCyclic | Paths.IsCyclicClosesWalk |
| GraphDrawingTheory/src/graph/tree/pq/PQTreeNode.java:318-320 | orderValidUpToTwoPartial returns false after all checks pass | children partial, full, partial | true for every order of the documented shape | high, not executed | PQTreeNodes.PQTreeNode.OrderValidUpToTwoPartialAsWritten | PQTreeNodes.TwoPartialChoice |
| GraphDrawingTheory/src/graph/operations/GraphOperations.java:141-147 | with one vertex the loop never runs, so `current` and `next` stay null, and `ret.addVertex(next)` calls getContent on null (Graph.java line 88) | the vertex list [v] | a one-vertex cycle: v with a self-loop | medium, not executed | GraphOperations.OneVertexCycle | GraphOperations.FormCycleGraphIntended |
| GraphDrawingTheory/src/graph/symmetry/PermutationGroup.java:76-87 | subsetStabilizers adds the permutation inside the loop over Y | the identity with Y = [1, 2] is listed twice; with Y empty nothing is listed | each permutation that maps Y into Y, listed once | high, not executed | PermutationGroups.SubsetStabilizersRepeats | PermutationGroups.SubsetStabilizers |
| GraphLayoutDSL/src/models/pythonmodels.py:58-62 | getTerms reads `att_terms`, while the constructor stores `attrterms` | any MExpression | getTerms returns the terms given | high, not executed | PythonModels.GetTermsAlwaysFails | PythonModels.GetTermsIntendedRoundTrip |
| GraphLayoutDSL/src/models/pythonmodels.py:74-85 | getAestheticCriterion reads `att_aesthetic_criterion`, while the constructor stores `att_aestheti_criterion` | any MFactor | the getter returns the criterion given | high, not executed | PythonModels.GetAestheticCriterion | PythonModels.FactorGetters |
| GraphDrawingTheory/src/graph/layout/dsl/DSLLayouter.java:195-222 | currentIndex is never incremented, so the row never wraps | five 100 by 100 drawings: the fifth starts at (1400, 200) | four drawings per row: the fifth starts at (200, 500) | high, not executed | DSLLayouter.FifthDrawingAsWritten | DSLLayouter.FifthDrawingIntended |
| GraphDrawingTheory/src/graph/layout/dsl/DSLLayouter.java:311-321 | the hierarchical layout's left, down and up orientations are written to the node-link tree ORIENTATION key | algorithm hierarchical with orientation left | the hierarchical ORIENTATION key | high, not executed | DSLLayouter.HierarchicalLeftMissesOrientation | DSLLayouter.HierarchicalOrientationIntendedSpec |
| GraphDrawingTheory/src/graph/layout/dsl/DSLLayouter.java:139-142 | the content branch asks whether the still-empty selection contains each vertex's content | target "a" and a vertex with content a | the vertices whose content is one of the target's tokens | high, not executed | DSLLayouter.ContentScanSelectsNothing | DSLLayouter.ContentVerticesSpec |
| GraphDrawingTheory/src/graph/properties/GraphProperties.java:173-177 | listMultiEdges also scans the pair (b, b) | one edge a-b is reported as a multi-edge | only pairs with two or more edges between them are reported | high, not executed | PropertiesFindings.SingleEdgeReported | PropertiesFindings.SingleEdgeNotReported |
| GraphDrawingTheory/src/graph/properties/GraphProperties.java:220-223 | the final size check of isRing always holds | two separate double edges a=b and c=d | a ring is one cycle through every vertex | high, not executed | PropertiesFindings.TwoPairsRing | PropertiesFindings.TwoPairsNotRing |
| GraphDrawingTheory/src/graph/properties/components/SplitPair.java:111-112 | the swapped case compares v with other.v | (a, b) against (b, a) | split pairs are unordered: (a, b) equals (b, a) | high, not executed | SplitPairs.SwappedPairNotEqual | SplitPairs.SamePairIsEquivalence |
| GraphDrawingTheory/src/graph/algorithm/cycles/PatonSimpleCycles.java:116-127 | a parallel edge back to the parent closes a cycle through the wrong branch | a root a with two parallel edges to b gives [b, a, a]; a parallel pair b-c below the root makes the climb never end | [b, a] and [c, b] | medium, not executed | PatonFindings.RootParallel | PatonFindings.BelowRootParallel |
