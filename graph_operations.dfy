/** Operations between graphs (GraphDrawingTheory/src/graph/operations/GraphOperations.java):
    common vertices and edges, union, the subgraph tests, removing an edge from a copy,
    and the cycle on a list of vertices.

    Graphs read by an operation are given as their state (GraphData); graphs an
    operation builds are fresh Graph objects filled through addVertex and addEdge. */
module GraphOperations {
  import opened Wrappers
  import opened GraphElements

  /** s is s' with some members left out, the rest in the same order. */
  predicate Subsequence<T(==)>(r: seq<T>, s: seq<T>)
  {
    if r == [] then true
    else if s == [] then false
    else if r[|r| - 1] == s[|s| - 1] then Subsequence(r[..|r| - 1], s[..|s| - 1])
    else Subsequence(r, s[..|s| - 1])
  }

  /** The members of s that are also in t, in the order of s. */
  function Common<T(==,!new)>(s: seq<T>, t: seq<T>): (r: seq<T>)
    ensures forall x :: x in r <==> x in s && x in t
    ensures Subsequence(r, s)
    ensures NoDuplicates(s) ==> NoDuplicates(r)
  {
    if s == [] then []
    else
      var pre := Common(s[..|s| - 1], t);
      var last := s[|s| - 1];
      assert s == s[..|s| - 1] + [last];
      assert NoDuplicates(s) ==> NoDuplicates(s[..|s| - 1]) && last !in s[..|s| - 1] by {
        if NoDuplicates(s) {
          NoDuplicatesPrefix(s);
        }
      }
      if last in t then
        assert (pre + [last])[..|pre|] == pre;
        pre + [last]
      else
        pre
  }

  /** verticesInCommon: the vertices of graph1 that graph2 also has, in graph1's order. */
  function VerticesInCommon(g1: GraphData, g2: GraphData): (r: seq<Vertex>)
    ensures forall v :: v in r <==> v in g1.vertices && v in g2.vertices
    ensures Subsequence(r, g1.vertices)
  {
    Common(g1.vertices, g2.vertices)
  }

  /** edgesInCommon: the edges of graph1 that graph2 also has, in graph1's order. */
  function EdgesInCommon(g1: GraphData, g2: GraphData): (r: seq<Edge>)
    ensures forall e :: e in r <==> e in g1.edges && e in g2.edges
    ensures Subsequence(r, g1.edges)
  {
    Common(g1.edges, g2.edges)
  }

  /** Every member of s is in t, checked member by member with an early false. */
  function AllIn<T(==,!new)>(s: seq<T>, t: seq<T>): (r: bool)
    ensures r <==> forall x :: x in s ==> x in t
  {
    if s == [] then true
    else if s[0] !in t then false
    else
      assert forall x :: x in s ==> x == s[0] || x in s[1..];
      AllIn(s[1..], t)
  }

  /** isSubgraph: every vertex and every edge of the subgraph is in the supergraph. */
  function IsSubgraph(supergraph: GraphData, subgraph: GraphData): (r: bool)
    ensures r <==> ((forall v :: v in subgraph.vertices ==> v in supergraph.vertices)
                    && (forall e :: e in subgraph.edges ==> e in supergraph.edges))
  {
    AllIn(subgraph.vertices, supergraph.vertices) && AllIn(subgraph.edges, supergraph.edges)
  }

  /** isProperSubgraph: a subgraph whose vertex or edge count differs. */
  function IsProperSubgraph(supergraph: GraphData, subgraph: GraphData): bool
  {
    if !IsSubgraph(supergraph, subgraph) then false
    else |supergraph.vertices| != |subgraph.vertices| || |supergraph.edges| != |subgraph.edges|
  }

  /** For valid graphs, counting is the same as comparing: a subgraph is proper exactly
      when the supergraph has a vertex or an edge that it lacks. */
  lemma ProperSubgraphMissesSomething(supergraph: GraphData, subgraph: GraphData)
    requires Valid(supergraph) && Valid(subgraph)
    ensures IsProperSubgraph(supergraph, subgraph) <==>
      IsSubgraph(supergraph, subgraph)
      && ((exists v :: v in supergraph.vertices && v !in subgraph.vertices)
          || (exists e :: e in supergraph.edges && e !in subgraph.edges))
  {
    if IsSubgraph(supergraph, subgraph) {
      DistinctCount(subgraph.vertices);
      DistinctCount(supergraph.vertices);
      DistinctCount(subgraph.edges);
      DistinctCount(supergraph.edges);
      if |supergraph.vertices| == |subgraph.vertices| {
        SameSizeSubset(subgraph.vertices, supergraph.vertices);
      } else {
        SubsetShorter(subgraph.vertices, supergraph.vertices);
      }
      if |supergraph.edges| == |subgraph.edges| {
        SameSizeSubset(subgraph.edges, supergraph.edges);
      } else {
        SubsetShorter(subgraph.edges, supergraph.edges);
      }
    }
  }

  /** addVertex for each vertex of a list, in order. */
  function AddVertices(g: GraphData, vs: seq<Vertex>): GraphData
  {
    if vs == [] then g else AddVertexTo(AddVertices(g, vs[..|vs| - 1]), vs[|vs| - 1])
  }

  /** addEdge for each edge of a list, in order. */
  function AddEdges(g: GraphData, es: seq<Edge>): GraphData
  {
    if es == [] then g else AddEdgeTo(AddEdges(g, es[..|es| - 1]), es[|es| - 1])
  }

  /** Adding vertices keeps a graph valid, adds exactly them, keeps the edges, and
      appends them in order to a graph that had none of them. */
  lemma {:induction false} AddVerticesSpec(g: GraphData, vs: seq<Vertex>)
    requires Valid(g)
    ensures var h := AddVertices(g, vs);
      && Valid(h) && h.edges == g.edges && h.directed == g.directed
      && (forall v :: v in h.vertices <==> v in g.vertices || v in vs)
      && (NoDuplicates(vs) && (forall v :: v in vs ==> v !in g.vertices) ==> h.vertices == g.vertices + vs)
  {
    if vs != [] {
      var pre := vs[..|vs| - 1];
      var last := vs[|vs| - 1];
      AddVerticesSpec(g, pre);
      AddVertexValid(AddVertices(g, pre), last);
      assert vs == pre + [last];
      if NoDuplicates(vs) {
        NoDuplicatesPrefix(vs);
      }
    }
  }

  /** Adding edges keeps a graph valid, adds exactly them and keeps the vertices. */
  lemma {:induction false} AddEdgesSpec(g: GraphData, es: seq<Edge>)
    requires Valid(g)
    ensures var h := AddEdges(g, es);
      && Valid(h) && h.vertices == g.vertices && h.directed == g.directed
      && (forall e :: e in h.edges <==> e in g.edges || e in es)
  {
    if es != [] {
      var pre := es[..|es| - 1];
      AddEdgesSpec(g, pre);
      AddEdgeValid(AddEdges(g, pre), es[|es| - 1]);
      assert es == pre + [es[|es| - 1]];
    }
  }

  /** union: an undirected graph filled with the vertices and then the edges of each
      graph in turn. */
  function Union(graphs: seq<GraphData>): GraphData
  {
    if graphs == [] then EmptyGraph(false)
    else
      var last := graphs[|graphs| - 1];
      AddEdges(AddVertices(Union(graphs[..|graphs| - 1]), last.vertices), last.edges)
  }

  /** The union is a valid graph (so it lists each vertex and edge once) whose vertices
      and edges are exactly those of the given graphs. */
  lemma {:induction false} UnionSpec(graphs: seq<GraphData>)
    ensures Valid(Union(graphs))
    ensures forall v :: v in Union(graphs).vertices <==> exists k :: 0 <= k < |graphs| && v in graphs[k].vertices
    ensures forall e :: e in Union(graphs).edges <==> exists k :: 0 <= k < |graphs| && e in graphs[k].edges
  {
    if graphs != [] {
      var n := |graphs| - 1;
      UnionSpec(graphs[..n]);
      UnionStep(graphs);
    }
  }

  /** One more graph in the union: its vertices and edges join those already there. */
  lemma UnionStep(graphs: seq<GraphData>)
    requires graphs != []
    requires Valid(Union(graphs[..|graphs| - 1]))
    ensures var u0 := Union(graphs[..|graphs| - 1]);
      var u := Union(graphs);
      var last := graphs[|graphs| - 1];
      && Valid(u)
      && (forall v :: v in u.vertices <==> v in u0.vertices || v in last.vertices)
      && (forall e :: e in u.edges <==> e in u0.edges || e in last.edges)
  {
    var n := |graphs| - 1;
    var u0 := Union(graphs[..n]);
    AddVerticesSpec(u0, graphs[n].vertices);
    AddEdgesSpec(AddVertices(u0, graphs[n].vertices), graphs[n].edges);
  }

  /** Adds the vertices of a list to a graph object, one addVertex call each. */
  method AddAllVertices(ret: Graph, vs: seq<Vertex>)
    modifies ret
    ensures ret.View() == AddVertices(old(ret.View()), vs)
  {
    ghost var g0 := ret.View();
    for i := 0 to |vs|
      invariant ret.View() == AddVertices(g0, vs[..i])
    {
      assert vs[..i + 1][..i] == vs[..i];
      if vs[i] !in ret.vertices {
        ret.AddVertex(vs[i]);
      }
    }
    assert vs[..|vs|] == vs;
  }

  /** Adds the edges of a list to a graph object, one addEdge call each. */
  method AddAllEdges(ret: Graph, es: seq<Edge>)
    modifies ret
    ensures ret.View() == AddEdges(old(ret.View()), es)
  {
    ghost var g0 := ret.View();
    for i := 0 to |es|
      invariant ret.View() == AddEdges(g0, es[..i])
    {
      assert es[..i + 1][..i] == es[..i];
      if es[i] !in ret.edges {
        ret.AddEdge(es[i]);
      }
    }
    assert es[..|es|] == es;
  }

  /** union of a list of graphs, built in a new graph. */
  method UnionOf(graphs: seq<GraphData>) returns (ret: Graph)
    ensures fresh(ret)
    ensures ret.View() == Union(graphs)
  {
    ret := new Graph(false);
    for k := 0 to |graphs|
      invariant ret.View() == Union(graphs[..k])
    {
      assert graphs[..k + 1][..k] == graphs[..k];
      AddAllVertices(ret, graphs[k].vertices);
      AddAllEdges(ret, graphs[k].edges);
    }
    assert graphs[..|graphs|] == graphs;
  }

  /** Graph(List, List): an undirected graph given its vertices and then its edges. */
  function FromLists(vs: seq<Vertex>, es: seq<Edge>): GraphData
  {
    AddEdges(AddVertices(EmptyGraph(false), vs), es)
  }

  /** removeEdgeFromGraph: a copy through Graph(List, List) that loses the edge. */
  function RemoveEdgeFromGraph(g: GraphData, e: Edge): GraphData
  {
    RemoveEdgeFrom(FromLists(g.vertices, g.edges), e)
  }

  /** The copy without the edge is a valid undirected graph with the same vertices and
      every other edge of the original. */
  lemma RemoveEdgeFromGraphSpec(g: GraphData, e: Edge)
    requires Valid(g)
    ensures var h := RemoveEdgeFromGraph(g, e);
      && Valid(h) && !h.directed && h.vertices == g.vertices
      && (forall f :: f in h.edges <==> f in g.edges && f != e)
  {
    var empty := EmptyGraph(false);
    AddVerticesSpec(empty, g.vertices);
    var withVertices := AddVertices(empty, g.vertices);
    assert withVertices.vertices == g.vertices;
    AddEdgesSpec(withVertices, g.edges);
    var copy := FromLists(g.vertices, g.edges);
    RemoveEdgeValid(copy, e);
  }

  /** removeEdgeFromGraph on a graph object: the original is left as it was. */
  method RemoveEdgeFromGraphOf(graph: Graph, e: Edge) returns (ret: Graph)
    ensures fresh(ret)
    ensures ret.View() == RemoveEdgeFromGraph(graph.View(), e)
  {
    ret := new Graph(false);
    AddAllVertices(ret, graph.vertices);
    AddAllEdges(ret, graph.edges);
    ret.RemoveEdge(e);
  }

  /** The edge formCycleGraph creates from the i-th vertex to the next one (the last one
      leads back to the first). The i-th new edge object has identity i. */
  function CycleEdge(vs: seq<Vertex>, i: nat): Edge
    requires i < |vs|
  {
    Edge(i, vs[i], if i + 1 < |vs| then vs[i + 1] else vs[0])
  }

  /** The graph after k rounds of formCycleGraph's loop. */
  function CyclePrefix(vs: seq<Vertex>, k: nat): GraphData
    requires k < |vs|
  {
    if k == 0 then EmptyGraph(false)
    else AddEdgeTo(AddVertexTo(CyclePrefix(vs, k - 1), vs[k - 1]), CycleEdge(vs, k - 1))
  }

  /** formCycleGraph: fewer than two vertices make it call getContent on null
      (the result is None); otherwise the loop's graph gets the last vertex and the
      closing edge. */
  function FormCycleGraph(vs: seq<Vertex>): Option<GraphData>
  {
    if |vs| < 2 then None
    else Some(AddEdgeTo(AddVertexTo(CyclePrefix(vs, |vs| - 1), vs[|vs| - 1]), CycleEdge(vs, |vs| - 1)))
  }

  /** One round: a graph holding the first k vertices and cycle edges gets vertex k and
      the k-th cycle edge. */
  lemma CycleStep(vs: seq<Vertex>, g0: GraphData, k: nat)
    requires NoDuplicates(vs) && k < |vs|
    requires Valid(g0) && g0.vertices == vs[..k] && |g0.edges| == k
    requires forall i :: 0 <= i < k ==> g0.edges[i] == CycleEdge(vs, i)
    ensures var g := AddEdgeTo(AddVertexTo(g0, vs[k]), CycleEdge(vs, k));
      && Valid(g) && g.directed == g0.directed
      && g.vertices == vs[..k + 1] && g.edges == g0.edges + [CycleEdge(vs, k)]
  {
    assert vs[k] !in g0.vertices by {
      NoDuplicatesPrefix(vs[..k + 1]);
      assert vs[..k + 1][..k] == vs[..k];
    }
    AddVertexValid(g0, vs[k]);
    var g1 := AddVertexTo(g0, vs[k]);
    assert g1.vertices == vs[..k + 1];
    assert CycleEdge(vs, k) !in g1.edges by {
      forall i | 0 <= i < |g1.edges| ensures g1.edges[i] != CycleEdge(vs, k) {
        assert g1.edges[i].id == i;
      }
    }
    AddEdgeValid(g1, CycleEdge(vs, k));
  }

  /** After k rounds the graph holds the first k vertices and the first k cycle edges. */
  lemma {:induction false} CyclePrefixSpec(vs: seq<Vertex>, k: nat)
    requires NoDuplicates(vs) && k < |vs|
    ensures var g := CyclePrefix(vs, k);
      && Valid(g) && !g.directed && g.vertices == vs[..k] && |g.edges| == k
      && (forall i :: 0 <= i < k ==> g.edges[i] == CycleEdge(vs, i))
  {
    if k > 0 {
      CyclePrefixSpec(vs, k - 1);
      var g0 := CyclePrefix(vs, k - 1);
      CycleStep(vs, g0, k - 1);
      var g := CyclePrefix(vs, k);
      assert g.edges == g0.edges + [CycleEdge(vs, k - 1)];
      forall i | 0 <= i < k ensures g.edges[i] == CycleEdge(vs, i) {
        if i < k - 1 {
          assert g.edges[i] == g0.edges[i];
        }
      }
    }
  }

  /** On two or more distinct vertices, formCycleGraph yields a valid undirected graph
      with exactly those vertices and one edge per vertex, from each to the next, the
      last edge closing back to the first vertex. */
  lemma FormCycleGraphSpec(vs: seq<Vertex>)
    requires NoDuplicates(vs) && |vs| >= 2
    ensures FormCycleGraph(vs).Some?
    ensures var g := FormCycleGraph(vs).value;
      && Valid(g) && !g.directed && g.vertices == vs && |g.edges| == |vs|
      && (forall i :: 0 <= i < |vs| - 1 ==> g.edges[i].origin == vs[i] && g.edges[i].destination == vs[i + 1])
      && g.edges[|vs| - 1].origin == vs[|vs| - 1] && g.edges[|vs| - 1].destination == vs[0]
  {
    var n := |vs| - 1;
    var g0 := CyclePrefix(vs, n);
    CyclePrefixSpec(vs, n);
    CycleStep(vs, g0, n);
    var g := AddEdgeTo(AddVertexTo(g0, vs[n]), CycleEdge(vs, n));
    assert FormCycleGraph(vs) == Some(g);
    assert vs[..n + 1] == vs;
    assert g.edges == g0.edges + [CycleEdge(vs, n)];
    forall i | 0 <= i < n ensures g.edges[i].origin == vs[i] && g.edges[i].destination == vs[i + 1] {
      assert g.edges[i] == g0.edges[i] == CycleEdge(vs, i);
    }
    assert g.edges[n] == CycleEdge(vs, n);
  }

  /** The evident intent of the one-vertex case: a single vertex with a loop on it. */
  function FormCycleGraphIntended(vs: seq<Vertex>): Option<GraphData>
  {
    if vs == [] then None
    else if |vs| == 1 then Some(AddEdgeTo(AddVertexTo(EmptyGraph(false), vs[0]), CycleEdge(vs, 0)))
    else FormCycleGraph(vs)
  }

  /** A single vertex gets no graph from formCycleGraph as written, while the intended
      result is that vertex with a self-loop. */
  lemma OneVertexCycle(v: Vertex)
    ensures FormCycleGraph([v]) == None
    ensures FormCycleGraphIntended([v]).Some?
    ensures var g := FormCycleGraphIntended([v]).value;
      g.vertices == [v] && g.edges == [Edge(0, v, v)] && g.adjacentLists[v] == [Edge(0, v, v), Edge(0, v, v)]
  {
  }

  /** formCycleGraph on a new graph object; nullPointer reports the failing case. */
  method FormCycleGraphOf(vs: seq<Vertex>) returns (ret: Graph, nullPointer: bool)
    ensures fresh(ret)
    ensures nullPointer <==> FormCycleGraph(vs).None?
    ensures !nullPointer ==> ret.View() == FormCycleGraph(vs).value
  {
    ret := new Graph(false);
    if |vs| < 2 {
      return ret, true;
    }
    for i := 0 to |vs| - 1
      invariant ret.View() == CyclePrefix(vs, i)
    {
      ret.AddVertex(vs[i]);
      ret.AddEdge(Edge(i, vs[i], vs[i + 1]));
    }
    var last := |vs| - 1;
    ret.AddVertex(vs[last]);
    ret.AddEdge(Edge(last, vs[last], vs[0]));
    return ret, false;
  }
}
