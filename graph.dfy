/** Vertices, edges and the adjacency-list graph
    (GraphDrawingTheory/src/graph/elements/Graph.java).

    Vertex.java and Edge.java are not part of this model: a vertex is its identity and
    its content, an edge its identity and its two endpoints, and the identity comparisons
    of the Java code (`==`, `contains`, `remove`) are comparisons of these values. */
module GraphElements {
  import opened Wrappers

  /** A vertex: an identity and its content label. */
  datatype Vertex = Vertex(id: nat, content: string)

  /** An edge: an identity (so that parallel edges differ) and its endpoints. */
  datatype Edge = Edge(id: nat, origin: Vertex, destination: Vertex)

  predicate NoDuplicates<T(==)>(s: seq<T>)
  {
    forall i, j :: 0 <= i < j < |s| ==> s[i] != s[j]
  }

  /** Lists laid end to end. */
  function Flatten<T>(cs: seq<seq<T>>): seq<T>
  {
    if cs == [] then [] else Flatten(cs[..|cs| - 1]) + cs[|cs| - 1]
  }

  /** An element of the flattened list lies in one of the lists. */
  lemma {:induction false} FlattenMember<T>(cs: seq<seq<T>>, y: T) returns (c: seq<T>)
    requires y in Flatten(cs)
    ensures c in cs && y in c
  {
    var n := |cs| - 1;
    if y in cs[n] {
      c := cs[n];
    } else {
      c := FlattenMember(cs[..n], y);
    }
  }

  /** An element of one of the lists is in the flattened list. */
  lemma {:induction false} FlattenHas<T>(cs: seq<seq<T>>, c: seq<T>, y: T)
    requires c in cs && y in c
    ensures y in Flatten(cs)
  {
    var n := |cs| - 1;
    if cs[n] != c {
      FlattenHas(cs[..n], c, y);
    }
  }

  /** `List.remove(Object)`: drops the first occurrence, if any. */
  function RemoveFirst<T(==)>(s: seq<T>, x: T): (r: seq<T>)
    ensures x !in s ==> r == s
  {
    if s == [] then []
    else if s[0] == x then s[1..] else [s[0]] + RemoveFirst(s[1..], x)
  }

  /** Removing the first occurrence takes exactly one x out of the list's multiset. */
  lemma {:induction false} RemoveFirstMultiset<T>(s: seq<T>, x: T)
    ensures multiset(RemoveFirst(s, x)) == multiset(s) - multiset{x}
  {
    if s != [] {
      assert s == [s[0]] + s[1..];
      if s[0] != x {
        RemoveFirstMultiset(s[1..], x);
      }
    }
  }

  /** Removing the first occurrence keeps every other element, and removes x itself
      when x occurred once. */
  lemma RemoveFirstMembership<T>(s: seq<T>, x: T, y: T)
    ensures y != x ==> (y in RemoveFirst(s, x) <==> y in s)
    ensures multiset(s)[x] <= 1 ==> x !in RemoveFirst(s, x)
  {
    RemoveFirstMultiset(s, x);
    assert y in RemoveFirst(s, x) <==> multiset(RemoveFirst(s, x))[y] > 0;
    assert x in RemoveFirst(s, x) <==> multiset(RemoveFirst(s, x))[x] > 0;
  }

  /** RemoveFirst keeps a list free of duplicates and removes x from it entirely. */
  lemma {:induction false} RemoveFirstNoDuplicates<T>(s: seq<T>, x: T)
    requires NoDuplicates(s)
    ensures NoDuplicates(RemoveFirst(s, x))
    ensures x !in RemoveFirst(s, x)
  {
    if s != [] {
      var rest := s[1..];
      assert NoDuplicates(rest) by {
        forall i, j | 0 <= i < j < |rest| ensures rest[i] != rest[j] {
          assert rest[i] == s[i + 1] && rest[j] == s[j + 1];
        }
      }
      assert s[0] !in rest by {
        forall k | 0 <= k < |rest| ensures rest[k] != s[0] {
          assert rest[k] == s[k + 1];
        }
      }
      if s[0] != x {
        RemoveFirstNoDuplicates(rest, x);
        var r := RemoveFirst(rest, x);
        assert s[0] !in r by {
          RemoveFirstMembership(rest, x, s[0]);
        }
        assert RemoveFirst(s, x) == [s[0]] + r;
      }
    }
  }

  /** Dropping the last member of a list without repeats leaves a list without repeats
      that does not hold that member. */
  lemma NoDuplicatesPrefix<T>(s: seq<T>)
    requires NoDuplicates(s) && s != []
    ensures NoDuplicates(s[..|s| - 1])
    ensures s[|s| - 1] !in s[..|s| - 1]
  {
    var pre := s[..|s| - 1];
    forall k | 0 <= k < |pre| ensures pre[k] != s[|s| - 1] {
      assert pre[k] == s[k];
    }
    forall i, j | 0 <= i < j < |pre| ensures pre[i] != pre[j] {
      assert pre[i] == s[i] && pre[j] == s[j];
    }
  }

  /** The number of distinct members of a list equals its length exactly when no
      member repeats. */
  lemma {:induction false} DistinctCount<T>(s: seq<T>)
    ensures |set x | x in s| <= |s|
    ensures |set x | x in s| == |s| <==> NoDuplicates(s)
  {
    if s != [] {
      var pre := s[..|s| - 1];
      var last := s[|s| - 1];
      DistinctCount(pre);
      assert s == pre + [last];
      assert (set x | x in s) == (set x | x in pre) + {last};
      if last in pre {
        var k :| 0 <= k < |pre| && pre[k] == last;
        assert s[k] == s[|s| - 1];
      } else {
        assert NoDuplicates(s) <==> NoDuplicates(pre) by {
          if NoDuplicates(pre) {
            forall i, j | 0 <= i < j < |s| ensures s[i] != s[j] {
              if j < |pre| {
                assert pre[i] == s[i] && pre[j] == s[j];
              } else {
                assert s[i] == pre[i];
              }
            }
          } else {
            var i, j :| 0 <= i < j < |pre| && pre[i] == pre[j];
            assert s[i] == s[j];
          }
        }
      }
    }
  }

  /** A list without repeats inside another of the same length without repeats holds
      every member of it. */
  lemma SameSizeSubset<T>(s: seq<T>, t: seq<T>)
    requires NoDuplicates(s) && NoDuplicates(t) && |s| == |t|
    requires forall x :: x in s ==> x in t
    ensures forall x :: x in t ==> x in s
  {
    DistinctCount(s);
    DistinctCount(t);
    var a := set x | x in s;
    var b := set x | x in t;
    assert b == a + (b - a) && a * (b - a) == {};
    assert |b - a| == 0;
    forall x | x in t ensures x in s {
      assert x in b;
    }
  }

  /** A list longer than a set it lies in repeats an element. */
  lemma Pigeonhole<T>(s: seq<T>, d: set<T>)
    requires forall x :: x in s ==> x in d
    requires |s| > |d|
    ensures exists i, j :: 0 <= i < j < |s| && s[i] == s[j]
  {
    DistinctCount(s);
    var a := set x | x in s;
    assert d == a + (d - a) && a * (d - a) == {};
  }

  /** A list without repeats inside another, but of a different length, misses one of
      its members. */
  lemma SubsetShorter<T>(s: seq<T>, t: seq<T>)
    requires NoDuplicates(s) && NoDuplicates(t) && |s| != |t|
    requires forall x :: x in s ==> x in t
    ensures exists x :: x in t && x !in s
  {
    DistinctCount(s);
    DistinctCount(t);
    var a := set x | x in s;
    var b := set x | x in t;
    assert b == a + (b - a) && a * (b - a) == {};
    assert |b - a| > 0;
    var y :| y in b - a;
  }

  /** The graph's state: the vertex and edge lists, the direction flag, the adjacency
      list of each vertex (the edges added at it) and the content index. */
  datatype GraphData = GraphData(
    vertices: seq<Vertex>,
    edges: seq<Edge>,
    directed: bool,
    adjacentLists: map<Vertex, seq<Edge>>,
    vertexByContent: map<string, Vertex>)

  /** How many times e may sit in v's adjacency list: once per endpoint that is v. */
  function Incidences(e: Edge, v: Vertex): nat
  {
    (if e.origin == v then 1 else 0) + (if e.destination == v then 1 else 0)
  }

  /** No edge listed twice, and adjacency lists that hold only edges of the graph
      incident to their vertex, each at most once per endpoint that is that vertex. */
  ghost predicate EdgesValid(g: GraphData)
  {
    NoDuplicates(g.edges) && AdjacentListed(g.adjacentLists, g.edges) && AdjacentCounted(g.adjacentLists)
  }

  /** Adjacency lists hold only listed edges incident to their vertex. */
  ghost predicate AdjacentListed(adj: map<Vertex, seq<Edge>>, edges: seq<Edge>)
  {
    forall v, e :: v in adj && e in adj[v] ==> e in edges && Incidences(e, v) > 0
  }

  /** An adjacency list holds an edge at most once per endpoint that is its vertex. */
  ghost predicate AdjacentCounted(adj: map<Vertex, seq<Edge>>)
  {
    forall v, e :: v in adj ==> multiset(adj[v])[e] <= Incidences(e, v)
  }

  /** What every operation keeps: no vertex listed twice, an adjacency list for exactly
      the listed vertices, and valid edges. */
  ghost predicate Valid(g: GraphData)
  {
    && NoDuplicates(g.vertices)
    && (forall v :: v in g.adjacentLists <==> v in g.vertices)
    && EdgesValid(g)
  }

  function EmptyGraph(directed: bool): (g: GraphData)
    ensures Valid(g)
    ensures g.vertices == [] && g.edges == [] && g.directed == directed
  {
    GraphData([], [], directed, map[], map[])
  }

  /** addVertex: a vertex already present changes nothing; a new one is appended, gets
      an empty adjacency list and becomes the vertex of its content. */
  function AddVertexTo(g: GraphData, v: Vertex): GraphData
  {
    if v in g.vertices then g
    else g.(vertices := g.vertices + [v],
            adjacentLists := g.adjacentLists[v := []],
            vertexByContent := g.vertexByContent[v.content := v])
  }

  /** Appends e to w's adjacency list, when w has one. */
  function AppendAt(adj: map<Vertex, seq<Edge>>, w: Vertex, e: Edge): map<Vertex, seq<Edge>>
  {
    if w in adj then adj[w := adj[w] + [e]] else adj
  }

  /** addEdge: an edge already present changes nothing; a new one is appended to the
      edge list, to its origin's adjacency list and, in an undirected graph, to its
      destination's (for a vertex that has one). */
  function AddEdgeTo(g: GraphData, e: Edge): GraphData
  {
    if e in g.edges then g
    else
      g.(edges := g.edges + [e], adjacentLists := AppendBothEnds(g.adjacentLists, e, g.directed))
  }

  /** The adjacency lists after a new edge: appended at its origin and, unless the
      graph is directed, at its destination. */
  function AppendBothEnds(adj: map<Vertex, seq<Edge>>, e: Edge, directed: bool): map<Vertex, seq<Edge>>
  {
    var adj1 := AppendAt(adj, e.origin, e);
    if directed then adj1 else AppendAt(adj1, e.destination, e)
  }

  /** Removes the first occurrence of e from w's adjacency list, when w has one. */
  function DropAt(adj: map<Vertex, seq<Edge>>, w: Vertex, e: Edge): map<Vertex, seq<Edge>>
  {
    if w in adj then adj[w := RemoveFirst(adj[w], e)] else adj
  }

  /** DropAt changes only w's list, by one copy of e. */
  lemma DropAtAt(adj: map<Vertex, seq<Edge>>, w: Vertex, e: Edge, v: Vertex)
    requires v in adj
    ensures DropAt(adj, w, e).Keys == adj.Keys
    ensures multiset(DropAt(adj, w, e)[v]) == if v == w then multiset(adj[v]) - multiset{e} else multiset(adj[v])
  {
    RemoveFirstMultiset(adj[v], e);
  }

  /** AppendAt changes only w's list, by one more copy of e. */
  lemma AppendAtAt(adj: map<Vertex, seq<Edge>>, w: Vertex, e: Edge, v: Vertex)
    requires v in adj
    ensures AppendAt(adj, w, e).Keys == adj.Keys
    ensures multiset(AppendAt(adj, w, e)[v]) == if v == w then multiset(adj[v]) + multiset{e} else multiset(adj[v])
    ensures forall f :: f in AppendAt(adj, w, e)[v] <==> f in adj[v] || (v == w && f == e)
  {
  }

  /** removeEdge: the edge leaves the edge list and both endpoints' adjacency lists
      (one occurrence each). */
  function RemoveEdgeFrom(g: GraphData, e: Edge): GraphData
  {
    var adj2 := DropAt(DropAt(g.adjacentLists, e.origin, e), e.destination, e);
    g.(edges := RemoveFirst(g.edges, e), adjacentLists := adj2)
  }

  function RemoveEdgesFrom(g: GraphData, es: seq<Edge>): GraphData
  {
    if es == [] then g else RemoveEdgeFrom(RemoveEdgesFrom(g, es[..|es| - 1]), es[|es| - 1])
  }

  /** removeVertex: v leaves the vertex list, every edge of its adjacency list (as it was
      before the removals) is removed, and then its adjacency list. A vertex without an
      adjacency list is dereferenced (NullPointerException) after the vertex list
      lost it: the result is None. */
  function RemoveVertexFrom(g: GraphData, v: Vertex): Option<GraphData>
  {
    if v !in g.adjacentLists then None
    else
      var g1 := RemoveEdgesFrom(g.(vertices := RemoveFirst(g.vertices, v)), g.adjacentLists[v]);
      Some(g1.(adjacentLists := g1.adjacentLists - {v}))
  }

  /** addVertex keeps the graph valid; adding a vertex already present changes nothing,
      so adding twice is adding once. */
  lemma AddVertexValid(g: GraphData, v: Vertex)
    requires Valid(g)
    ensures Valid(AddVertexTo(g, v))
    ensures v in g.vertices ==> AddVertexTo(g, v) == g
    ensures AddVertexTo(AddVertexTo(g, v), v) == AddVertexTo(g, v)
    ensures v in AddVertexTo(g, v).vertices && AddVertexTo(g, v).edges == g.edges
  {
    if v !in g.vertices {
      var h := AddVertexTo(g, v);
      assert forall i :: 0 <= i < |g.vertices| ==> h.vertices[i] == g.vertices[i];
      assert h.vertices[|g.vertices|] == v;
    }
  }

  /** A newly added vertex is the one found by its content; a vertex already present
      leaves the content index as it was. */
  lemma AddVertexContent(g: GraphData, v: Vertex)
    ensures v !in g.vertices ==> VertexByContentSpec(AddVertexTo(g, v), v.content) == Some(v)
    ensures v in g.vertices ==> VertexByContentSpec(AddVertexTo(g, v), v.content) == VertexByContentSpec(g, v.content)
  {
  }

  /** addEdge keeps the graph valid. An edge already listed changes nothing; a new one
      is listed, sits in its origin's adjacency list and, when the graph is undirected,
      in its destination's; in a directed graph the destination's list of a non-loop
      edge is left alone. */
  lemma AddEdgeValid(g: GraphData, e: Edge)
    requires Valid(g)
    ensures Valid(AddEdgeTo(g, e))
    ensures e in g.edges ==> AddEdgeTo(g, e) == g
    ensures var h := AddEdgeTo(g, e);
      && e in h.edges
      && (e !in g.edges && e.origin in g.adjacentLists ==> e in h.adjacentLists[e.origin])
      && (e !in g.edges && !g.directed && e.destination in g.adjacentLists ==> e in h.adjacentLists[e.destination])
      && (g.directed && e.destination != e.origin && e.destination in g.adjacentLists ==>
            h.adjacentLists[e.destination] == g.adjacentLists[e.destination])
  {
    if e !in g.edges {
      var h := AddEdgeTo(g, e);
      var adj1 := AppendAt(g.adjacentLists, e.origin, e);
      assert forall v :: v in g.adjacentLists ==> e !in g.adjacentLists[v];
      assert NoDuplicates(h.edges) by {
        assert forall i :: 0 <= i < |g.edges| ==> h.edges[i] == g.edges[i];
        assert h.edges[|g.edges|] == e;
      }
      AddEdgeCounted(g, e);
      AddEdgeListed(g, e);
      if e.origin in g.adjacentLists {
        assert adj1[e.origin] == g.adjacentLists[e.origin] + [e];
        assert e in adj1[e.origin];
        if !g.directed && e.destination == e.origin {
          assert h.adjacentLists[e.origin] == adj1[e.origin] + [e];
        } else {
          assert h.adjacentLists[e.origin] == adj1[e.origin];
        }
      }
      if !g.directed && e.destination in g.adjacentLists {
        assert h.adjacentLists[e.destination] == adj1[e.destination] + [e];
      }
    }
  }

  /** A new edge, absent from every adjacency list before, is counted once per
      endpoint list it is appended to; every other edge's count is unchanged. */
  lemma AppendBothEndsCounts(adj: map<Vertex, seq<Edge>>, e: Edge, directed: bool)
    requires forall v :: v in adj ==> e !in adj[v]
    ensures var r := AppendBothEnds(adj, e, directed);
      && r.Keys == adj.Keys
      && (forall v :: v in r ==> multiset(r[v])[e] <= Incidences(e, v))
      && (forall v, f :: v in r && f != e ==> multiset(r[v])[f] == multiset(adj[v])[f])
  {
    var r1 := AppendAt(adj, e.origin, e);
    assert r1.Keys == adj.Keys;
    var r := AppendBothEnds(adj, e, directed);
    assert r.Keys == adj.Keys;
    forall v | v in r
      ensures multiset(r[v])[e] <= Incidences(e, v)
      ensures forall f :: f != e ==> multiset(r[v])[f] == multiset(adj[v])[f]
    {
      AppendBothEndsAt(adj, e, directed, v);
    }
  }

  /** The same, at one vertex. */
  lemma AppendBothEndsAt(adj: map<Vertex, seq<Edge>>, e: Edge, directed: bool, v: Vertex)
    requires v in adj && e !in adj[v]
    ensures var r := AppendBothEnds(adj, e, directed);
      && v in r
      && multiset(r[v])[e] <= Incidences(e, v)
      && (forall f :: f != e ==> multiset(r[v])[f] == multiset(adj[v])[f])
  {
    var r1 := AppendAt(adj, e.origin, e);
    assert multiset(adj[v])[e] == 0;
    AppendAtAt(adj, e.origin, e, v);
    if !directed {
      AppendAtAt(r1, e.destination, e, v);
    }
  }

  lemma AddEdgeCounted(g: GraphData, e: Edge)
    requires Valid(g) && e !in g.edges
    ensures AdjacentCounted(AddEdgeTo(g, e).adjacentLists)
  {
    var adj := AddEdgeTo(g, e).adjacentLists;
    AppendBothEndsCounts(g.adjacentLists, e, g.directed);
    forall v, f | v in adj ensures multiset(adj[v])[f] <= Incidences(f, v) {
      if f != e {
        assert multiset(g.adjacentLists[v])[f] <= Incidences(f, v);
      }
    }
  }

  lemma AddEdgeListed(g: GraphData, e: Edge)
    requires Valid(g) && e !in g.edges
    ensures AdjacentListed(AddEdgeTo(g, e).adjacentLists, AddEdgeTo(g, e).edges)
  {
    var h := AddEdgeTo(g, e);
    var adj := g.adjacentLists;
    var r1 := AppendAt(adj, e.origin, e);
    forall v, f | v in h.adjacentLists && f in h.adjacentLists[v]
      ensures f in h.edges && Incidences(f, v) > 0
    {
      AppendAtAt(adj, e.origin, e, v);
      if !g.directed {
        AppendAtAt(r1, e.destination, e, v);
      }
    }
  }

  /** Removing e from both endpoints' lists leaves no copy of it in any list that held
      it at most once per endpoint, and leaves every other edge's count alone. */
  lemma DropBothEnds(adj: map<Vertex, seq<Edge>>, e: Edge)
    requires forall v :: v in adj ==> multiset(adj[v])[e] <= Incidences(e, v)
    ensures var r := DropAt(DropAt(adj, e.origin, e), e.destination, e);
      && (forall v :: v in r ==> multiset(r[v])[e] == 0)
      && (forall v, f :: v in r ==> multiset(r[v])[f] <= multiset(adj[v])[f])
      && (forall v, f :: v in r && f != e ==> multiset(r[v])[f] == multiset(adj[v])[f])
  {
    var r := DropAt(DropAt(adj, e.origin, e), e.destination, e);
    forall v | v in r
      ensures multiset(r[v])[e] == 0
      ensures forall f :: multiset(r[v])[f] <= multiset(adj[v])[f]
      ensures forall f :: f != e ==> multiset(r[v])[f] == multiset(adj[v])[f]
    {
      DropBothEndsAt(adj, e, v);
    }
  }

  lemma DropBothEndsKeys(adj: map<Vertex, seq<Edge>>, e: Edge)
    ensures DropAt(DropAt(adj, e.origin, e), e.destination, e).Keys == adj.Keys
  {
  }

  lemma DropBothEndsAt(adj: map<Vertex, seq<Edge>>, e: Edge, v: Vertex)
    requires v in adj && multiset(adj[v])[e] <= Incidences(e, v)
    ensures var r := DropAt(DropAt(adj, e.origin, e), e.destination, e);
      && v in r
      && multiset(r[v]) == multiset(adj[v]) - multiset{e} - multiset{e}
  {
    var r1 := DropAt(adj, e.origin, e);
    DropAtAt(adj, e.origin, e, v);
    DropAtAt(r1, e.destination, e, v);
  }

  /** removeEdge keeps edges valid, keeps the vertices and the vertices that have
      adjacency lists, and removes the edge from the edge list and from every adjacency
      list; every other edge stays listed. */
  lemma RemoveEdgeValid(g: GraphData, e: Edge)
    requires EdgesValid(g)
    ensures var h := RemoveEdgeFrom(g, e);
      && EdgesValid(h)
      && h.vertices == g.vertices && h.adjacentLists.Keys == g.adjacentLists.Keys
      && e !in h.edges
      && (forall v :: v in h.adjacentLists ==> e !in h.adjacentLists[v])
      && (forall f :: f != e ==> (f in h.edges <==> f in g.edges))
  {
    var h := RemoveEdgeFrom(g, e);
    DropBothEnds(g.adjacentLists, e);
    DropBothEndsKeys(g.adjacentLists, e);
    RemoveFirstNoDuplicates(g.edges, e);
    forall f | f != e ensures f in h.edges <==> f in g.edges {
      RemoveFirstMembership(g.edges, e, f);
    }
    RemoveEdgeCounted(g, e);
    RemoveEdgeListed(g, e);
  }

  lemma RemoveEdgeCounted(g: GraphData, e: Edge)
    requires AdjacentCounted(g.adjacentLists)
    ensures AdjacentCounted(RemoveEdgeFrom(g, e).adjacentLists)
    ensures forall v :: v in RemoveEdgeFrom(g, e).adjacentLists ==> e !in RemoveEdgeFrom(g, e).adjacentLists[v]
  {
    var adj := RemoveEdgeFrom(g, e).adjacentLists;
    DropBothEnds(g.adjacentLists, e);
    forall v | v in adj ensures e !in adj[v] {
      assert multiset(adj[v])[e] == 0;
    }
  }

  lemma RemoveEdgeListed(g: GraphData, e: Edge)
    requires EdgesValid(g)
    ensures AdjacentListed(RemoveEdgeFrom(g, e).adjacentLists, RemoveEdgeFrom(g, e).edges)
  {
    var h := RemoveEdgeFrom(g, e);
    DropBothEndsKeys(g.adjacentLists, e);
    forall v, f | v in h.adjacentLists && f in h.adjacentLists[v]
      ensures f in h.edges && Incidences(f, v) > 0
    {
      DropBothEndsAt(g.adjacentLists, e, v);
      assert f in multiset(h.adjacentLists[v]);
      assert f in multiset(g.adjacentLists[v]) && f != e;
      RemoveFirstMembership(g.edges, e, f);
    }
  }

  /** removeEdge leaves every other edge's place in every adjacency list as it was. */
  lemma RemoveEdgeKeepsOthers(g: GraphData, e: Edge, v: Vertex, f: Edge)
    requires EdgesValid(g) && v in g.adjacentLists && f != e
    ensures multiset(RemoveEdgeFrom(g, e).adjacentLists[v])[f] == multiset(g.adjacentLists[v])[f]
  {
    DropBothEnds(g.adjacentLists, e);
  }

  /** Removing a list of edges one by one: edges stay valid, the vertices and the
      adjacency-list owners stay, the removed edges are gone and every other edge of
      the graph stays listed. */
  lemma {:induction false} RemoveEdgesValid(g: GraphData, es: seq<Edge>)
    requires EdgesValid(g)
    ensures var h := RemoveEdgesFrom(g, es);
      && EdgesValid(h)
      && h.vertices == g.vertices && h.adjacentLists.Keys == g.adjacentLists.Keys
      && (forall f :: f in h.edges <==> f in g.edges && f !in es)
  {
    if es != [] {
      var pre := es[..|es| - 1];
      var last := es[|es| - 1];
      RemoveEdgesValid(g, pre);
      RemoveEdgeValid(RemoveEdgesFrom(g, pre), last);
      assert es == pre + [last];
    }
  }

  /** removeVertex keeps the graph valid. Afterwards the vertex is neither listed nor
      owns an adjacency list, and the edges are exactly the old edges that were not in
      its adjacency list: in a directed graph, the edges entering it stay. */
  lemma RemoveVertexValid(g: GraphData, v: Vertex)
    requires Valid(g) && v in g.vertices
    ensures RemoveVertexFrom(g, v).Some?
    ensures var h := RemoveVertexFrom(g, v).value;
      && Valid(h)
      && v !in h.vertices && v !in h.adjacentLists
      && (forall u :: u in h.vertices <==> u in g.vertices && u != v)
      && (forall f :: f in h.edges <==> f in g.edges && f !in g.adjacentLists[v])
  {
    var g0 := g.(vertices := RemoveFirst(g.vertices, v));
    RemoveFirstNoDuplicates(g.vertices, v);
    forall u | u != v ensures u in g0.vertices <==> u in g.vertices {
      RemoveFirstMembership(g.vertices, v, u);
    }
    RemoveEdgesValid(g0, g.adjacentLists[v]);
    var g1 := RemoveEdgesFrom(g0, g.adjacentLists[v]);
    var h := g1.(adjacentLists := g1.adjacentLists - {v});
    assert RemoveVertexFrom(g, v) == Some(h);
    DropListValid(g1, v);
  }

  /** Dropping one adjacency list keeps the edges valid. */
  lemma DropListValid(g: GraphData, v: Vertex)
    requires EdgesValid(g)
    ensures EdgesValid(g.(adjacentLists := g.adjacentLists - {v}))
  {
    var h := g.(adjacentLists := g.adjacentLists - {v});
    assert forall u :: u in h.adjacentLists ==> h.adjacentLists[u] == g.adjacentLists[u];
  }

  /** allEdges(v): the edges with v as an endpoint, in list order. */
  function EdgesAt(edges: seq<Edge>, v: Vertex): (r: seq<Edge>)
    ensures forall e :: e in r <==> e in edges && (e.origin == v || e.destination == v)
    ensures |r| <= |edges|
  {
    if edges == [] then []
    else (if edges[0].origin == v || edges[0].destination == v then [edges[0]] else []) + EdgesAt(edges[1..], v)
  }

  /** Selecting the edges at v from two lists in turn selects them from the joined list. */
  lemma {:induction false} EdgesAtAppend(a: seq<Edge>, b: seq<Edge>, v: Vertex)
    ensures EdgesAt(a + b, v) == EdgesAt(a, v) + EdgesAt(b, v)
  {
    if a == [] {
      assert a + b == b;
    } else {
      assert (a + b)[0] == a[0] && (a + b)[1..] == a[1..] + b;
      EdgesAtAppend(a[1..], b, v);
      var h := if a[0].origin == v || a[0].destination == v then [a[0]] else [];
      assert EdgesAt(a + b, v) == h + (EdgesAt(a[1..], v) + EdgesAt(b, v));
      assert EdgesAt(a, v) == h + EdgesAt(a[1..], v);
    }
  }

  /** One more edge examined by a loop that selects the edges at v. */
  lemma EdgesAtStep(all: seq<Edge>, i: nat, v: Vertex)
    requires i < |all|
    ensures EdgesAt(all[..i + 1], v) ==
      EdgesAt(all[..i], v) + (if all[i].destination == v || all[i].origin == v then [all[i]] else [])
  {
    assert all[..i + 1] == all[..i] + [all[i]];
    EdgesAtAppend(all[..i], [all[i]], v);
  }

  /** The far end of e as hasEdge computes it: the destination when v is the origin. */
  function FarEnd(e: Edge, v: Vertex): Vertex
  {
    if e.origin == v then e.destination else e.origin
  }

  /** The far end of e as adjacentVertices computes it: the destination unless that is v. */
  function Neighbour(e: Edge, v: Vertex): Vertex
  {
    if e.destination != v then e.destination else e.origin
  }

  /** For an edge at v, the two ways of finding its other end agree. */
  lemma FarEndIsNeighbour(e: Edge, v: Vertex)
    requires Incidences(e, v) > 0
    ensures FarEnd(e, v) == Neighbour(e, v)
  {
  }

  /** hasEdge: None where a missing adjacency list is dereferenced. */
  function HasEdgeSpec(g: GraphData, v1: Vertex, v2: Vertex): Option<bool>
  {
    if v1 !in g.adjacentLists then None
    else if exists i :: 0 <= i < |g.adjacentLists[v1]| && FarEnd(g.adjacentLists[v1][i], v1) == v2 then Some(true)
    else if g.directed then Some(false)
    else if v2 !in g.adjacentLists then None
    else Some(exists i :: 0 <= i < |g.adjacentLists[v2]| && FarEnd(g.adjacentLists[v2][i], v2) == v1)
  }

  /** In an undirected graph, hasEdge does not depend on the order of its arguments. */
  lemma HasEdgeSymmetric(g: GraphData, v1: Vertex, v2: Vertex)
    requires !g.directed && v1 in g.adjacentLists && v2 in g.adjacentLists
    ensures HasEdgeSpec(g, v1, v2) == HasEdgeSpec(g, v2, v1)
    ensures HasEdgeSpec(g, v1, v2).Some?
  {
  }

  /** Adding an edge between two vertices of an undirected graph connects them both ways. */
  lemma HasEdgeAfterAddEdge(g: GraphData, e: Edge)
    requires !g.directed && e.origin in g.adjacentLists && e.destination in g.adjacentLists && e !in g.edges
    ensures HasEdgeSpec(AddEdgeTo(g, e), e.origin, e.destination) == Some(true)
    ensures HasEdgeSpec(AddEdgeTo(g, e), e.destination, e.origin) == Some(true)
  {
    var h := AddEdgeTo(g, e);
    var m := h.adjacentLists[e.destination];
    assert m[|m| - 1] == e;
    if e.origin != e.destination {
      var l := h.adjacentLists[e.origin];
      assert l[|l| - 1] == e;
    }
  }

  /** The distinct far ends of a list of edges at v, in first-seen order. */
  function NeighbourFold(es: seq<Edge>, v: Vertex): seq<Vertex>
  {
    if es == [] then []
    else
      var ret := NeighbourFold(es[..|es| - 1], v);
      var other := Neighbour(es[|es| - 1], v);
      if other in ret then ret else ret + [other]
  }

  /** adjacentVertices: nothing for a vertex without an adjacency list. */
  function AdjacentVerticesSpec(g: GraphData, v: Vertex): seq<Vertex>
  {
    if v !in g.adjacentLists then [] else NeighbourFold(g.adjacentLists[v], v)
  }

  /** The adjacent vertices hold no duplicates, and u is among them exactly when some
      edge of the list leads to it. */
  lemma {:induction false} NeighbourFoldSpec(es: seq<Edge>, v: Vertex)
    ensures NoDuplicates(NeighbourFold(es, v))
    ensures forall u :: u in NeighbourFold(es, v) <==> exists i :: 0 <= i < |es| && Neighbour(es[i], v) == u
  {
    if es != [] {
      var pre := es[..|es| - 1];
      NeighbourFoldSpec(pre, v);
      assert forall i :: 0 <= i < |pre| ==> pre[i] == es[i];
      forall u | exists i :: 0 <= i < |es| && Neighbour(es[i], v) == u
        ensures u in NeighbourFold(es, v)
      {
        var i :| 0 <= i < |es| && Neighbour(es[i], v) == u;
        if i < |pre| {
          assert Neighbour(pre[i], v) == u;
        }
      }
    }
  }

  /** vertexDegree: the length of v's adjacency list; None where it is missing. */
  function VertexDegreeSpec(g: GraphData, v: Vertex): Option<nat>
  {
    if v in g.adjacentLists then Some(|g.adjacentLists[v]|) else None
  }

  /** getVertexByContent: the vertex last added with that content, if any. */
  function VertexByContentSpec(g: GraphData, content: string): Option<Vertex>
  {
    if content in g.vertexByContent then Some(g.vertexByContent[content]) else None
  }

  /** Adding a new edge raises its origin's degree by one and, in an undirected graph,
      its destination's by one more (a self-loop counts twice); in a directed graph the
      destination's degree of a non-loop edge stays. */
  lemma AddEdgeDegree(g: GraphData, e: Edge)
    requires e !in g.edges && e.origin in g.adjacentLists && e.destination in g.adjacentLists
    ensures var h := AddEdgeTo(g, e);
      && VertexDegreeSpec(h, e.origin).Some? && VertexDegreeSpec(h, e.destination).Some?
      && (e.origin != e.destination ==>
            && VertexDegreeSpec(h, e.origin).value == |g.adjacentLists[e.origin]| + 1
            && VertexDegreeSpec(h, e.destination).value == |g.adjacentLists[e.destination]| + (if g.directed then 0 else 1))
      && (e.origin == e.destination ==>
            VertexDegreeSpec(h, e.origin).value == |g.adjacentLists[e.origin]| + (if g.directed then 1 else 2))
  {
  }

  /** The graph object: its vertex and edge lists, direction flag, adjacency lists and
      content index are fields that the operations update in place. */
  class Graph {
    var vertices: seq<Vertex>
    var edges: seq<Edge>
    var directed: bool
    var adjacentLists: map<Vertex, seq<Edge>>
    var vertexByContentMap: map<string, Vertex>

    function View(): GraphData
      reads this
    {
      GraphData(vertices, edges, directed, adjacentLists, vertexByContentMap)
    }

    /** Graph(directed): no vertices, no edges. */
    constructor(directed: bool)
      ensures View() == EmptyGraph(directed)
    {
      vertices := [];
      edges := [];
      this.directed := directed;
      adjacentLists := map[];
      vertexByContentMap := map[];
    }

    method AddVertex(v: Vertex)
      modifies this
      ensures View() == AddVertexTo(old(View()), v)
    {
      if v in vertices {
        return;
      }
      vertices := vertices + [v];
      adjacentLists := adjacentLists[v := []];
      vertexByContentMap := vertexByContentMap[v.content := v];
    }

    method AddEdge(e: Edge)
      modifies this
      ensures View() == AddEdgeTo(old(View()), e)
    {
      if e in edges {
        return;
      }
      edges := edges + [e];
      if e.origin in adjacentLists {
        adjacentLists := adjacentLists[e.origin := adjacentLists[e.origin] + [e]];
      }
      if !directed && e.destination in adjacentLists {
        adjacentLists := adjacentLists[e.destination := adjacentLists[e.destination] + [e]];
      }
    }

    method RemoveEdge(e: Edge)
      modifies this
      ensures View() == RemoveEdgeFrom(old(View()), e)
    {
      edges := RemoveFirst(edges, e);
      if e.origin in adjacentLists {
        adjacentLists := adjacentLists[e.origin := RemoveFirst(adjacentLists[e.origin], e)];
      }
      if e.destination in adjacentLists {
        adjacentLists := adjacentLists[e.destination := RemoveFirst(adjacentLists[e.destination], e)];
      }
    }

    /** removeVertex. The result tells whether the missing adjacency list of v was
        dereferenced (NullPointerException); by then v has left the vertex list. */
    method RemoveVertex(v: Vertex) returns (nullPointer: bool)
      modifies this
      ensures nullPointer == (v !in old(adjacentLists))
      ensures !nullPointer ==> View() == RemoveVertexFrom(old(View()), v).value
      ensures nullPointer ==> View() == old(View()).(vertices := RemoveFirst(old(vertices), v))
    {
      vertices := RemoveFirst(vertices, v);
      if v !in adjacentLists {
        return true;
      }
      RemoveEdges(adjacentLists[v]);
      adjacentLists := adjacentLists - {v};
      return false;
    }

    /** The loop of removeVertex: removeEdge for each edge of a copy of the list. */
    method RemoveEdges(adjacent: seq<Edge>)
      modifies this
      ensures View() == RemoveEdgesFrom(old(View()), adjacent)
    {
      ghost var g0 := View();
      for i := 0 to |adjacent|
        invariant View() == RemoveEdgesFrom(g0, adjacent[..i])
      {
        assert adjacent[..i + 1][..i] == adjacent[..i];
        RemoveEdge(adjacent[i]);
      }
      assert adjacent[..|adjacent|] == adjacent;
    }

    /** hasEdge: None where a missing adjacency list is dereferenced. */
    method HasEdge(v1: Vertex, v2: Vertex) returns (r: Option<bool>)
      ensures r == HasEdgeSpec(View(), v1, v2)
    {
      if v1 !in adjacentLists {
        return None;
      }
      var out := adjacentLists[v1];
      for i := 0 to |out|
        invariant forall j :: 0 <= j < i ==> FarEnd(out[j], v1) != v2
      {
        var other := if out[i].origin == v1 then out[i].destination else out[i].origin;
        if other == v2 {
          return Some(true);
        }
      }
      if directed {
        return Some(false);
      }
      if v2 !in adjacentLists {
        return None;
      }
      var back := adjacentLists[v2];
      for i := 0 to |back|
        invariant forall j :: 0 <= j < i ==> FarEnd(back[j], v2) != v1
      {
        var other := if back[i].origin == v2 then back[i].destination else back[i].origin;
        if other == v1 {
          return Some(true);
        }
      }
      return Some(false);
    }

    /** allEdges: the listed edges with v as an endpoint, in list order. */
    method AllEdges(v: Vertex) returns (ret: seq<Edge>)
      ensures ret == EdgesAt(edges, v)
    {
      ret := [];
      for i := 0 to |edges|
        invariant ret == EdgesAt(edges[..i], v)
      {
        EdgesAtStep(edges, i, v);
        if edges[i].destination == v || edges[i].origin == v {
          ret := ret + [edges[i]];
        }
      }
      assert edges[..|edges|] == edges;
    }

    /** adjacentVertices: the far ends of v's adjacency list, each once. */
    method AdjacentVertices(v: Vertex) returns (ret: seq<Vertex>)
      ensures ret == AdjacentVerticesSpec(View(), v)
      ensures NoDuplicates(ret)
    {
      ret := [];
      if v !in adjacentLists {
        return;
      }
      var out := adjacentLists[v];
      for i := 0 to |out|
        invariant ret == NeighbourFold(out[..i], v)
      {
        assert out[..i + 1][..i] == out[..i];
        var other := if out[i].destination != v then out[i].destination else out[i].origin;
        if other !in ret {
          ret := ret + [other];
        }
      }
      assert out[..|out|] == out;
      NeighbourFoldSpec(out, v);
    }

    /** vertexDegree: None where v has no adjacency list (NullPointerException). */
    method VertexDegree(v: Vertex) returns (r: Option<nat>)
      ensures r == VertexDegreeSpec(View(), v)
    {
      if v !in adjacentLists {
        return None;
      }
      return Some(|adjacentLists[v]|);
    }

    method GetVertexByContent(content: string) returns (r: Option<Vertex>)
      ensures r == VertexByContentSpec(View(), content)
    {
      if content !in vertexByContentMap {
        return None;
      }
      return Some(vertexByContentMap[content]);
    }
  }
}
