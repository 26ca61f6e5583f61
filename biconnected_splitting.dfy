/** The biconnected components of a graph
    (GraphDrawingTheory/src/graph/properties/splitting/BiconnectedSplitting.java): a
    depth-first search numbers the vertices in visit order (d), keeps the lowest number
    reachable through a back edge (low), pushes tree and back edges on a stack and, when
    a child cannot climb above its parent, pops the edges down to the tree edge into a new
    component graph.

    The search is specified by DfsVisit, EdgesLoop and EdgeStep on a SplitState whose
    fields are the object's arrays, counter, edge stack and the list of components; the
    class Splitter follows the source's recursion on real arrays and is proved equal to
    them. */
module Biconnected {
  import opened GraphElements
  import Properties

  /** The source indexes its arrays with indexOf and iterates adjacentEdges: every
      vertex is listed once and has an adjacency list, and the ends of the edges in
      those lists are listed. */
  ghost predicate Splittable(g: GraphData)
  {
    Properties.Indexed(g) && forall v :: v in g.vertices ==> v in g.adjacentLists
  }

  /** The edge sits in some vertex's adjacency list. */
  ghost predicate Listed(g: GraphData, e: Edge)
  {
    exists v :: v in g.adjacentLists && e in g.adjacentLists[v]
  }

  /** One push onto the edge stack: the edge and the position of the vertex whose
      adjacency list it was taken from. */
  datatype Push = Push(edge: Edge, from: nat)

  /** The object's fields during the search: visited, parent, d and low indexed by a
      vertex's position, the counter, the edge stack (top last) and the components
      formed so far; pushed records every push onto the stack, in order, which the
      source does not keep. */
  datatype SplitState = SplitState(
    visited: seq<bool>,
    parent: seq<int>,
    d: seq<int>,
    low: seq<int>,
    count: int,
    stack: seq<Edge>,
    components: seq<GraphData>,
    pushed: seq<Push>)

  predicate Sized(st: SplitState, n: nat)
  {
    |st.visited| == n && |st.parent| == n && |st.d| == n && |st.low| == n
  }

  /** The positions not yet visited. */
  function Unvisited(st: SplitState): set<nat>
  {
    set j: nat | j < |st.visited| && !st.visited[j]
  }

  /** Nothing visited is forgotten. */
  ghost predicate Grows(st: SplitState, st': SplitState)
  {
    |st'.visited| == |st.visited| && forall j :: 0 <= j < |st.visited| && st.visited[j] ==> st'.visited[j]
  }

  lemma GrowsUnvisited(st: SplitState, st': SplitState)
    requires Grows(st, st')
    ensures Unvisited(st') <= Unvisited(st)
  {
  }

  /** The arrays as findBiconnectedComponents allocates them: all false or 0. */
  function Initial(n: nat): (st: SplitState)
    ensures Sized(st, n) && forall j :: 0 <= j < n ==> !st.visited[j]
  {
    SplitState(seq(n, _ => false), seq(n, _ => 0), seq(n, _ => 0), seq(n, _ => 0), 0, [], [], [])
  }

  /** Entering the vertex at position i: marked, counted, numbered, low set to its
      number. */
  function Visit(st: SplitState, i: nat): (r: SplitState)
    requires Sized(st, |st.visited|) && i < |st.visited|
  {
    st.(visited := st.visited[i := true], count := st.count + 1,
        d := st.d[i := st.count + 1], low := st.low[i := st.count + 1])
  }

  lemma VisitShrinks(st: SplitState, i: nat)
    requires Sized(st, |st.visited|) && i < |st.visited| && !st.visited[i]
    ensures Grows(st, Visit(st, i)) && Unvisited(Visit(st, i)) == Unvisited(st) - {i}
    ensures i in Unvisited(st)
  {
  }

  /** formComponent's loop: pop the top edge, add its two ends and itself to the
      component, and stop once the popped edge is e. The rest of the stack is what lies
      below the topmost e. */
  function PopComponent(stack: seq<Edge>, e: Edge, component: GraphData): (r: (GraphData, seq<Edge>))
    requires e in stack
    ensures |r.1| < |stack| && r.1 == stack[..|r.1|] && stack[|r.1|] == e && e !in stack[|r.1| + 1..]
    decreases |stack|
  {
    var pop := stack[|stack| - 1];
    var c := AddEdgeTo(AddVertexTo(AddVertexTo(component, pop.origin), pop.destination), pop);
    if pop == e then (c, stack[..|stack| - 1])
    else
      var r := PopComponent(stack[..|stack| - 1], e, c);
      assert stack[|r.1| + 1..] == stack[..|stack| - 1][|r.1| + 1..] + [pop];
      r
  }

  /** formComponent(e): a new undirected graph built from the popped edges. */
  function FormComponent(stack: seq<Edge>, e: Edge): (GraphData, seq<Edge>)
    requires e in stack
  {
    PopComponent(stack, e, EmptyGraph(false))
  }

  /** dfsVisit(u) for the vertex at position i: visit it, then go through its adjacency
      list. */
  function DfsVisit(g: GraphData, st: SplitState, i: nat): (r: SplitState)
    requires Splittable(g) && Sized(st, |g.vertices|) && i < |g.vertices| && !st.visited[i]
    ensures Sized(r, |g.vertices|) && Grows(st, r) && r.visited[i] && Unvisited(r) < Unvisited(st)
    ensures st.stack <= r.stack
    decreases Unvisited(st), 0, 0
  {
    var es := g.adjacentLists[g.vertices[i]];
    VisitShrinks(st, i);
    var r := EdgesLoop(g, Visit(st, i), i, es, 0);
    GrowsUnvisited(Visit(st, i), r);
    r
  }

  /** The loop over the adjacency list es of the vertex at position i, from the k-th
      edge on. */
  function EdgesLoop(g: GraphData, st: SplitState, i: nat, es: seq<Edge>, k: nat): (r: SplitState)
    requires Splittable(g) && Sized(st, |g.vertices|) && i < |g.vertices| && st.visited[i]
    requires es == g.adjacentLists[g.vertices[i]] && k <= |es|
    ensures Sized(r, |g.vertices|) && Grows(st, r) && r.visited[i] && st.stack <= r.stack
    decreases Unvisited(st), 2, |es| - k
  {
    if k == |es| then st
    else
      var st' := EdgeStep(g, st, i, es[k]);
      GrowsUnvisited(st, st');
      EdgesLoop(g, st', i, es, k + 1)
  }

  /** One edge e at u = vertices[i], leading to v. An unvisited v: push e, record i as
      v's parent, search v, form a component when low[v] >= d[u], and pass low[v] up.
      A visited v other than u's parent, numbered below u (a back edge to an
      ancestor): push e and lower low[u] to d[v]. Anything else changes nothing. */
  function EdgeStep(g: GraphData, st: SplitState, i: nat, e: Edge): (r: SplitState)
    requires Splittable(g) && Sized(st, |g.vertices|) && i < |g.vertices| && st.visited[i]
    requires e in g.adjacentLists[g.vertices[i]]
    ensures Sized(r, |g.vertices|) && Grows(st, r) && r.visited[i] && st.stack <= r.stack
    decreases Unvisited(st), 1, 0
  {
    var u := g.vertices[i];
    var v := FarEnd(e, u);
    var vi := Properties.IndexOf(g.vertices, v);
    if !st.visited[vi] then
      var st1 := st.(stack := st.stack + [e], pushed := st.pushed + [Push(e, i)], parent := st.parent[vi := i]);
      var st2 := DfsVisit(g, st1, vi);
      assert st2.stack[|st.stack|] == e;
      var st3 :=
        if st2.low[vi] >= st2.d[i] then
          var (component, rest) := FormComponent(st2.stack, e);
          assert |rest| >= |st.stack|;
          assert rest[..|st.stack|] == st2.stack[..|st.stack|];
          st2.(stack := rest, components := st2.components + [component])
        else st2;
      st3.(low := st3.low[i := Min(st3.low[i], st3.low[vi])])
    else if st.parent[i] != vi && st.d[vi] < st.d[i] then
      st.(stack := st.stack + [e], pushed := st.pushed + [Push(e, i)], low := st.low[i := Min(st.low[i], st.d[vi])])
    else st
  }

  function Min(a: int, b: int): (m: int)
    ensures m <= a && m <= b && (m == a || m == b)
  {
    if a <= b then a else b
  }

  /** The outer loop of findBiconnectedComponents from the k-th vertex on: search every
      vertex still unvisited. */
  function Outer(g: GraphData, st: SplitState, k: nat): (r: SplitState)
    requires Splittable(g) && Sized(st, |g.vertices|) && k <= |g.vertices|
    ensures Sized(r, |g.vertices|) && Grows(st, r)
    decreases |g.vertices| - k
  {
    if k == |g.vertices| then st
    else
      var i := Properties.IndexOf(g.vertices, g.vertices[k]);
      Outer(g, if !st.visited[i] then DfsVisit(g, st, i) else st, k + 1)
  }

  /** The whole search, from freshly allocated arrays. */
  function SplitSearch(g: GraphData): (r: SplitState)
    requires Splittable(g)
    ensures Sized(r, |g.vertices|)
  {
    Outer(g, Initial(|g.vertices|), 0)
  }

  /** findBiconnectedComponents: the components formed, in order. */
  function FindComponentsSpec(g: GraphData): seq<GraphData>
    requires Splittable(g)
  {
    SplitSearch(g).components
  }

  /** The edges of es meeting v. */
  ghost predicate Touches(es: seq<Edge>, v: Vertex)
  {
    exists f :: f in es && (f.origin == v || f.destination == v)
  }

  /** What one pop adds to the component: the popped edge and its two ends. */
  lemma PopOne(component: GraphData, pop: Edge)
    ensures var c := AddEdgeTo(AddVertexTo(AddVertexTo(component, pop.origin), pop.destination), pop);
      && (forall f :: f in c.edges <==> f in component.edges || f == pop)
      && (forall v :: v in c.vertices <==> v in component.vertices || v == pop.origin || v == pop.destination)
      && c.directed == component.directed
      && (Valid(component) ==> Valid(c))
  {
    var c1 := AddVertexTo(component, pop.origin);
    var c2 := AddVertexTo(c1, pop.destination);
    if Valid(component) {
      AddVertexValid(component, pop.origin);
      AddVertexValid(c1, pop.destination);
      AddEdgeValid(c2, pop);
    }
  }

  /** Popping past an edge other than e: the same outcome as starting one edge lower
      with that edge already in the component, and the popped edges are those popped
      from there on plus the top one. */
  lemma PopPast(stack: seq<Edge>, e: Edge, component: GraphData)
    requires e in stack && stack[|stack| - 1] != e
    ensures var pop := stack[|stack| - 1];
      var init := stack[..|stack| - 1];
      var c := AddEdgeTo(AddVertexTo(AddVertexTo(component, pop.origin), pop.destination), pop);
      var r := PopComponent(stack, e, component);
      && e in init && r == PopComponent(init, e, c)
      && stack[|r.1|..] == init[|r.1|..] + [pop]
  {
  }

  /** formComponent's component holds exactly the popped edges, the edges from the
      topmost e to the top of the stack (besides what it held before), stays undirected
      when it was, and stays a valid graph. */
  lemma {:induction false} PopComponentEdges(stack: seq<Edge>, e: Edge, component: GraphData)
    requires e in stack
    ensures var r := PopComponent(stack, e, component);
      && (forall f :: f in r.0.edges <==> f in component.edges || f in stack[|r.1|..])
      && r.0.directed == component.directed
      && (Valid(component) ==> Valid(r.0))
    decreases |stack|
  {
    var pop := stack[|stack| - 1];
    PopOne(component, pop);
    if pop == e {
      var r := PopComponent(stack, e, component);
      assert stack[|r.1|..] == [pop];
    } else {
      PopPast(stack, e, component);
      PopComponentEdges(stack[..|stack| - 1], e, AddEdgeTo(AddVertexTo(AddVertexTo(component, pop.origin), pop.destination), pop));
    }
  }

  /** The component's vertices are exactly the ends of the popped edges (besides what
      it held before). */
  lemma {:induction false} PopComponentVertices(stack: seq<Edge>, e: Edge, component: GraphData)
    requires e in stack
    ensures var r := PopComponent(stack, e, component);
      forall v :: v in r.0.vertices <==> v in component.vertices || Touches(stack[|r.1|..], v)
    decreases |stack|
  {
    var pop := stack[|stack| - 1];
    var r := PopComponent(stack, e, component);
    PopOne(component, pop);
    if pop == e {
      assert stack[|r.1|..] == [pop];
    } else {
      var init := stack[..|stack| - 1];
      PopPast(stack, e, component);
      PopComponentVertices(init, e, AddEdgeTo(AddVertexTo(AddVertexTo(component, pop.origin), pop.destination), pop));
      forall v ensures Touches(stack[|r.1|..], v) <==> Touches(init[|r.1|..], v) || v == pop.origin || v == pop.destination {
        if Touches(stack[|r.1|..], v) && !Touches(init[|r.1|..], v) {
          var f :| f in stack[|r.1|..] && (f.origin == v || f.destination == v);
          assert f !in init[|r.1|..];
        }
        if v == pop.origin || v == pop.destination {
          assert pop in stack[|r.1|..];
        }
      }
    }
  }

  /** A component graph: valid, undirected, with at least one edge, its edges taken from
      the adjacency lists of g, and no vertex that is not an end of one of its edges. */
  ghost predicate Component(g: GraphData, c: GraphData)
  {
    && Valid(c) && !c.directed && |c.edges| > 0
    && (forall f :: f in c.edges ==> Listed(g, f))
    && (forall v :: v in c.vertices ==> Touches(c.edges, v))
  }

  /** The counter is the number of vertices visited; every visited vertex has a distinct
      number d in 1..count and a low value between 1 and its own number. */
  ghost predicate Numbered(st: SplitState, n: nat)
  {
    && Sized(st, n) && 0 <= st.count && st.count + |Unvisited(st)| == n
    && (forall j :: 0 <= j < n && st.visited[j] ==> 1 <= st.low[j] <= st.d[j] <= st.count)
    && (forall j, k :: 0 <= j < n && 0 <= k < n && j != k && st.visited[j] && st.visited[k] ==> st.d[j] != st.d[k])
  }

  /** The stack holds edges of g's adjacency lists, and every component formed is a
      component graph. */
  ghost predicate Collected(g: GraphData, st: SplitState)
  {
    && (forall f :: f in st.stack ==> Listed(g, f))
    && (forall c :: c in st.components ==> Component(g, c))
  }

  lemma VisitNumbered(st: SplitState, i: nat, n: nat)
    requires Numbered(st, n) && i < n && !st.visited[i]
    ensures Numbered(Visit(st, i), n)
  {
    VisitShrinks(st, i);
    assert |Unvisited(Visit(st, i))| == |Unvisited(st)| - 1;
    var r := Visit(st, i);
    forall j | 0 <= j < n && r.visited[j] ensures 1 <= r.low[j] <= r.d[j] <= r.count {
      if j != i {
        assert st.visited[j];
      }
    }
  }

  lemma {:induction false} DfsVisitNumbered(g: GraphData, st: SplitState, i: nat)
    requires Splittable(g) && Sized(st, |g.vertices|) && i < |g.vertices| && !st.visited[i]
    requires Numbered(st, |g.vertices|)
    ensures Numbered(DfsVisit(g, st, i), |g.vertices|)
    decreases Unvisited(st), 0, 0
  {
    VisitShrinks(st, i);
    VisitNumbered(st, i, |g.vertices|);
    EdgesLoopNumbered(g, Visit(st, i), i, g.adjacentLists[g.vertices[i]], 0);
  }

  lemma {:induction false} EdgesLoopNumbered(g: GraphData, st: SplitState, i: nat, es: seq<Edge>, k: nat)
    requires Splittable(g) && Sized(st, |g.vertices|) && i < |g.vertices| && st.visited[i]
    requires es == g.adjacentLists[g.vertices[i]] && k <= |es|
    requires Numbered(st, |g.vertices|)
    ensures Numbered(EdgesLoop(g, st, i, es, k), |g.vertices|)
    decreases Unvisited(st), 2, |es| - k
  {
    if k < |es| {
      EdgeStepNumbered(g, st, i, es[k]);
      var st' := EdgeStep(g, st, i, es[k]);
      GrowsUnvisited(st, st');
      EdgesLoopNumbered(g, st', i, es, k + 1);
    }
  }

  lemma {:induction false} EdgeStepNumbered(g: GraphData, st: SplitState, i: nat, e: Edge)
    requires Splittable(g) && Sized(st, |g.vertices|) && i < |g.vertices| && st.visited[i]
    requires e in g.adjacentLists[g.vertices[i]]
    requires Numbered(st, |g.vertices|)
    ensures Numbered(EdgeStep(g, st, i, e), |g.vertices|)
    decreases Unvisited(st), 1, 0
  {
    var vi := Properties.IndexOf(g.vertices, FarEnd(e, g.vertices[i]));
    if !st.visited[vi] {
      var st1 := st.(stack := st.stack + [e], pushed := st.pushed + [Push(e, i)], parent := st.parent[vi := i]);
      assert Unvisited(st1) == Unvisited(st);
      DfsVisitNumbered(g, st1, vi);
    }
  }

  lemma {:induction false} DfsVisitCollected(g: GraphData, st: SplitState, i: nat)
    requires Splittable(g) && Sized(st, |g.vertices|) && i < |g.vertices| && !st.visited[i]
    requires Collected(g, st)
    ensures Collected(g, DfsVisit(g, st, i))
    decreases Unvisited(st), 0, 0
  {
    VisitShrinks(st, i);
    EdgesLoopCollected(g, Visit(st, i), i, g.adjacentLists[g.vertices[i]], 0);
  }

  lemma {:induction false} EdgesLoopCollected(g: GraphData, st: SplitState, i: nat, es: seq<Edge>, k: nat)
    requires Splittable(g) && Sized(st, |g.vertices|) && i < |g.vertices| && st.visited[i]
    requires es == g.adjacentLists[g.vertices[i]] && k <= |es|
    requires Collected(g, st)
    ensures Collected(g, EdgesLoop(g, st, i, es, k))
    decreases Unvisited(st), 2, |es| - k
  {
    if k < |es| {
      EdgeStepCollected(g, st, i, es[k]);
      var st' := EdgeStep(g, st, i, es[k]);
      GrowsUnvisited(st, st');
      EdgesLoopCollected(g, st', i, es, k + 1);
    }
  }

  /** The component formed from a stack of listed edges is a component graph, and what
      is left of the stack is still listed edges. */
  lemma FormComponentCollected(g: GraphData, stack: seq<Edge>, e: Edge)
    requires e in stack && forall f :: f in stack ==> Listed(g, f)
    ensures Component(g, FormComponent(stack, e).0)
    ensures forall f :: f in FormComponent(stack, e).1 ==> Listed(g, f)
  {
    var r := FormComponent(stack, e);
    PopComponentEdges(stack, e, EmptyGraph(false));
    PopComponentVertices(stack, e, EmptyGraph(false));
    assert e in r.0.edges;
    forall v | v in r.0.vertices ensures Touches(r.0.edges, v) {
      var f :| f in stack[|r.1|..] && (f.origin == v || f.destination == v);
    }
  }

  lemma {:induction false} EdgeStepCollected(g: GraphData, st: SplitState, i: nat, e: Edge)
    requires Splittable(g) && Sized(st, |g.vertices|) && i < |g.vertices| && st.visited[i]
    requires e in g.adjacentLists[g.vertices[i]]
    requires Collected(g, st)
    ensures Collected(g, EdgeStep(g, st, i, e))
    decreases Unvisited(st), 1, 0
  {
    assert Listed(g, e);
    var vi := Properties.IndexOf(g.vertices, FarEnd(e, g.vertices[i]));
    if !st.visited[vi] {
      var st1 := st.(stack := st.stack + [e], pushed := st.pushed + [Push(e, i)], parent := st.parent[vi := i]);
      assert Unvisited(st1) == Unvisited(st);
      DfsVisitCollected(g, st1, vi);
      var st2 := DfsVisit(g, st1, vi);
      assert st2.stack[|st.stack|] == st1.stack[|st.stack|] == e;
      if st2.low[vi] >= st2.d[i] {
        FormComponentCollected(g, st2.stack, e);
      }
    }
  }

  /** The fresh arrays: nothing visited, the counter at zero, no edge, no component. */
  lemma InitialNumbered(g: GraphData)
    ensures Numbered(Initial(|g.vertices|), |g.vertices|) && Collected(g, Initial(|g.vertices|))
  {
    var n := |g.vertices|;
    BelowSize(n);
    assert Unvisited(Initial(n)) == Below(n);
  }

  /** The positions below n. */
  function Below(n: nat): set<nat>
  {
    if n == 0 then {} else Below(n - 1) + {n - 1}
  }

  lemma {:induction false} BelowSize(n: nat)
    ensures |Below(n)| == n && forall j :: j in Below(n) <==> 0 <= j < n
  {
    if n > 0 {
      BelowSize(n - 1);
    }
  }

  /** The outer loop keeps both invariants, and once it is through every vertex has been
      visited. */
  lemma {:induction false} OuterKeeps(g: GraphData, st: SplitState, k: nat)
    requires Splittable(g) && Sized(st, |g.vertices|) && k <= |g.vertices|
    requires Numbered(st, |g.vertices|) && Collected(g, st)
    requires forall m :: 0 <= m < k ==> st.visited[m]
    ensures Numbered(Outer(g, st, k), |g.vertices|) && Collected(g, Outer(g, st, k))
    ensures forall m :: 0 <= m < |g.vertices| ==> Outer(g, st, k).visited[m]
    decreases |g.vertices| - k
  {
    if k < |g.vertices| {
      Properties.IndexOfUnique(g.vertices, k);
      var st' := if !st.visited[k] then DfsVisit(g, st, k) else st;
      if !st.visited[k] {
        DfsVisitNumbered(g, st, k);
        DfsVisitCollected(g, st, k);
      }
      OuterKeeps(g, st', k + 1);
    }
  }

  /** findBiconnectedComponents visits every vertex exactly once: the counter ends at
      the number of vertices and the numbers d are distinct values in 1..n, so each
      vertex was numbered once; every low value lies between 1 and the vertex's own
      number. */
  lemma SplitSearchNumbers(g: GraphData)
    requires Splittable(g)
    ensures var st := SplitSearch(g);
      && st.count == |g.vertices|
      && (forall j :: 0 <= j < |g.vertices| ==> st.visited[j] && 1 <= st.low[j] <= st.d[j] <= |g.vertices|)
      && (forall j, k :: 0 <= j < |g.vertices| && 0 <= k < |g.vertices| && j != k ==> st.d[j] != st.d[k])
  {
    InitialNumbered(g);
    OuterKeeps(g, Initial(|g.vertices|), 0);
    var st := SplitSearch(g);
    assert Unvisited(st) == {};
  }

  /** Every component findBiconnectedComponents returns is a valid undirected graph with
      at least one edge, all of its edges taken from the graph's adjacency lists and all
      of its vertices ends of its edges. */
  lemma FindComponentsValid(g: GraphData)
    requires Splittable(g)
    ensures forall c :: c in FindComponentsSpec(g) ==> Component(g, c)
  {
    InitialNumbered(g);
    OuterKeeps(g, Initial(|g.vertices|), 0);
  }

  /** The object: the graph, its vertex list, the four arrays, the counter and the edge
      stack. The components are the list findBiconnectedComponents creates and dfsVisit
      adds to; here they are passed in and handed back as the values of the graphs
      formed. */
  class Splitter {
    const graph: Graph
    var vertices: seq<Vertex>
    var visited: array<bool>
    var parent: array<int>
    var d: array<int>
    var low: array<int>
    var count: int
    var stack: seq<Edge>
    ghost var pushed: seq<Push>

    /** One entry per vertex in each array; the three int arrays are distinct. */
    ghost predicate Ready()
      reads this
    {
      && visited.Length == |vertices| && parent.Length == |vertices|
      && d.Length == |vertices| && low.Length == |vertices|
      && parent != d && parent != low && d != low
    }

    ghost function State(components: seq<GraphData>): SplitState
      reads this, visited, parent, d, low
    {
      SplitState(visited[..], parent[..], d[..], low[..], count, stack, components, pushed)
    }

    /** BiconnectedSplitting(graph): the arrays are allocated by the search. */
    constructor(graph: Graph)
      ensures this.graph == graph && vertices == [] && count == 0 && stack == [] && pushed == []
    {
      this.graph := graph;
      vertices := [];
      visited := new bool[0](_ => false);
      parent := new int[0](_ => 0);
      d := new int[0](_ => 0);
      low := new int[0](_ => 0);
      count := 0;
      stack := [];
      pushed := [];
    }

    /** The initialisation of findBiconnectedComponents: the vertex list, four arrays of
        its length, an empty stack and the counter at zero. */
    method Allocate()
      modifies this
      ensures Ready() && vertices == graph.vertices && State([]) == Initial(|vertices|)
      ensures fresh(visited) && fresh(parent) && fresh(d) && fresh(low)
    {
      vertices := graph.vertices;
      var n := |vertices|;
      visited := new bool[n](_ => false);
      parent := new int[n](_ => 0);
      d := new int[n](_ => 0);
      low := new int[n](_ => 0);
      stack := [];
      pushed := [];
      count := 0;
    }

    /** findBiconnectedComponents: fresh arrays, then a search from every vertex not yet
        visited, in list order. */
    method FindBiconnectedComponents() returns (components: seq<GraphData>)
      requires Splittable(graph.View())
      modifies this
      ensures components == FindComponentsSpec(graph.View())
    {
      Allocate();
      components := [];
      ghost var g := graph.View();
      for k := 0 to |vertices|
        invariant Ready() && vertices == g.vertices && graph.View() == g
        invariant fresh(visited) && fresh(parent) && fresh(d) && fresh(low)
        invariant Outer(g, State(components), k) == SplitSearch(g)
      {
        var u := vertices[k];
        if !visited[Properties.IndexOf(vertices, u)] {
          components := Search(u, components);
        }
      }
    }

    /** dfsVisit(u): number u, then take its adjacent edges in turn. */
    method Search(u: Vertex, components: seq<GraphData>) returns (r: seq<GraphData>)
      requires Ready() && vertices == graph.vertices && Splittable(graph.View())
      requires u in vertices && !visited[Properties.IndexOf(vertices, u)]
      modifies this, visited, parent, d, low
      ensures Ready() && vertices == old(vertices)
      ensures visited == old(visited) && parent == old(parent) && d == old(d) && low == old(low)
      ensures State(r) == DfsVisit(graph.View(), old(State(components)), Properties.IndexOf(vertices, u))
      decreases Unvisited(State(components)), 0
    {
      ghost var g := graph.View();
      ghost var st := State(components);
      var uIndex := Properties.IndexOf(vertices, u);
      Enter(uIndex, components);
      VisitShrinks(st, uIndex);
      var es := graph.adjacentLists[u];
      r := components;
      for k := 0 to |es|
        invariant Ready() && vertices == old(vertices)
        invariant visited == old(visited) && parent == old(parent) && d == old(d) && low == old(low)
        invariant Sized(State(r), |g.vertices|) && visited[uIndex]
        invariant Unvisited(State(r)) < Unvisited(st)
        invariant EdgesLoop(g, State(r), uIndex, es, k) == DfsVisit(g, st, uIndex)
      {
        ghost var before := State(r);
        r := Explore(uIndex, es[k], r);
        GrowsUnvisited(before, State(r));
      }
    }

    /** The start of dfsVisit: mark the vertex at position i visited and give it the
        next number as its discovery time and low value. */
    method Enter(i: nat, ghost components: seq<GraphData>)
      requires Ready() && i < |vertices|
      modifies this`count, visited, d, low
      ensures State(components) == Visit(old(State(components)), i)
    {
      visited[i] := true;
      count := count + 1;
      d[i] := count;
      low[i] := d[i];
    }

    /** One turn of dfsVisit's loop: the edge e at the vertex at position i. */
    method Explore(i: nat, e: Edge, components: seq<GraphData>) returns (r: seq<GraphData>)
      requires Ready() && vertices == graph.vertices && Splittable(graph.View())
      requires i < |vertices| && visited[i] && e in graph.adjacentLists[vertices[i]]
      modifies this, visited, parent, d, low
      ensures Ready() && vertices == old(vertices)
      ensures visited == old(visited) && parent == old(parent) && d == old(d) && low == old(low)
      ensures State(r) == EdgeStep(graph.View(), old(State(components)), i, e)
      decreases Unvisited(State(components)), 2
    {
      var u := vertices[i];
      var v := if e.origin == u then e.destination else e.origin;
      var vIndex := Properties.IndexOf(vertices, v);
      r := components;
      if !visited[vIndex] {
        r := Descend(i, e, v, components);
      } else if parent[i] != vIndex && d[vIndex] < d[i] {
        stack := stack + [e];
        pushed := pushed + [Push(e, i)];
        low[i] := Min(low[i], d[vIndex]);
      }
    }

    /** A tree edge e from the vertex at position i to the unvisited v: push e, make i
        v's parent, search v, form a component when v cannot climb above i, and take v's
        low value. */
    method Descend(i: nat, e: Edge, v: Vertex, components: seq<GraphData>) returns (r: seq<GraphData>)
      requires Ready() && vertices == graph.vertices && Splittable(graph.View())
      requires i < |vertices| && visited[i] && e in graph.adjacentLists[vertices[i]]
      requires v == FarEnd(e, vertices[i]) && v in vertices && !visited[Properties.IndexOf(vertices, v)]
      modifies this, visited, parent, d, low
      ensures Ready() && vertices == old(vertices)
      ensures visited == old(visited) && parent == old(parent) && d == old(d) && low == old(low)
      ensures State(r) == EdgeStep(graph.View(), old(State(components)), i, e)
      decreases Unvisited(State(components)), 1
    {
      ghost var st := State(components);
      var vIndex := Properties.IndexOf(vertices, v);
      stack := stack + [e];
      pushed := pushed + [Push(e, i)];
      parent[vIndex] := i;
      assert State(components) == st.(stack := st.stack + [e], pushed := st.pushed + [Push(e, i)], parent := st.parent[vIndex := i]);
      r := Search(v, components);
      ghost var st2 := State(r);
      if low[vIndex] >= d[i] {
        assert stack[|st.stack|] == e;
        var component := FormComponentOf(e);
        r := r + [component];
      }
      ghost var st3 := State(r);
      low[i] := Min(low[i], low[vIndex]);
      assert low[..] == st3.low[i := Min(st3.low[i], st3.low[vIndex])];
    }

    /** formComponent(e): pop edges into a new graph, both ends and the edge each time,
        until e itself has been popped. */
    method FormComponentOf(e: Edge) returns (component: GraphData)
      requires e in stack
      modifies this
      ensures (component, stack) == FormComponent(old(stack), e)
      ensures vertices == old(vertices) && count == old(count) && pushed == old(pushed)
      ensures visited == old(visited) && parent == old(parent) && d == old(d) && low == old(low)
    {
      var c := new Graph(false);
      var done := false;
      while !done
        invariant vertices == old(vertices) && count == old(count) && pushed == old(pushed)
        invariant visited == old(visited) && parent == old(parent) && d == old(d) && low == old(low)
        invariant !done ==> e in stack && PopComponent(stack, e, c.View()) == FormComponent(old(stack), e)
        invariant done ==> (c.View(), stack) == FormComponent(old(stack), e)
        decreases |stack|, if done then 0 else 1
      {
        var pop := stack[|stack| - 1];
        stack := stack[..|stack| - 1];
        c.AddVertex(pop.origin);
        c.AddVertex(pop.destination);
        c.AddEdge(pop);
        done := pop == e;
      }
      component := c.View();
    }
  }
}
