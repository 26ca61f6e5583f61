/** What findSimpleCycles promises beyond soundness
    (GraphDrawingTheory/src/graph/algorithm/cycles/PatonSimpleCycles.java): the parent
    climb that closes a cycle always ends, so the search returns, and every cycle it
    reports is simple; and every self-loop of the graph is reported.

    The climb ends because the walk is a depth-first walk with a stack: when an edge
    leads from the current vertex to a reached neighbour that neither has been used
    with the other, that neighbour is still on the stack below the current vertex, its
    parent is an ancestor of the current vertex and is used with it. The one case this
    argument needs to exclude is a second edge between the current vertex and a
    neighbour it has just reached or just closed a cycle with: the corrected search
    handles it, and the search as written meets it only on graphs with parallel
    edges. */
module PatonTermination {
  import opened Wrappers
  import opened GraphElements
  import opened PatonCycles

  /** e joins a and b, in either direction. */
  predicate Links(e: Edge, a: Vertex, b: Vertex)
  {
    (e.origin == a && e.destination == b) || (e.origin == b && e.destination == a)
  }

  /** e2 joins the same two different vertices as e1. */
  predicate Parallel(e1: Edge, e2: Edge)
  {
    e1.origin != e1.destination && Links(e2, e1.origin, e1.destination)
  }

  /** No two entries of the edge list join the same two different vertices. */
  predicate NoParallel(edges: seq<Edge>)
  {
    forall p, q :: 0 <= p < q < |edges| ==> !Parallel(edges[p], edges[q])
  }

  /** The graph has a self-loop at v. */
  ghost predicate SelfLoop(edges: seq<Edge>, v: Vertex)
  {
    exists e :: e in edges && e.origin == v && e.destination == v
  }

  /** No vertex occurs twice in c. */
  ghost predicate NoRepeat(c: seq<Vertex>)
  {
    forall a, b :: 0 <= a < b < |c| ==> c[a] != c[b]
  }

  ghost predicate AllSimple(cycles: seq<seq<Vertex>>)
  {
    forall c :: c in cycles ==> NoRepeat(c)
  }

  /** The list of edges at a vertex keeps the absence of parallel edges. */
  lemma {:induction false} EdgesAtNoParallel(edges: seq<Edge>, v: Vertex)
    requires NoParallel(edges)
    ensures NoParallel(EdgesAt(edges, v))
    decreases |edges|
  {
    if edges != [] {
      var tail := edges[1..];
      assert NoParallel(tail) by {
        forall p, q | 0 <= p < q < |tail| ensures !Parallel(tail[p], tail[q]) {
          assert tail[p] == edges[p + 1] && tail[q] == edges[q + 1];
        }
      }
      EdgesAtNoParallel(tail, v);
      var rest := EdgesAt(tail, v);
      if edges[0].origin == v || edges[0].destination == v {
        var r := [edges[0]] + rest;
        assert EdgesAt(edges, v) == r;
        forall p, q | 0 <= p < q < |r| ensures !Parallel(r[p], r[q]) {
          assert r[q] == rest[q - 1];
          if p == 0 {
            assert rest[q - 1] in tail;
            var t :| 0 <= t < |tail| && tail[t] == rest[q - 1];
            assert edges[t + 1] == r[q];
          } else {
            assert r[p] == rest[p - 1];
          }
        }
      } else {
        assert EdgesAt(edges, v) == rest;
      }
    }
  }

  /** An edge at current joins current and the neighbour it leads to. */
  lemma NeighbourLinks(e: Edge, current: Vertex)
    requires Touches(e, current)
    ensures Links(e, current, Neighbour(e, current))
    ensures Touches(e, Neighbour(e, current)) && Neighbour(e, Neighbour(e, current)) == current
  {
  }

  // ----- parent chains

  /** a is b or one of b's ancestors. */
  ghost predicate Anc(parent: map<Vertex, Vertex>, a: Vertex, b: Vertex)
  {
    Closed(parent) && b in parent && exists k: nat :: Up(parent, b, k) == a
  }

  /** b's parent chain reaches a vertex that is its own parent. */
  ghost predicate Rooted(parent: map<Vertex, Vertex>, b: Vertex)
  {
    Closed(parent) && b in parent && exists d: nat :: parent[Up(parent, b, d)] == Up(parent, b, d)
  }

  /** parent' agrees with parent on u, and u holds the parents of its vertices. */
  ghost predicate Keeps(parent: map<Vertex, Vertex>, parent': map<Vertex, Vertex>, u: set<Vertex>)
  {
    forall x :: x in u ==> x in parent && x in parent' && parent'[x] == parent[x] && parent[x] in u
  }

  /** Changing parents outside a parent-closed set u leaves the chains from u alone. */
  lemma {:induction false} UpStable(parent: map<Vertex, Vertex>, parent': map<Vertex, Vertex>, u: set<Vertex>, b: Vertex, k: nat)
    requires Closed(parent) && Closed(parent')
    requires Keeps(parent, parent', u)
    requires b in u
    ensures Up(parent', b, k) == Up(parent, b, k) && Up(parent, b, k) in u
    decreases k
  {
    if k > 0 {
      UpStable(parent, parent', u, parent[b], k - 1);
    }
  }

  lemma AncStable(parent: map<Vertex, Vertex>, parent': map<Vertex, Vertex>, u: set<Vertex>, a: Vertex, b: Vertex)
    requires Closed(parent) && Closed(parent')
    requires Keeps(parent, parent', u)
    requires b in u && Anc(parent, a, b)
    ensures Anc(parent', a, b)
  {
    var k: nat :| Up(parent, b, k) == a;
    UpStable(parent, parent', u, b, k);
  }

  lemma RootedStable(parent: map<Vertex, Vertex>, parent': map<Vertex, Vertex>, u: set<Vertex>, b: Vertex)
    requires Closed(parent) && Closed(parent')
    requires Keeps(parent, parent', u)
    requires b in u && Rooted(parent, b)
    ensures Rooted(parent', b)
  {
    var d: nat :| parent[Up(parent, b, d)] == Up(parent, b, d);
    UpStable(parent, parent', u, b, d);
  }

  /** A vertex that is its own parent stays put. */
  lemma {:induction false} UpFixed(parent: map<Vertex, Vertex>, z: Vertex, k: nat)
    requires Closed(parent) && z in parent && parent[z] == z
    ensures Up(parent, z, k) == z
    decreases k
  {
    if k > 0 {
      UpFixed(parent, z, k - 1);
    }
  }

  /** A chain that returns to y after p > 0 steps returns to it beyond any bound. */
  lemma {:induction false} UpReturns(parent: map<Vertex, Vertex>, y: Vertex, p: nat, t: nat) returns (s: nat)
    requires Closed(parent) && y in parent && p > 0 && Up(parent, y, p) == y
    ensures s >= t && Up(parent, y, s) == y
    decreases t
  {
    if t == 0 {
      s := 0;
    } else {
      var s0 := UpReturns(parent, y, p, t - 1);
      UpAdd(parent, y, s0, p);
      s := s0 + p;
    }
  }

  /** A chain that reaches a root and visits a vertex twice visits only that root twice. */
  lemma RepeatIsRoot(parent: map<Vertex, Vertex>, x: Vertex, i: nat, j: nat)
    requires Rooted(parent, x) && i < j && Up(parent, x, i) == Up(parent, x, j)
    ensures parent[Up(parent, x, i)] == Up(parent, x, i)
  {
    var d: nat :| parent[Up(parent, x, d)] == Up(parent, x, d);
    var y, z := Up(parent, x, i), Up(parent, x, d);
    UpAdd(parent, x, i, j - i);
    var s := UpReturns(parent, y, j - i, d);
    UpAdd(parent, x, i, s);
    UpAdd(parent, x, d, i + s - d);
    UpFixed(parent, z, i + s - d);
  }

  /** One step further up a chain. */
  lemma UpNext(parent: map<Vertex, Vertex>, x: Vertex, k: nat)
    requires Closed(parent) && x in parent
    ensures Up(parent, x, k + 1) == parent[Up(parent, x, k)]
  {
    UpAdd(parent, x, k, 1);
  }

  // ----- the walk's invariants

  /** The vertices of this component form a tree: each one has its parent in the
      component and is either its own parent (the root) or used with its parent. */
  ghost predicate Tree(st: SearchState)
  {
    && WF(st)
    && forall x {:trigger st.parent[x]} :: x in st.used ==>
      st.parent[x] in st.used && (st.parent[x] == x || st.parent[x] in st.used[x])
  }

  /** Only vertices already taken off the stack are ever used with another. */
  ghost predicate UsedPopped(st: SearchState)
  {
    forall x, y {:trigger y in st.used[x]} :: x in st.used && y in st.used[x] ==> y in st.used && y !in st.stack
  }

  ghost predicate Distinct(s: seq<Vertex>)
  {
    forall a, b :: 0 <= a < b < |s| ==> s[a] != s[b]
  }

  /** The stack of a depth-first walk: no vertex twice, no root below the top, and the
      parent of each vertex an ancestor of every vertex above it. */
  ghost predicate DfsStack(st: SearchState)
  {
    && WF(st)
    && Distinct(st.stack)
    && (forall a :: 0 <= a < |st.stack| - 1 ==> st.parent[st.stack[a]] != st.stack[a])
    && (forall a, b :: 0 <= a < b < |st.stack| ==> Anc(st.parent, st.parent[st.stack[a]], st.stack[b]))
  }

  /** The edge e at x is dealt with: its other end y is in the component and one of the
      two has been used with the other, or e is a self-loop. */
  ghost predicate EdgeDone(st: SearchState, x: Vertex, e: Edge)
  {
    var y := Neighbour(e, x);
    y in st.used && (y == x || (x in st.used && y in st.used[x]) || x in st.used[y])
  }

  /** Every edge of the graph at x is dealt with. */
  ghost predicate Done(g: GraphData, st: SearchState, x: Vertex)
  {
    forall e :: e in g.edges && Touches(e, x) ==> EdgeDone(st, x, e)
  }

  /** Every vertex of the component taken off the stack has all its edges dealt with. */
  ghost predicate AllDone(g: GraphData, st: SearchState)
  {
    forall x {:trigger Done(g, st, x)} :: x in st.used && x !in st.stack ==> Done(g, st, x)
  }

  /** Every chain of parents from the component ends at a root. */
  ghost predicate AllRooted(st: SearchState)
  {
    forall x {:trigger Rooted(st.parent, x)} :: x in st.used ==> Rooted(st.parent, x)
  }

  /** What holds between two pops of a component's walk. */
  ghost predicate Head(g: GraphData, st: SearchState)
  {
    && WF(st) && st.used.Keys <= Universe(g)
    && Tree(st) && UsedPopped(st) && DfsStack(st) && AllDone(g, st) && AllRooted(st)
    && AllSimple(st.cycles)
  }

  /** During current's loop the stack is `below`, the vertices that were under
      current, followed by vertices reached from current. */
  ghost predicate LoopStack(st: SearchState, below: seq<Vertex>, current: Vertex)
  {
    && WF(st) && current in st.used
    && below <= st.stack && Distinct(st.stack) && current !in st.stack
    && (forall a :: |below| <= a < |st.stack| ==> st.parent[st.stack[a]] == current)
    && (forall a :: 0 <= a < |below| ==>
          st.parent[below[a]] != below[a] && Anc(st.parent, st.parent[below[a]], current))
    && (forall a, b :: 0 <= a < b < |below| ==> Anc(st.parent, st.parent[below[a]], below[b]))
  }

  /** current's loop over its edge list es, at edge i. */
  ghost predicate LoopFrame(g: GraphData, st: SearchState, current: Vertex, cu: set<Vertex>, es: seq<Edge>, i: nat)
  {
    && WF(st) && st.used.Keys <= Universe(g) && current in st.used && st.used[current] == cu
    && es == EdgesAt(g.edges, current) && i <= |es|
  }

  /** Every popped vertex other than current has all its edges dealt with. */
  ghost predicate DoneOthers(g: GraphData, st: SearchState, current: Vertex)
  {
    forall x {:trigger Done(g, st, x)} :: x in st.used && x !in st.stack && x != current ==> Done(g, st, x)
  }

  /** current's first i edges are dealt with. */
  ghost predicate DoneSoFar(st: SearchState, current: Vertex, es: seq<Edge>, i: nat)
  {
    forall j :: 0 <= j < i && j < |es| ==> EdgeDone(st, current, es[j])
  }

  /** A vertex is used with current only through one of current's first i edges. */
  ghost predicate UsedThrough(st: SearchState, current: Vertex, es: seq<Edge>, i: nat)
  {
    forall x :: x in st.used && current in st.used[x] ==> exists j :: 0 <= j < i && j < |es| && Links(es[j], current, x)
  }

  /** What holds in current's edge loop after its first i edges es[..i]. */
  ghost predicate Loop(g: GraphData, st: SearchState, below: seq<Vertex>, current: Vertex, cu: set<Vertex>, es: seq<Edge>, i: nat)
  {
    && LoopFrame(g, st, current, cu, es, i)
    && Tree(st) && UsedPopped(st) && LoopStack(st, below, current)
    && DoneOthers(g, st, current) && DoneSoFar(st, current, es, i) && UsedThrough(st, current, es, i)
    && AllRooted(st) && AllSimple(st.cycles)
  }

  /** Used sets only grow from st to st'. */
  ghost predicate UsesGrow(st: SearchState, st': SearchState)
  {
    forall y :: y in st.used ==> y in st'.used && st.used[y] <= st'.used[y]
  }

  lemma DoneGrows(g: GraphData, st: SearchState, st': SearchState, x: Vertex)
    requires UsesGrow(st, st') && Done(g, st, x)
    ensures Done(g, st', x)
  {
    forall e | e in g.edges && Touches(e, x) ensures EdgeDone(st', x, e) {
      assert EdgeDone(st, x, e);
    }
  }

  lemma EdgeDoneGrows(st: SearchState, st': SearchState, x: Vertex, e: Edge)
    requires UsesGrow(st, st') && EdgeDone(st, x, e)
    ensures EdgeDone(st', x, e)
  {
  }

  lemma DoneOthersGrow(g: GraphData, st: SearchState, st': SearchState, current: Vertex)
    requires DoneOthers(g, st, current) && UsesGrow(st, st')
    requires forall x :: x in st'.used && x !in st'.stack && x != current ==> x in st.used && x !in st.stack
    ensures DoneOthers(g, st', current)
  {
    forall x | x in st'.used && x !in st'.stack && x != current ensures Done(g, st', x) {
      assert Done(g, st, x);
      DoneGrows(g, st, st', x);
    }
  }

  lemma DoneSoFarGrow(st: SearchState, st': SearchState, current: Vertex, es: seq<Edge>, i: nat)
    requires DoneSoFar(st, current, es, i) && UsesGrow(st, st') && i < |es| && EdgeDone(st', current, es[i])
    ensures DoneSoFar(st', current, es, i + 1)
  {
    forall j | 0 <= j < i + 1 && j < |es| ensures EdgeDone(st', current, es[j]) {
      if j < i {
        EdgeDoneGrows(st, st', current, es[j]);
      }
    }
  }

  lemma UsedThroughStep(st: SearchState, st': SearchState, current: Vertex, es: seq<Edge>, i: nat)
    requires UsedThrough(st, current, es, i) && i < |es|
    requires forall x :: x in st'.used && current in st'.used[x] ==>
      (x in st.used && current in st.used[x]) || Links(es[i], current, x)
    ensures UsedThrough(st', current, es, i + 1)
  {
    forall x | x in st'.used && current in st'.used[x]
      ensures exists j :: 0 <= j < i + 1 && j < |es| && Links(es[j], current, x)
    {
      if !Links(es[i], current, x) {
        var j :| 0 <= j < i && j < |es| && Links(es[j], current, x);
      }
    }
  }

  /** A state with the same parents, stack and component as st keeps st's stack shape
      and roots. */
  lemma SameShape(st: SearchState, st': SearchState, below: seq<Vertex>, current: Vertex)
    requires st'.parent == st.parent && st'.stack == st.stack && st'.used.Keys == st.used.Keys
    requires LoopStack(st, below, current) && AllRooted(st)
    ensures LoopStack(st', below, current) && AllRooted(st')
  {
  }

  // ----- one edge step

  /** The state after reaching a new neighbour n from current. */
  function Reached(st: SearchState, current: Vertex, n: Vertex): SearchState
  {
    st.(parent := st.parent[n := current], used := st.used[n := {current}], stack := st.stack + [n])
  }

  /** The state after using current with the reached neighbour n. */
  function UsedWith(st: SearchState, current: Vertex, n: Vertex): SearchState
    requires n in st.used
  {
    st.(used := st.used[n := st.used[n] + {current}])
  }

  lemma ReachTree(st: SearchState, current: Vertex, n: Vertex)
    requires Tree(st) && current in st.used && n !in st.used
    ensures Tree(Reached(st, current, n)) && UsesGrow(st, Reached(st, current, n))
  {
    var st' := Reached(st, current, n);
    ReachKeepsWF(st, current, n);
    forall x | x in st'.used ensures st'.parent[x] in st'.used && (st'.parent[x] == x || st'.parent[x] in st'.used[x]) {
      if x != n {
        assert st'.parent[x] == st.parent[x] && st'.used[x] == st.used[x];
      }
    }
  }

  lemma ReachUsedPopped(st: SearchState, current: Vertex, n: Vertex)
    requires UsedPopped(st) && current in st.used && current !in st.stack && n !in st.used
    ensures UsedPopped(Reached(st, current, n))
  {
    var st' := Reached(st, current, n);
    forall x, y | x in st'.used && y in st'.used[x] ensures y in st'.used && y !in st'.stack {
      if x != n {
        assert y in st.used[x];
      }
    }
  }

  lemma ReachParents(st: SearchState, current: Vertex, n: Vertex)
    requires Tree(st) && current in st.used && n !in st.used
    ensures Closed(Reached(st, current, n).parent) && Keeps(st.parent, Reached(st, current, n).parent, st.used.Keys)
  {
    ReachKeepsWF(st, current, n);
    var parent' := Reached(st, current, n).parent;
    forall x | x in st.used.Keys ensures x in st.parent && x in parent' && parent'[x] == st.parent[x] && st.parent[x] in st.used.Keys {
      assert x != n;
    }
  }

  lemma ReachAnc(st: SearchState, below: seq<Vertex>, current: Vertex, n: Vertex)
    requires Tree(st) && LoopStack(st, below, current) && n !in st.used
    ensures forall a :: 0 <= a < |below| ==>
      Reached(st, current, n).parent[below[a]] == st.parent[below[a]] &&
      Anc(Reached(st, current, n).parent, st.parent[below[a]], current)
    ensures forall a, b :: 0 <= a < b < |below| ==>
      Anc(Reached(st, current, n).parent, st.parent[below[a]], below[b])
  {
    var st' := Reached(st, current, n);
    ReachParents(st, current, n);
    var u := st.used.Keys;
    forall a | 0 <= a < |below|
      ensures st'.parent[below[a]] == st.parent[below[a]] && Anc(st'.parent, st.parent[below[a]], current)
    {
      assert below[a] == st.stack[a];
      AncStable(st.parent, st'.parent, u, st.parent[below[a]], current);
    }
    forall a, b | 0 <= a < b < |below| ensures Anc(st'.parent, st.parent[below[a]], below[b]) {
      assert below[a] == st.stack[a] && below[b] == st.stack[b];
      AncStable(st.parent, st'.parent, u, st.parent[below[a]], below[b]);
    }
  }

  lemma ReachStack(st: SearchState, below: seq<Vertex>, current: Vertex, n: Vertex)
    requires Tree(st) && LoopStack(st, below, current) && n !in st.used
    ensures LoopStack(Reached(st, current, n), below, current)
  {
    var st' := Reached(st, current, n);
    ReachKeepsWF(st, current, n);
    ReachAnc(st, below, current, n);
    forall a | |below| <= a < |st'.stack| ensures st'.parent[st'.stack[a]] == current {
      if a < |st.stack| {
        assert st'.stack[a] == st.stack[a];
      }
    }
    assert Distinct(st'.stack) by {
      forall a, b | 0 <= a < b < |st'.stack| ensures st'.stack[a] != st'.stack[b] {
        assert st'.stack[a] == st.stack[a];
        if b < |st.stack| {
          assert st'.stack[b] == st.stack[b];
        }
      }
    }
  }

  lemma ReachRooted(st: SearchState, current: Vertex, n: Vertex)
    requires Tree(st) && AllRooted(st) && current in st.used && n !in st.used
    ensures AllRooted(Reached(st, current, n))
  {
    var st' := Reached(st, current, n);
    ReachParents(st, current, n);
    var u := st.used.Keys;
    forall x | x in st'.used ensures Rooted(st'.parent, x) {
      if x == n {
        assert Rooted(st.parent, current);
        var d: nat :| st.parent[Up(st.parent, current, d)] == Up(st.parent, current, d);
        UpStable(st.parent, st'.parent, u, current, d);
        assert Up(st'.parent, n, d + 1) == Up(st'.parent, current, d);
      } else {
        assert Rooted(st.parent, x);
        RootedStable(st.parent, st'.parent, u, x);
      }
    }
  }

  lemma ReachFrame(g: GraphData, st: SearchState, current: Vertex, cu: set<Vertex>, es: seq<Edge>, i: nat, n: Vertex)
    requires LoopFrame(g, st, current, cu, es, i) && i < |es|
    requires n == Neighbour(es[i], current) && n !in st.used
    ensures LoopFrame(g, Reached(st, current, n), current, cu, es, i + 1)
  {
    assert es[i] in g.edges && Touches(es[i], current);
    EndInUniverse(g, es[i], current);
    ReachKeepsWF(st, current, n);
    assert Reached(st, current, n).used.Keys == st.used.Keys + {n};
  }

  lemma ReachDone(g: GraphData, st: SearchState, current: Vertex, es: seq<Edge>, i: nat, n: Vertex)
    requires i < |es| && n == Neighbour(es[i], current) && n !in st.used
    requires DoneOthers(g, st, current) && DoneSoFar(st, current, es, i) && UsesGrow(st, Reached(st, current, n))
    ensures DoneOthers(g, Reached(st, current, n), current) && DoneSoFar(Reached(st, current, n), current, es, i + 1)
  {
    var st' := Reached(st, current, n);
    DoneOthersGrow(g, st, st', current);
    DoneSoFarGrow(st, st', current, es, i);
  }

  lemma ReachThrough(st: SearchState, current: Vertex, es: seq<Edge>, i: nat, n: Vertex)
    requires UsedThrough(st, current, es, i) && i < |es| && n !in st.used && Links(es[i], current, n)
    ensures UsedThrough(Reached(st, current, n), current, es, i + 1)
  {
    UsedThroughStep(st, Reached(st, current, n), current, es, i);
  }

  /** Reaching a new neighbour n through es[i] moves the loop one edge on. */
  lemma ReachOk(g: GraphData, st: SearchState, below: seq<Vertex>, current: Vertex, cu: set<Vertex>, es: seq<Edge>, i: nat, n: Vertex)
    requires Loop(g, st, below, current, cu, es, i) && i < |es|
    requires n == Neighbour(es[i], current) && n !in st.used
    ensures Loop(g, Reached(st, current, n), below, current, cu, es, i + 1)
  {
    assert es[i] in g.edges && Touches(es[i], current);
    NeighbourLinks(es[i], current);
    ReachFrame(g, st, current, cu, es, i, n);
    ReachTree(st, current, n);
    ReachUsedPopped(st, current, n);
    ReachStack(st, below, current, n);
    ReachRooted(st, current, n);
    ReachDone(g, st, current, es, i, n);
    ReachThrough(st, current, es, i, n);
  }

  lemma UseTree(st: SearchState, current: Vertex, n: Vertex)
    requires Tree(st) && n in st.used
    ensures Tree(UsedWith(st, current, n)) && UsesGrow(st, UsedWith(st, current, n))
  {
    var st' := UsedWith(st, current, n);
    assert st'.parent == st.parent && st'.used.Keys == st.used.Keys && st'.stack == st.stack;
    forall y | y in st.used ensures st.used[y] <= st'.used[y] {
    }
    forall x | x in st'.used ensures st'.parent[x] in st'.used && (st'.parent[x] == x || st'.parent[x] in st'.used[x]) {
      assert st.parent[x] in st.used && st.used[x] <= st'.used[x];
    }
  }

  lemma UsePopped(st: SearchState, current: Vertex, n: Vertex)
    requires UsedPopped(st) && n in st.used && current in st.used && current !in st.stack
    ensures UsedPopped(UsedWith(st, current, n))
  {
    var st' := UsedWith(st, current, n);
    forall x, y | x in st'.used && y in st'.used[x] ensures y in st'.used && y !in st'.stack {
      if y != current {
        assert y in st.used[x];
      }
    }
  }

  lemma UseFrame(g: GraphData, st: SearchState, below: seq<Vertex>, current: Vertex, cu: set<Vertex>, es: seq<Edge>, i: nat, n: Vertex)
    requires LoopFrame(g, st, current, cu, es, i) && i < |es| && LoopStack(st, below, current) && AllRooted(st)
    requires n in st.used && n != current
    ensures LoopFrame(g, UsedWith(st, current, n), current, cu, es, i + 1)
    ensures LoopStack(UsedWith(st, current, n), below, current) && AllRooted(UsedWith(st, current, n))
  {
    var st' := UsedWith(st, current, n);
    assert st'.used.Keys == st.used.Keys;
    SameShape(st, st', below, current);
  }

  lemma UseDone(g: GraphData, st: SearchState, current: Vertex, es: seq<Edge>, i: nat, n: Vertex)
    requires i < |es| && n == Neighbour(es[i], current) && n in st.used && current in st.used
    requires DoneOthers(g, st, current) && DoneSoFar(st, current, es, i) && UsesGrow(st, UsedWith(st, current, n))
    ensures DoneOthers(g, UsedWith(st, current, n), current) && DoneSoFar(UsedWith(st, current, n), current, es, i + 1)
  {
    var st' := UsedWith(st, current, n);
    DoneOthersGrow(g, st, st', current);
    DoneSoFarGrow(st, st', current, es, i);
  }

  lemma UseThrough(st: SearchState, current: Vertex, es: seq<Edge>, i: nat, n: Vertex)
    requires UsedThrough(st, current, es, i) && i < |es| && n in st.used && Links(es[i], current, n)
    ensures UsedThrough(UsedWith(st, current, n), current, es, i + 1)
  {
    UsedThroughStep(st, UsedWith(st, current, n), current, es, i);
  }

  /** Using current with the reached neighbour n through es[i] moves the loop one edge on. */
  lemma UseOk(g: GraphData, st: SearchState, below: seq<Vertex>, current: Vertex, cu: set<Vertex>, es: seq<Edge>, i: nat, n: Vertex)
    requires Loop(g, st, below, current, cu, es, i) && i < |es|
    requires n == Neighbour(es[i], current) && n in st.used && n != current
    ensures Loop(g, UsedWith(st, current, n), below, current, cu, es, i + 1)
  {
    assert es[i] in g.edges && Touches(es[i], current);
    NeighbourLinks(es[i], current);
    UseTree(st, current, n);
    UsePopped(st, current, n);
    UseFrame(g, st, below, current, cu, es, i, n);
    UseDone(g, st, current, es, i, n);
    UseThrough(st, current, es, i, n);
  }

  /** A step that records a cycle c keeps the loop's invariant. */
  lemma AddCycle(g: GraphData, st: SearchState, below: seq<Vertex>, current: Vertex, cu: set<Vertex>, es: seq<Edge>, i: nat, c: seq<Vertex>)
    requires Loop(g, st, below, current, cu, es, i) && NoRepeat(c)
    ensures Loop(g, st.(cycles := st.cycles + [c]), below, current, cu, es, i)
  {
    var st' := st.(cycles := st.cycles + [c]);
    assert UsesGrow(st, st');
    SameShape(st, st', below, current);
    DoneOthersGrow(g, st, st', current);
    forall j | 0 <= j < i && j < |es| ensures EdgeDone(st', current, es[j]) {
      EdgeDoneGrows(st, st', current, es[j]);
    }
  }

  /** An edge already dealt with moves the loop one edge on. */
  lemma Advance(g: GraphData, st: SearchState, below: seq<Vertex>, current: Vertex, cu: set<Vertex>, es: seq<Edge>, i: nat)
    requires Loop(g, st, below, current, cu, es, i) && i < |es| && EdgeDone(st, current, es[i])
    ensures Loop(g, st, below, current, cu, es, i + 1)
  {
    assert UsesGrow(st, st);
    DoneSoFarGrow(st, st, current, es, i);
    UsedThroughStep(st, st, current, es, i);
  }

  /** When current meets a reached neighbour n that neither has been used with the
      other, n is still on the stack under current, and the climb from current's
      parent reaches a vertex used with n: n's own parent, an ancestor of current. */
  lemma ClimbReaches(g: GraphData, st: SearchState, below: seq<Vertex>, current: Vertex, cu: set<Vertex>, es: seq<Edge>, i: nat, n: Vertex)
    requires LoopFrame(g, st, current, cu, es, i) && Tree(st) && LoopStack(st, below, current)
    requires DoneOthers(g, st, current) && i < |es|
    requires n == Neighbour(es[i], current) && n in st.used && n != current
    requires current !in st.used[n] && n !in cu
    ensures n in below
    ensures exists k: nat :: Up(st.parent, st.parent[current], k) in st.used[n]
  {
    assert es[i] in g.edges && Touches(es[i], current);
    NeighbourLinks(es[i], current);
    assert !EdgeDone(st, n, es[i]);
    assert !Done(g, st, n);
    assert n in st.stack;
    var t :| 0 <= t < |st.stack| && st.stack[t] == n;
    assert t < |below| by {
      if t >= |below| {
        assert false;
      }
    }
    assert below[t] == n;
    var k: nat :| Up(st.parent, current, k) == st.parent[n];
    assert st.parent[n] in st.used[n];
    assert k > 0;
    assert Up(st.parent, st.parent[current], k - 1) in st.used[n];
  }

  /** The cycle the climb closes in that case has no repeated vertex. */
  lemma ClimbSimple(st: SearchState, current: Vertex, n: Vertex)
    requires Tree(st) && UsedPopped(st) && AllRooted(st)
    requires current in st.used && n in st.used && n != current && n in st.stack && current !in st.used[n]
    ensures var r := ClimbFrom(st.parent, st.used[n], st.parent[current], |st.parent.Keys|, [n, current]);
      r.Some? ==> NoRepeat(r.value)
  {
    var parent, nu := st.parent, st.used[n];
    var r := ClimbFrom(parent, nu, parent[current], |parent.Keys|, [n, current]);
    if r.Some? {
      var c := r.value;
      assert Rooted(parent, current);
      ClimbShape(parent, nu, parent[current], |parent.Keys|, [n, current]);
      assert c[0] == n && c[1] == current && c[2] == parent[current];
      assert parent[current] != current by {
        if parent[current] == current {
          ClimbStuck(parent, nu, current, |parent.Keys|, [n, current]);
        }
      }
      ChainFacts(st, c, current, nu);
      forall a, b | 0 <= a < b < |c| ensures c[a] != c[b] {
        if a == 0 && b > 1 {
          assert c[b - 1] in st.used && parent[c[b - 1]] != c[b - 1];
          assert c[b] in st.used[c[b - 1]];
        } else if a > 0 && c[a] == c[b] {
          RepeatIsRoot(parent, current, a - 1, b - 1);
        }
      }
    }
  }

  /** The vertices after the neighbour in a climbed cycle are current's chain: each
      is in the component, and all but the last are not their own parent. */
  lemma ChainFacts(st: SearchState, c: seq<Vertex>, current: Vertex, nu: set<Vertex>)
    requires Tree(st) && current in st.used
    requires |c| >= 3 && c[1] == current && c[2] == st.parent[current] && st.parent[current] != current
    requires Climbed(st.parent, nu, c, 2)
    ensures forall j :: 1 <= j < |c| ==> c[j] == Up(st.parent, current, j - 1) && c[j] in st.used
    ensures forall j :: 1 <= j < |c| - 1 ==> st.parent[c[j]] != c[j] && c[j + 1] == st.parent[c[j]]
  {
    var parent := st.parent;
    forall j | 1 <= j < |c| ensures c[j] == Up(parent, current, j - 1) && c[j] in st.used {
      ChainAt(st, c, current, nu, j);
    }
    forall j | 1 <= j < |c| - 1 ensures parent[c[j]] != c[j] && c[j + 1] == parent[c[j]] {
      if j >= 2 {
        assert LinkAt(parent, nu, c, j);
      }
    }
  }

  lemma {:induction false} ChainAt(st: SearchState, c: seq<Vertex>, current: Vertex, nu: set<Vertex>, j: nat)
    requires Tree(st) && current in st.used
    requires |c| >= 3 && c[1] == current && c[2] == st.parent[current]
    requires Climbed(st.parent, nu, c, 2)
    requires 1 <= j < |c|
    ensures c[j] == Up(st.parent, current, j - 1) && c[j] in st.used
    decreases j
  {
    var parent := st.parent;
    UpStable(parent, parent, st.used.Keys, current, j - 1);
    if j >= 3 {
      ChainAt(st, c, current, nu, j - 1);
      assert LinkAt(parent, nu, c, j - 1);
      UpNext(parent, current, j - 2);
    }
  }

  /** current is used with n only through an earlier edge of the loop, so on a graph
      without parallel edges it is not used with n yet. */
  lemma NotUsedYet(g: GraphData, st: SearchState, current: Vertex, cu: set<Vertex>, es: seq<Edge>, i: nat, n: Vertex)
    requires LoopFrame(g, st, current, cu, es, i) && UsedThrough(st, current, es, i) && i < |es| && NoParallel(g.edges)
    requires n == Neighbour(es[i], current) && n in st.used && n != current
    ensures current !in st.used[n]
  {
    assert es[i] in g.edges && Touches(es[i], current);
    NeighbourLinks(es[i], current);
    EdgesAtNoParallel(g.edges, current);
    forall j | 0 <= j < i && j < |es| ensures !Links(es[j], current, n) {
      assert !Parallel(es[j], es[i]);
    }
  }

  /** A reached neighbour not used with current, with no parallel edge in the way:
      the climb closes a simple cycle. */
  lemma ClimbStepOk(g: GraphData, st: SearchState, below: seq<Vertex>, current: Vertex, cu: set<Vertex>, es: seq<Edge>, i: nat, fixParallel: bool)
    requires Loop(g, st, below, current, cu, es, i) && i < |es| && (fixParallel || NoParallel(g.edges))
    requires var n := Neighbour(es[i], current);
      n in st.used && n != current && !(fixParallel && current in st.used[n]) && n !in cu
    ensures var r := EdgeStep(g, st, current, cu, es[i], fixParallel);
      r.Success? && Loop(g, r.value, below, current, cu, es, i + 1)
  {
    var e := es[i];
    var n := Neighbour(e, current);
    if !fixParallel {
      NotUsedYet(g, st, current, cu, es, i, n);
    }
    ClimbReaches(g, st, below, current, cu, es, i, n);
    WalkDivergesMeans(g, st, current, cu, e, fixParallel);
    ClimbSimple(st, current, n);
    var cycle := ClimbFrom(st.parent, st.used[n], st.parent[current], |st.parent.Keys|, [n, current]);
    UseOk(g, st, below, current, cu, es, i, n);
    var st1 := UsedWith(st, current, n);
    AddCycle(g, st1, below, current, cu, es, i + 1, cycle.value);
    assert EdgeStep(g, st, current, cu, e, fixParallel) == Success(st1.(cycles := st1.cycles + [cycle.value]));
  }

  lemma PairNoRepeat(a: Vertex, b: Vertex)
    requires a != b
    ensures NoRepeat([a, b])
  {
  }

  lemma SingleNoRepeat(a: Vertex)
    ensures NoRepeat([a])
  {
  }

  /** A new neighbour is reached. */
  lemma ReachStepOk(g: GraphData, st: SearchState, below: seq<Vertex>, current: Vertex, cu: set<Vertex>, es: seq<Edge>, i: nat, fixParallel: bool)
    requires Loop(g, st, below, current, cu, es, i) && i < |es| && Neighbour(es[i], current) !in st.used
    ensures var r := EdgeStep(g, st, current, cu, es[i], fixParallel);
      r.Success? && Loop(g, r.value, below, current, cu, es, i + 1)
  {
    var n := Neighbour(es[i], current);
    ReachOk(g, st, below, current, cu, es, i, n);
    assert EdgeStep(g, st, current, cu, es[i], fixParallel) == Success(Reached(st, current, n));
  }

  /** A self-loop records [current]. */
  lemma SelfStepOk(g: GraphData, st: SearchState, below: seq<Vertex>, current: Vertex, cu: set<Vertex>, es: seq<Edge>, i: nat, fixParallel: bool)
    requires Loop(g, st, below, current, cu, es, i) && i < |es| && Neighbour(es[i], current) == current
    ensures var r := EdgeStep(g, st, current, cu, es[i], fixParallel);
      r.Success? && Loop(g, r.value, below, current, cu, es, i + 1)
  {
    Advance(g, st, below, current, cu, es, i);
    SingleNoRepeat(current);
    AddCycle(g, st, below, current, cu, es, i + 1, [current]);
  }

  /** The corrected search records [n, current] for a second edge to n. */
  lemma ParallelStepOk(g: GraphData, st: SearchState, below: seq<Vertex>, current: Vertex, cu: set<Vertex>, es: seq<Edge>, i: nat, fixParallel: bool)
    requires Loop(g, st, below, current, cu, es, i) && i < |es|
    requires var n := Neighbour(es[i], current);
      n in st.used && n != current && fixParallel && current in st.used[n]
    ensures var r := EdgeStep(g, st, current, cu, es[i], fixParallel);
      r.Success? && Loop(g, r.value, below, current, cu, es, i + 1)
  {
    var n := Neighbour(es[i], current);
    assert EdgeDone(st, current, es[i]);
    Advance(g, st, below, current, cu, es, i);
    PairNoRepeat(n, current);
    AddCycle(g, st, below, current, cu, es, i + 1, [n, current]);
    assert EdgeStep(g, st, current, cu, es[i], fixParallel) == Success(st.(cycles := st.cycles + [[n, current]]));
  }

  /** A neighbour current is already used with is skipped. */
  lemma SkipStepOk(g: GraphData, st: SearchState, below: seq<Vertex>, current: Vertex, cu: set<Vertex>, es: seq<Edge>, i: nat, fixParallel: bool)
    requires Loop(g, st, below, current, cu, es, i) && i < |es|
    requires var n := Neighbour(es[i], current);
      n in st.used && n != current && !(fixParallel && current in st.used[n]) && n in cu
    ensures var r := EdgeStep(g, st, current, cu, es[i], fixParallel);
      r.Success? && Loop(g, r.value, below, current, cu, es, i + 1)
  {
    Advance(g, st, below, current, cu, es, i);
  }

  /** One edge step of the corrected search, or of the search as written on a graph
      without parallel edges, succeeds and keeps the loop's invariant. */
  lemma StepOk(g: GraphData, st: SearchState, below: seq<Vertex>, current: Vertex, cu: set<Vertex>, es: seq<Edge>, i: nat, fixParallel: bool)
    requires Loop(g, st, below, current, cu, es, i) && i < |es| && (fixParallel || NoParallel(g.edges))
    ensures var r := EdgeStep(g, st, current, cu, es[i], fixParallel);
      && r.Success? && Loop(g, r.value, below, current, cu, es, i + 1)
      && EdgesFrom(g, st, current, cu, es, i, fixParallel) == EdgesFrom(g, r.value, current, cu, es, i + 1, fixParallel)
  {
    var n := Neighbour(es[i], current);
    if n !in st.used {
      ReachStepOk(g, st, below, current, cu, es, i, fixParallel);
    } else if n == current {
      SelfStepOk(g, st, below, current, cu, es, i, fixParallel);
    } else if fixParallel && current in st.used[n] {
      ParallelStepOk(g, st, below, current, cu, es, i, fixParallel);
    } else if n !in cu {
      ClimbStepOk(g, st, below, current, cu, es, i, fixParallel);
    } else {
      SkipStepOk(g, st, below, current, cu, es, i, fixParallel);
    }
    EdgesFromNext(g, st, current, cu, es, i, fixParallel);
  }

  lemma EdgesFromOk(g: GraphData, st: SearchState, below: seq<Vertex>, current: Vertex, cu: set<Vertex>, es: seq<Edge>, fixParallel: bool)
    returns (end: SearchState)
    requires Loop(g, st, below, current, cu, es, 0) && (fixParallel || NoParallel(g.edges))
    ensures EdgesFrom(g, st, current, cu, es, 0, fixParallel) == Success(end)
    ensures Loop(g, end, below, current, cu, es, |es|)
  {
    var s, j := st, 0;
    while j < |es|
      invariant j <= |es| && Loop(g, s, below, current, cu, es, j)
      invariant EdgesFrom(g, st, current, cu, es, 0, fixParallel) == EdgesFrom(g, s, current, cu, es, j, fixParallel)
      decreases |es| - j
    {
      StepOk(g, s, below, current, cu, es, j, fixParallel);
      s, j := EdgeStep(g, s, current, cu, es[j], fixParallel).value, j + 1;
    }
    end := s;
  }

  // ----- from pop to pop

  lemma PopStack(st: SearchState)
    requires DfsStack(st) && st.stack != []
    ensures var m := |st.stack| - 1;
      LoopStack(Pop(st), st.stack[..m], st.stack[m])
  {
    var m := |st.stack| - 1;
    var current, below := st.stack[m], st.stack[..m];
    var st0 := Pop(st);
    PopWF(st);
    assert current !in below;
    forall a | 0 <= a < |below|
      ensures st0.parent[below[a]] != below[a] && Anc(st0.parent, st0.parent[below[a]], current)
    {
      assert below[a] == st.stack[a];
    }
    forall a, b | 0 <= a < b < |below| ensures Anc(st0.parent, st0.parent[below[a]], below[b]) {
      assert below[a] == st.stack[a] && below[b] == st.stack[b];
    }
  }

  lemma PopTree(st: SearchState)
    requires Tree(st) && UsedPopped(st) && st.stack != []
    ensures Tree(Pop(st)) && UsedPopped(Pop(st)) && UsesGrow(st, Pop(st))
  {
    PopWF(st);
  }

  /** After the pop, every popped vertex but the top one is done, and nothing is used
      with the top one yet. */
  lemma PopDone(g: GraphData, st: SearchState)
    requires WF(st) && AllDone(g, st) && UsedPopped(st) && st.stack != []
    ensures var current := st.stack[|st.stack| - 1];
      DoneOthers(g, Pop(st), current) && UsedThrough(Pop(st), current, EdgesAt(g.edges, current), 0)
  {
    var current := st.stack[|st.stack| - 1];
    var st0 := Pop(st);
    assert UsesGrow(st, st0);
    forall x | x in st0.used && x !in st0.stack && x != current ensures Done(g, st0, x) {
      assert x !in st.stack;
      assert Done(g, st, x);
      DoneGrows(g, st, st0, x);
    }
    assert forall x :: x in st.used ==> current !in st.used[x];
  }

  /** Popping the top vertex of a walk between pops starts its edge loop. */
  lemma HeadToLoop(g: GraphData, st: SearchState)
    requires Head(g, st) && st.stack != []
    ensures var current := st.stack[|st.stack| - 1];
      Loop(g, Pop(st), st.stack[..|st.stack| - 1], current, st.used[current], EdgesAt(g.edges, current), 0)
  {
    PopWF(st);
    PopStack(st);
    PopTree(st);
    PopDone(g, st);
  }

  /** A loop's stack, once current's edges are done, is the stack of a depth-first walk. */
  lemma LoopStackDfs(st: SearchState, below: seq<Vertex>, current: Vertex)
    requires LoopStack(st, below, current)
    ensures DfsStack(st)
  {
    forall a | 0 <= a < |st.stack| - 1 ensures st.parent[st.stack[a]] != st.stack[a] {
      if a < |below| {
        assert below[a] == st.stack[a];
      }
    }
    forall a, b | 0 <= a < b < |st.stack| ensures Anc(st.parent, st.parent[st.stack[a]], st.stack[b]) {
      var sa, sb := st.stack[a], st.stack[b];
      if b < |below| {
        assert below[a] == sa && below[b] == sb;
      } else if a < |below| {
        assert below[a] == sa;
        var k: nat :| Up(st.parent, current, k) == st.parent[sa];
        assert Up(st.parent, sb, k + 1) == Up(st.parent, current, k);
      } else {
        assert Up(st.parent, sb, 1) == current;
      }
    }
  }

  /** All of current's edges dealt with: current is done. */
  lemma CurrentDone(g: GraphData, st: SearchState, current: Vertex, es: seq<Edge>)
    requires es == EdgesAt(g.edges, current) && DoneSoFar(st, current, es, |es|)
    ensures Done(g, st, current)
  {
    forall e | e in g.edges && Touches(e, current) ensures EdgeDone(st, current, e) {
      assert e in es;
      var j :| 0 <= j < |es| && es[j] == e;
    }
  }

  /** An edge loop that has dealt with all of current's edges leaves a walk between pops. */
  lemma LoopToHead(g: GraphData, st: SearchState, below: seq<Vertex>, current: Vertex, cu: set<Vertex>, es: seq<Edge>)
    requires Loop(g, st, below, current, cu, es, |es|)
    ensures Head(g, st)
  {
    LoopStackDfs(st, below, current);
    CurrentDone(g, st, current, es);
    forall x | x in st.used && x !in st.stack ensures Done(g, st, x) {
      if x != current {
        assert Done(g, st, x);
      }
    }
  }

  lemma PopStepOk(g: GraphData, st: SearchState, fixParallel: bool)
    requires Head(g, st) && st.stack != [] && (fixParallel || NoParallel(g.edges))
    ensures var r := PopStep(g, st, fixParallel); r.Success? && Head(g, r.value)
  {
    var current := st.stack[|st.stack| - 1];
    var below, es := st.stack[..|st.stack| - 1], EdgesAt(g.edges, current);
    HeadToLoop(g, st);
    var end := EdgesFromOk(g, Pop(st), below, current, st.used[current], es, fixParallel);
    LoopToHead(g, end, below, current, st.used[current], es);
  }

  lemma {:induction false} DrainOk(g: GraphData, st: SearchState, fixParallel: bool)
    requires Head(g, st) && (fixParallel || NoParallel(g.edges))
    ensures var r := Drain(g, st, fixParallel);
      r.Success? && WF(r.value) && r.value.stack == [] && AllSimple(r.value.cycles)
    decreases |Universe(g) - st.used.Keys|, |st.stack|
  {
    if st.stack != [] {
      PopStepOk(g, st, fixParallel);
      var r1 := PopStep(g, st, fixParallel);
      PopShrinks(g, st, r1.value);
      assert Drain(g, st, fixParallel) == Drain(g, r1.value, fixParallel);
      DrainOk(g, r1.value, fixParallel);
    }
  }

  /** A new component's walk starts between pops. */
  lemma FreshHead(g: GraphData, st: SearchState, root: Vertex)
    requires WF(st) && st.stack == [] && root in g.vertices && AllSimple(st.cycles)
    ensures Head(g, Fresh(st, root))
  {
    var st' := Fresh(st, root);
    FreshWF(g, st, root);
    assert st'.used.Keys == {root} && st'.stack == [root] && st'.parent[root] == root;
    assert Tree(st');
    assert DfsStack(st');
    assert Up(st'.parent, root, 0) == root;
    assert Rooted(st'.parent, root);
  }

  lemma {:induction false} ComponentsOk(g: GraphData, vs: seq<Vertex>, st: SearchState, fixParallel: bool)
    requires WF(st) && st.stack == [] && (forall v :: v in vs ==> v in g.vertices)
    requires AllSimple(st.cycles) && (fixParallel || NoParallel(g.edges))
    ensures var r := Components(g, vs, st, fixParallel); r.Success? && AllSimple(r.value.cycles)
    decreases |vs|
  {
    if vs != [] {
      var root := vs[0];
      if root in st.parent {
        ComponentsOk(g, vs[1..], st, fixParallel);
        assert Components(g, vs, st, fixParallel) == Components(g, vs[1..], st, fixParallel);
      } else {
        FreshWF(g, st, root);
        FreshHead(g, st, root);
        DrainOk(g, Fresh(st, root), fixParallel);
        var r1 := Drain(g, Fresh(st, root), fixParallel);
        ComponentsOk(g, vs[1..], r1.value, fixParallel);
        assert Components(g, vs, st, fixParallel) == Components(g, vs[1..], r1.value, fixParallel);
      }
    }
  }

  /** The corrected findSimpleCycles always returns, and every cycle it reports is a
      simple cycle of the graph: a closed walk with no repeated vertex. */
  lemma CorrectedSearchTerminates(g: GraphData)
    ensures CyclesOf(Some(g), true).Success?
    ensures forall c :: c in CyclesOf(Some(g), true).value ==> ClosedWalk(g.edges, c) && NoRepeat(c)
  {
    ComponentsOk(g, g.vertices, SearchState(map[], map[], [], []), true);
    CyclesCorrected(Some(g));
  }

  /** findSimpleCycles as written returns on every graph without parallel edges, and
      every cycle it reports there is a simple cycle of the graph. */
  lemma AsWrittenTerminatesWithoutParallel(g: GraphData)
    requires NoParallel(g.edges)
    ensures CyclesOf(Some(g), false).Success?
    ensures forall c :: c in CyclesOf(Some(g), false).value ==> ClosedWalk(g.edges, c) && NoRepeat(c)
  {
    ComponentsOk(g, g.vertices, SearchState(map[], map[], [], []), false);
    SearchMeaning(Some(g), false);
    forall c | c in CyclesOf(Some(g), false).value ensures ClosedWalk(g.edges, c) {
      assert CycleOk(g.edges, c, false);
      assert !RootRepeated(g.edges, c) by {
        assert NoRepeat(c);
      }
    }
  }

  // ----- every self-loop at a searched vertex is reported

  /** Every vertex that has been searched and taken off the stack has its self-loop, if
      it has one, reported as the one-vertex cycle. */
  ghost predicate LoopsRecorded(g: GraphData, st: SearchState)
  {
    forall x :: x in st.parent && x !in st.stack && SelfLoop(g.edges, x) ==> [x] in st.cycles
  }

  /** What an edge loop keeps: cycles and the stack only grow, and every vertex given a
      parent is pushed. */
  ghost predicate Pushes(st: SearchState, st': SearchState)
  {
    && st.cycles <= st'.cycles && st.stack <= st'.stack
    && forall x :: x in st'.parent && x !in st.parent ==> x in st'.stack
  }

  lemma PushesTrans(a: SearchState, b: SearchState, c: SearchState)
    requires Pushes(a, b) && Pushes(b, c)
    ensures Pushes(a, c)
  {
    PrefixTrans(a.cycles, b.cycles, c.cycles);
    PrefixTrans(a.stack, b.stack, c.stack);
    forall x | x in c.parent && x !in a.parent ensures x in c.stack {
      if x in b.parent {
        assert x in b.stack;
        var k :| 0 <= k < |b.stack| && b.stack[k] == x;
        assert c.stack[k] == x;
      }
    }
  }

  /** One edge keeps Pushes, and a self-loop at current records [current]. */
  lemma EdgeStepLoops(g: GraphData, st: SearchState, current: Vertex, cu: set<Vertex>, e: Edge, fixParallel: bool)
    requires WF(st) && current in st.used
    ensures var r := EdgeStep(g, st, current, cu, e, fixParallel);
      r.Success? ==> Pushes(st, r.value) && (e.origin == current && e.destination == current ==> [current] in r.value.cycles)
  {
    var n := Neighbour(e, current);
    if n !in st.used {
      assert st.stack <= st.stack + [n];
    }
  }

  lemma InPrefix<T>(a: seq<T>, b: seq<T>, x: T)
    requires a <= b && x in a
    ensures x in b
  {
    var k :| 0 <= k < |a| && a[k] == x;
    assert b[k] == x;
  }

  /** One of the first j edges of es is a self-loop at v. */
  ghost predicate LoopAmong(es: seq<Edge>, v: Vertex, j: nat)
  {
    exists k :: 0 <= k < j && k < |es| && es[k].origin == v && es[k].destination == v
  }

  /** One more successful step of current's edge loop keeps what the loop knows. */
  lemma LoopsStep(g: GraphData, st: SearchState, s: SearchState, current: Vertex, cu: set<Vertex>, es: seq<Edge>, j: nat, fixParallel: bool)
    requires WF(s) && current in s.used && s.used.Keys <= Universe(g) && j < |es| && es[j] in g.edges
    requires Pushes(st, s) && (LoopAmong(es, current, j) ==> [current] in s.cycles)
    requires EdgeStep(g, s, current, cu, es[j], fixParallel).Success?
    ensures var s' := EdgeStep(g, s, current, cu, es[j], fixParallel).value;
      && WF(s') && current in s'.used && s'.used.Keys <= Universe(g)
      && Pushes(st, s') && (LoopAmong(es, current, j + 1) ==> [current] in s'.cycles)
  {
    EdgeStepGrows(g, s, current, cu, es[j], fixParallel);
    EdgeStepLoops(g, s, current, cu, es[j], fixParallel);
    var s' := EdgeStep(g, s, current, cu, es[j], fixParallel).value;
    PushesTrans(st, s, s');
    if LoopAmong(es, current, j) {
      InPrefix(s.cycles, s'.cycles, [current]);
    }
  }

  /** current's edge loop keeps Pushes, and records [current] when one of its edges is
      a self-loop at current. */
  lemma EdgesFromLoops(g: GraphData, st: SearchState, current: Vertex, cu: set<Vertex>, es: seq<Edge>, fixParallel: bool)
    requires WF(st) && current in st.used && st.used.Keys <= Universe(g)
    requires forall e :: e in es ==> e in g.edges
    ensures var r := EdgesFrom(g, st, current, cu, es, 0, fixParallel);
      r.Success? ==> Pushes(st, r.value) && (LoopAmong(es, current, |es|) ==> [current] in r.value.cycles)
  {
    var s, j := st, 0;
    assert st.cycles <= st.cycles && st.stack <= st.stack;
    while j < |es| && EdgeStep(g, s, current, cu, es[j], fixParallel).Success?
      invariant j <= |es| && WF(s) && current in s.used && s.used.Keys <= Universe(g)
      invariant EdgesFrom(g, st, current, cu, es, 0, fixParallel) == EdgesFrom(g, s, current, cu, es, j, fixParallel)
      invariant Pushes(st, s)
      invariant LoopAmong(es, current, j) ==> [current] in s.cycles
      decreases |es| - j
    {
      LoopsStep(g, st, s, current, cu, es, j, fixParallel);
      EdgesFromNext(g, s, current, cu, es, j, fixParallel);
      s, j := EdgeStep(g, s, current, cu, es[j], fixParallel).value, j + 1;
    }
  }

  /** A self-loop at v is in v's edge list. */
  lemma SelfLoopAt(g: GraphData, v: Vertex)
    requires SelfLoop(g.edges, v)
    ensures var es := EdgesAt(g.edges, v); LoopAmong(es, v, |es|)
  {
    var e :| e in g.edges && e.origin == v && e.destination == v;
    var es := EdgesAt(g.edges, v);
    assert e in es;
    var k :| 0 <= k < |es| && es[k] == e;
  }

  /** Popping current and taking its edges, with its self-loop recorded, keeps
      LoopsRecorded. */
  lemma PushedLoops(g: GraphData, st: SearchState, end: SearchState)
    requires st.stack != [] && LoopsRecorded(g, st) && Pushes(Pop(st), end)
    requires var current := st.stack[|st.stack| - 1]; SelfLoop(g.edges, current) ==> [current] in end.cycles
    ensures LoopsRecorded(g, end)
  {
    var current := st.stack[|st.stack| - 1];
    forall x | x in end.parent && x !in end.stack && SelfLoop(g.edges, x) ensures [x] in end.cycles {
      assert x in st.parent;
      if x != current {
        assert x !in Pop(st).stack by {
          if x in Pop(st).stack {
            InPrefix(Pop(st).stack, end.stack, x);
          }
        }
        assert x !in st.stack by {
          assert st.stack == Pop(st).stack + [current];
        }
        InPrefix(st.cycles, end.cycles, [x]);
      }
    }
  }

  lemma PopStepLoops(g: GraphData, st: SearchState, fixParallel: bool)
    requires WF(st) && st.used.Keys <= Universe(g) && st.stack != [] && LoopsRecorded(g, st)
    ensures var r := PopStep(g, st, fixParallel); r.Success? ==> LoopsRecorded(g, r.value)
  {
    var current := st.stack[|st.stack| - 1];
    var es := EdgesAt(g.edges, current);
    PopWF(st);
    EdgesFromLoops(g, Pop(st), current, st.used[current], es, fixParallel);
    var r := PopStep(g, st, fixParallel);
    if r.Success? {
      if SelfLoop(g.edges, current) {
        SelfLoopAt(g, current);
      }
      PushedLoops(g, st, r.value);
    }
  }

  lemma {:induction false} DrainLoops(g: GraphData, st: SearchState, fixParallel: bool)
    requires WF(st) && st.used.Keys <= Universe(g) && LoopsRecorded(g, st)
    ensures var r := Drain(g, st, fixParallel); r.Success? ==> LoopsRecorded(g, r.value)
    decreases |Universe(g) - st.used.Keys|, |st.stack|
  {
    if st.stack != [] {
      PopStepLoops(g, st, fixParallel);
      var r1 := PopStep(g, st, fixParallel);
      if r1.Success? {
        PopShrinks(g, st, r1.value);
        assert Drain(g, st, fixParallel) == Drain(g, r1.value, fixParallel);
        DrainLoops(g, r1.value, fixParallel);
      }
    }
  }

  lemma {:induction false} ComponentsLoops(g: GraphData, vs: seq<Vertex>, st: SearchState, fixParallel: bool)
    requires WF(st) && st.stack == [] && (forall v :: v in vs ==> v in g.vertices) && LoopsRecorded(g, st)
    ensures var r := Components(g, vs, st, fixParallel); r.Success? ==> LoopsRecorded(g, r.value)
    decreases |vs|
  {
    if vs != [] {
      var root := vs[0];
      if root in st.parent {
        ComponentsLoops(g, vs[1..], st, fixParallel);
        assert Components(g, vs, st, fixParallel) == Components(g, vs[1..], st, fixParallel);
      } else {
        FreshWF(g, st, root);
        DrainSettles(g, Fresh(st, root), fixParallel);
        DrainLoops(g, Fresh(st, root), fixParallel);
        var r1 := Drain(g, Fresh(st, root), fixParallel);
        if r1.Success? {
          ComponentsLoops(g, vs[1..], r1.value, fixParallel);
          assert Components(g, vs, st, fixParallel) == Components(g, vs[1..], r1.value, fixParallel);
        }
      }
    }
  }

  /** findSimpleCycles, whenever it returns, reports the one-vertex cycle [v] for a vertex
      v of the graph exactly when the graph has a self-loop at v. */
  lemma SelfLoopsReported(g: GraphData, fixParallel: bool)
    ensures var r := CyclesOf(Some(g), fixParallel);
      r.Success? ==> forall v :: v in g.vertices ==> ([v] in r.value <==> SelfLoop(g.edges, v))
  {
    var empty := SearchState(map[], map[], [], []);
    ComponentsLoops(g, g.vertices, empty, fixParallel);
    SearchMeaning(Some(g), fixParallel);
    var r := CyclesOf(Some(g), fixParallel);
    if r.Success? {
      forall v | v in g.vertices && [v] in r.value ensures SelfLoop(g.edges, v) {
        assert CycleOk(g.edges, [v], fixParallel);
        assert Joined(g.edges, v, v);
      }
    }
  }
}
