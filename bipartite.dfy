/** The bipartiteness test (src/graph/algorithms/bipartite/Bipartite.java).

    A depth-first search colours every vertex it reaches with one of two colours,
    giving a newly reached neighbour the opposite colour of the vertex it was reached
    from, and records a failure when an edge joins two already coloured vertices of
    the same colour. Vertices and edges are compared by value. The colour map holds
    `Boolean` objects compared with `==`; autoboxing yields the two canonical objects,
    so that comparison is a comparison of values.

    Beside the Java state the class keeps, as ghost state, the root of the search tree
    each vertex was reached in; the proofs use it to show that a failure means no
    2-colouring exists. The quantified parts of the search invariant are stated through
    per-vertex predicates that serve as their triggers, so that they are used only
    where a proof names them. */
module Bipartiteness {
  import opened GraphElements

  /** The vertices joined to x by an edge (x itself for a self-loop). */
  ghost function Neighbours(edges: seq<Edge>, x: Vertex): set<Vertex>
  {
    if edges == [] then {}
    else
      (if edges[0].origin == x || edges[0].destination == x then {FarEnd(edges[0], x)} else {})
      + Neighbours(edges[1..], x)
  }

  /** y is a neighbour of x exactly when some edge at x has y as its far end. */
  lemma {:induction false} NeighbourEdge(edges: seq<Edge>, x: Vertex, y: Vertex)
    ensures y in Neighbours(edges, x) <==>
      exists e :: e in edges && (e.origin == x || e.destination == x) && FarEnd(e, x) == y
  {
    if edges != [] {
      NeighbourEdge(edges[1..], x, y);
      assert edges == [edges[0]] + edges[1..];
    }
  }

  /** Being joined by an edge is symmetric. */
  lemma NeighboursSymmetric(edges: seq<Edge>, x: Vertex, y: Vertex)
    requires y in Neighbours(edges, x)
    ensures x in Neighbours(edges, y)
  {
    NeighbourEdge(edges, x, y);
    var e :| e in edges && (e.origin == x || e.destination == x) && FarEnd(e, x) == y;
    assert FarEnd(e, y) == x;
    NeighbourEdge(edges, y, x);
  }

  /** Every vertex the search can reach: the listed vertices and the edges' endpoints. */
  ghost function Universe(g: GraphData): set<Vertex>
  {
    (set v | v in g.vertices) + (set e | e in g.edges :: e.origin) + (set e | e in g.edges :: e.destination)
  }

  /** The far end of an edge at x is a neighbour of x. */
  lemma NeighbourOfEdge(edges: seq<Edge>, e: Edge, x: Vertex)
    requires e in edges && (e.origin == x || e.destination == x)
    ensures FarEnd(e, x) in Neighbours(edges, x)
  {
    NeighbourEdge(edges, x, FarEnd(e, x));
  }

  /** Every neighbour of v is the far end of one of the edges allEdges(v) lists. */
  lemma AllNeighboursSeen(edges: seq<Edge>, v: Vertex, marked: seq<Vertex>, colour: map<Vertex, bool>,
    cv: bool, isBipartite: bool)
    requires Seen(EdgesAt(edges, v), v, marked, colour, cv, isBipartite, |EdgesAt(edges, v)|)
    ensures forall y :: y in Neighbours(edges, v) ==> y in marked && (isBipartite ==> y in colour && cv != colour[y])
  {
    var es := EdgesAt(edges, v);
    forall y | y in Neighbours(edges, v) ensures y in marked && (isBipartite ==> y in colour && cv != colour[y]) {
      NeighbourEdge(edges, v, y);
      var e :| e in edges && (e.origin == v || e.destination == v) && FarEnd(e, v) == y;
      var j :| 0 <= j < |es| && es[j] == e;
      assert SeenAt(es, v, marked, colour, cv, isBipartite, j);
    }
  }

  /** An edge's ends lie in the universe. */
  lemma NeighbourInUniverse(g: GraphData, x: Vertex, y: Vertex)
    requires y in Neighbours(g.edges, x)
    ensures y in Universe(g)
  {
    NeighbourEdge(g.edges, x, y);
    var e :| e in g.edges && (e.origin == x || e.destination == x) && FarEnd(e, x) == y;
  }

  /** A proper 2-colouring: every edge joins vertices of different colours. */
  ghost predicate Proper(edges: seq<Edge>, c: Vertex -> bool)
  {
    forall e :: e in edges ==> c(e.origin) != c(e.destination)
  }

  ghost predicate TwoColourable(edges: seq<Edge>)
  {
    exists c: Vertex -> bool :: Proper(edges, c)
  }

  /** A proper colouring separates the ends of an edge. */
  lemma ProperSeparates(edges: seq<Edge>, c: Vertex -> bool, x: Vertex, y: Vertex)
    requires Proper(edges, c) && y in Neighbours(edges, x)
    ensures c(x) != c(y)
  {
    NeighbourEdge(edges, x, y);
    var e :| e in edges && (e.origin == x || e.destination == x) && FarEnd(e, x) == y;
    assert c(e.origin) != c(e.destination);
  }

  /** A colouring that differs across every edge is a proper 2-colouring. */
  lemma ColouringWitness(edges: seq<Edge>, colour: map<Vertex, bool>)
    requires forall e :: e in edges ==>
      e.origin in colour && e.destination in colour && colour[e.origin] != colour[e.destination]
    ensures TwoColourable(edges)
  {
    var c := (x: Vertex) => if x in colour then colour[x] else false;
    assert Proper(edges, c);
  }

  /** A vertex of xs is coloured and has a root. */
  ghost predicate RootedAt(colour: map<Vertex, bool>, root: map<Vertex, Vertex>, xs: seq<Vertex>, x: Vertex)
  {
    x in xs ==> x in colour && x in root
  }

  /** Every root is coloured true, so under a 2-colouring c, a vertex x of xs is coloured
      true exactly when c gives it its root's colour. */
  ghost predicate AgreesAt(colour: map<Vertex, bool>, root: map<Vertex, Vertex>, c: Vertex -> bool,
    xs: seq<Vertex>, x: Vertex)
  {
    x in xs && x in colour && x in root ==> colour[x] == (c(x) == c(root[x]))
  }

  /** The search's colouring of xs agrees with every proper 2-colouring on each tree, up
      to one flip per tree. */
  ghost predicate Agree(edges: seq<Edge>, colour: map<Vertex, bool>, root: map<Vertex, Vertex>, xs: seq<Vertex>)
  {
    && (forall x {:trigger RootedAt(colour, root, xs, x)} :: RootedAt(colour, root, xs, x))
    && (forall c: Vertex -> bool, x {:trigger AgreesAt(colour, root, c, xs, x)} ::
          Proper(edges, c) ==> AgreesAt(colour, root, c, xs, x))
  }

  /** Two neighbours coloured alike in the same tree rule out every proper 2-colouring. */
  lemma ConflictNotColourable(edges: seq<Edge>, colour: map<Vertex, bool>, root: map<Vertex, Vertex>,
    xs: seq<Vertex>, x: Vertex, y: Vertex)
    requires Agree(edges, colour, root, xs) && x in xs && y in xs
    requires y in Neighbours(edges, x) && x in root && y in root && root[x] == root[y]
    requires x in colour && y in colour && colour[x] == colour[y]
    ensures !TwoColourable(edges)
  {
    forall c: Vertex -> bool | Proper(edges, c) ensures false {
      assert AgreesAt(colour, root, c, xs, x) && AgreesAt(colour, root, c, xs, y);
      ProperSeparates(edges, c, x, y);
    }
  }

  /** A reached vertex lies in the universe and has a root. */
  ghost predicate ReachedAt(g: GraphData, marked: seq<Vertex>, root: map<Vertex, Vertex>, x: Vertex)
  {
    x in marked ==> x in Universe(g) && x in root
  }

  ghost predicate Reached(g: GraphData, marked: seq<Vertex>, root: map<Vertex, Vertex>)
  {
    && NoDuplicates(marked)
    && forall x {:trigger ReachedAt(g, marked, root, x)} :: ReachedAt(g, marked, root, x)
  }

  /** Reached neighbours share a root. */
  ghost predicate SameRootAt(edges: seq<Edge>, marked: seq<Vertex>, root: map<Vertex, Vertex>, x: Vertex, y: Vertex)
  {
    x in marked && x in root && y in marked && y in root && y in Neighbours(edges, x) ==> root[x] == root[y]
  }

  ghost predicate SameRoots(edges: seq<Edge>, marked: seq<Vertex>, root: map<Vertex, Vertex>)
  {
    forall x, y {:trigger SameRootAt(edges, marked, root, x, y)} :: SameRootAt(edges, marked, root, x, y)
  }

  /** A vertex whose search is running is reached. */
  ghost predicate StackedAt(marked: seq<Vertex>, stack: seq<Vertex>, x: Vertex)
  {
    x in stack ==> x in marked
  }

  /** A reached vertex whose search is over has its neighbours reached. */
  ghost predicate ClosedAt(edges: seq<Edge>, marked: seq<Vertex>, stack: seq<Vertex>, x: Vertex, y: Vertex)
  {
    x in marked && x !in stack && y in Neighbours(edges, x) ==> y in marked
  }

  ghost predicate Closed(edges: seq<Edge>, marked: seq<Vertex>, stack: seq<Vertex>)
  {
    && (forall x {:trigger StackedAt(marked, stack, x)} :: StackedAt(marked, stack, x))
    && (forall x, y {:trigger ClosedAt(edges, marked, stack, x, y)} :: ClosedAt(edges, marked, stack, x, y))
  }

  /** A reached vertex whose search is over differs in colour from its neighbours. */
  ghost predicate DifferAt(edges: seq<Edge>, marked: seq<Vertex>, colour: map<Vertex, bool>, stack: seq<Vertex>,
    x: Vertex, y: Vertex)
  {
    x in marked && x !in stack && x in colour && y in colour && y in Neighbours(edges, x) ==> colour[x] != colour[y]
  }

  ghost predicate Differ(edges: seq<Edge>, marked: seq<Vertex>, colour: map<Vertex, bool>, stack: seq<Vertex>)
  {
    forall x, y {:trigger DifferAt(edges, marked, colour, stack, x, y)} :: DifferAt(edges, marked, colour, stack, x, y)
  }

  /** Two reached neighbours of one colour. */
  ghost predicate Conflict(edges: seq<Edge>, marked: seq<Vertex>, colour: map<Vertex, bool>, x: Vertex, y: Vertex)
  {
    x in marked && y in marked && x in colour && y in colour && y in Neighbours(edges, x) && colour[x] == colour[y]
  }

  ghost predicate Witness(edges: seq<Edge>, marked: seq<Vertex>, colour: map<Vertex, bool>)
  {
    exists x, y {:trigger Conflict(edges, marked, colour, x, y)} :: Conflict(edges, marked, colour, x, y)
  }

  /** The search state between steps, with `stack` the vertices whose search is still
      running: every reached vertex, reached once, lies in the universe and is coloured in
      agreement with every proper 2-colouring; reached neighbours share a root; finished
      vertices have their neighbours reached and, while no failure was recorded, coloured
      otherwise; a recorded failure has a witness. */
  ghost predicate Inv(g: GraphData, marked: seq<Vertex>, colour: map<Vertex, bool>, root: map<Vertex, Vertex>,
    isBipartite: bool, stack: seq<Vertex>)
  {
    && Reached(g, marked, root)
    && Agree(g.edges, colour, root, marked)
    && SameRoots(g.edges, marked, root)
    && Closed(g.edges, marked, stack)
    && (isBipartite ==> Differ(g.edges, marked, colour, stack))
    && (!isBipartite ==> Witness(g.edges, marked, colour))
  }

  /** A recorded failure rules out every proper 2-colouring. */
  lemma FailureNotColourable(g: GraphData, marked: seq<Vertex>, colour: map<Vertex, bool>, root: map<Vertex, Vertex>,
    stack: seq<Vertex>)
    requires Inv(g, marked, colour, root, false, stack)
    ensures !TwoColourable(g.edges)
  {
    var x, y :| Conflict(g.edges, marked, colour, x, y);
    assert ReachedAt(g, marked, root, x) && ReachedAt(g, marked, root, y);
    assert SameRootAt(g.edges, marked, root, x, y);
    ConflictNotColourable(g.edges, colour, root, marked, x, y);
  }

  /** Sizes of nested sets. */
  lemma SubsetSize<T>(a: set<T>, b: set<T>)
    requires a <= b
    ensures |a| <= |b|
  {
    assert b == a + (b - a) && a * (b - a) == {};
  }

  /** The reached vertices, without repeats inside the universe, are fewer than its
      size while one of its vertices is not reached. */
  lemma MarkedBound(g: GraphData, marked: seq<Vertex>, root: map<Vertex, Vertex>, v: Vertex)
    requires Reached(g, marked, root) && v !in marked && v in Universe(g)
    ensures |marked| < |Universe(g)|
  {
    forall x | x in marked ensures x in Universe(g) {
      assert ReachedAt(g, marked, root, x);
    }
    DistinctCount(marked);
    var m := set x | x in marked;
    SubsetSize(m + {v}, Universe(g));
    assert |m + {v}| == |m| + 1;
  }

  /** Appending a new element keeps a list free of repeats. */
  lemma NoDuplicatesAppend<T>(s: seq<T>, v: T)
    requires NoDuplicates(s) && v !in s
    ensures NoDuplicates(s + [v])
  {
    var m := s + [v];
    forall i, j | 0 <= i < j < |m| ensures m[i] != m[j] {
      if j == |s| {
        assert m[i] == s[i];
      } else {
        assert m[i] == s[i] && m[j] == s[j];
      }
    }
  }

  /** Starting a new tree at an unreached, uncoloured v: v becomes its own root, coloured
      true, and agrees with every proper colouring. */
  lemma RootStep(g: GraphData, marked: seq<Vertex>, colour: map<Vertex, bool>, root: map<Vertex, Vertex>,
    isBipartite: bool, stack: seq<Vertex>, v: Vertex)
    requires Inv(g, marked, colour, root, isBipartite, stack) && v !in marked && v !in colour
    ensures var colour', root' := colour[v := true], root[v := v];
      && Inv(g, marked, colour', root', isBipartite, stack)
      && Agree(g.edges, colour', root', marked + [v])
  {
    var colour', root' := colour[v := true], root[v := v];
    var m := marked + [v];
    forall x ensures ReachedAt(g, marked, root', x) {
      assert ReachedAt(g, marked, root, x);
    }
    forall x ensures RootedAt(colour', root', marked, x) && RootedAt(colour', root', m, x) {
      assert RootedAt(colour, root, marked, x);
    }
    forall c: Vertex -> bool, x | Proper(g.edges, c)
      ensures AgreesAt(colour', root', c, marked, x) && AgreesAt(colour', root', c, m, x)
    {
      assert AgreesAt(colour, root, c, marked, x) && RootedAt(colour, root, marked, x);
    }
    forall x, y ensures SameRootAt(g.edges, marked, root', x, y) {
      assert SameRootAt(g.edges, marked, root, x, y);
    }
    if isBipartite {
      forall x, y ensures DifferAt(g.edges, marked, colour', stack, x, y) {
        assert ClosedAt(g.edges, marked, stack, x, y);
        assert DifferAt(g.edges, marked, colour, stack, x, y);
        assert RootedAt(colour, root, marked, x) && RootedAt(colour, root, marked, y);
      }
    } else {
      var x, y :| Conflict(g.edges, marked, colour, x, y);
      assert Conflict(g.edges, marked, colour', x, y);
    }
  }

  /** Marking v, whose colour agrees with every proper colouring and whose root is the
      root of the vertices on the stack, keeps the state valid with v on the stack. */
  lemma MarkStep(g: GraphData, marked: seq<Vertex>, colour: map<Vertex, bool>, root: map<Vertex, Vertex>,
    isBipartite: bool, stack: seq<Vertex>, v: Vertex)
    requires Inv(g, marked, colour, root, isBipartite, stack)
    requires v !in marked && v in Universe(g) && Agree(g.edges, colour, root, marked + [v])
    requires v in root && CommonRoot(root, stack, root[v])
    ensures Inv(g, marked + [v], colour, root, isBipartite, stack + [v])
  {
    var m := marked + [v];
    NoDuplicatesAppend(marked, v);
    forall x ensures ReachedAt(g, m, root, x) {
      assert ReachedAt(g, marked, root, x);
    }
    forall x, y ensures SameRootAt(g.edges, m, root, x, y) {
      if x in m && x in root && y in m && y in root && y in Neighbours(g.edges, x) {
        if x in marked && y in marked {
          assert SameRootAt(g.edges, marked, root, x, y);
        } else if x in marked {
          assert ClosedAt(g.edges, marked, stack, x, y);
          assert RootOn(root, stack, root[v], x);
        } else if y in marked {
          NeighboursSymmetric(g.edges, x, y);
          assert ClosedAt(g.edges, marked, stack, y, x);
          assert RootOn(root, stack, root[v], y);
        }
      }
    }
    forall x ensures StackedAt(m, stack + [v], x) {
      assert StackedAt(marked, stack, x);
    }
    forall x, y ensures ClosedAt(g.edges, m, stack + [v], x, y) {
      assert ClosedAt(g.edges, marked, stack, x, y);
    }
    if isBipartite {
      forall x, y ensures DifferAt(g.edges, m, colour, stack + [v], x, y) {
        assert DifferAt(g.edges, marked, colour, stack, x, y);
      }
    } else {
      var x, y :| Conflict(g.edges, marked, colour, x, y);
      assert Conflict(g.edges, m, colour, x, y);
    }
  }

  /** Colouring an unreached neighbour of v the other way and putting it in v's tree keeps
      the state valid, and its colour agrees with every proper colouring. */
  lemma ChildStep(g: GraphData, marked: seq<Vertex>, colour: map<Vertex, bool>, root: map<Vertex, Vertex>,
    isBipartite: bool, stack: seq<Vertex>, v: Vertex, other: Vertex)
    requires Inv(g, marked, colour, root, isBipartite, stack)
    requires v in marked && v in colour && v in root && other !in marked && other in Neighbours(g.edges, v)
    ensures var colour', root' := colour[other := !colour[v]], root[other := root[v]];
      && Inv(g, marked, colour', root', isBipartite, stack)
      && Agree(g.edges, colour', root', marked + [other])
  {
    var colour', root' := colour[other := !colour[v]], root[other := root[v]];
    var m := marked + [other];
    assert RootedAt(colour, root, marked, v);
    forall x ensures ReachedAt(g, marked, root', x) {
      assert ReachedAt(g, marked, root, x);
    }
    forall x ensures RootedAt(colour', root', marked, x) && RootedAt(colour', root', m, x) {
      assert RootedAt(colour, root, marked, x);
    }
    forall c: Vertex -> bool, x | Proper(g.edges, c)
      ensures AgreesAt(colour', root', c, marked, x) && AgreesAt(colour', root', c, m, x)
    {
      if x == other {
        assert AgreesAt(colour, root, c, marked, v);
        ProperSeparates(g.edges, c, v, other);
      } else {
        assert AgreesAt(colour, root, c, marked, x) && RootedAt(colour, root, marked, x);
      }
    }
    forall x, y ensures SameRootAt(g.edges, marked, root', x, y) {
      assert SameRootAt(g.edges, marked, root, x, y);
    }
    if isBipartite {
      forall x, y ensures DifferAt(g.edges, marked, colour', stack, x, y) {
        assert ClosedAt(g.edges, marked, stack, x, y);
        assert DifferAt(g.edges, marked, colour, stack, x, y);
        assert RootedAt(colour, root, marked, x) && RootedAt(colour, root, marked, y);
      }
    } else {
      var x, y :| Conflict(g.edges, marked, colour, x, y);
      assert Conflict(g.edges, marked, colour', x, y);
    }
  }

  /** Finding a reached neighbour of v with v's colour records a witness of failure. */
  lemma ConflictStep(g: GraphData, marked: seq<Vertex>, colour: map<Vertex, bool>, root: map<Vertex, Vertex>,
    isBipartite: bool, stack: seq<Vertex>, v: Vertex, other: Vertex)
    requires Inv(g, marked, colour, root, isBipartite, stack)
    requires v in marked && other in marked && other in Neighbours(g.edges, v)
    requires v in colour && other in colour && colour[v] == colour[other]
    ensures Inv(g, marked, colour, root, false, stack)
  {
    assert Conflict(g.edges, marked, colour, v, other);
  }

  /** Once every neighbour of v is marked, and coloured otherwise while no failure was
      recorded, v's search is over: the state stays valid with v off the stack. */
  lemma PopStep(g: GraphData, marked: seq<Vertex>, colour: map<Vertex, bool>, root: map<Vertex, Vertex>,
    isBipartite: bool, stack: seq<Vertex>, v: Vertex)
    requires Inv(g, marked, colour, root, isBipartite, stack + [v])
    requires v in marked && v in colour
    requires Seen(EdgesAt(g.edges, v), v, marked, colour, colour[v], isBipartite, |EdgesAt(g.edges, v)|)
    ensures Inv(g, marked, colour, root, isBipartite, stack)
  {
    AllNeighboursSeen(g.edges, v, marked, colour, colour[v], isBipartite);
    forall x ensures StackedAt(marked, stack, x) {
      assert StackedAt(marked, stack + [v], x);
    }
    forall x, y ensures ClosedAt(g.edges, marked, stack, x, y) {
      assert ClosedAt(g.edges, marked, stack + [v], x, y);
    }
    if isBipartite {
      forall x, y ensures DifferAt(g.edges, marked, colour, stack, x, y) {
        assert DifferAt(g.edges, marked, colour, stack + [v], x, y);
      }
    }
  }

  /** Only marked vertices (and the one being entered) carry a colour. */
  ghost predicate KeyAt(colour: map<Vertex, bool>, marked: seq<Vertex>, x: Vertex)
  {
    x in colour ==> x in marked
  }

  ghost predicate Keys(colour: map<Vertex, bool>, marked: seq<Vertex>)
  {
    forall x {:trigger KeyAt(colour, marked, x)} :: KeyAt(colour, marked, x)
  }

  /** Marking one more vertex keeps every colour on a marked vertex; an unmarked vertex
      has no colour. */
  lemma KeysExtend(colour: map<Vertex, bool>, marked: seq<Vertex>, v: Vertex)
    requires Keys(colour, marked)
    ensures v !in marked ==> v !in colour
    ensures Keys(colour, marked + [v])
  {
    assert KeyAt(colour, marked, v);
    var marked' := marked + [v];
    forall x ensures KeyAt(colour, marked', x) {
      assert KeyAt(colour, marked, x);
    }
  }

  /** Colouring a marked vertex keeps every colour on a marked vertex. */
  lemma KeysRecolour(colour: map<Vertex, bool>, marked: seq<Vertex>, v: Vertex, c: bool)
    requires Keys(colour, marked) && v in marked
    ensures Keys(colour[v := c], marked)
  {
    var colour' := colour[v := c];
    forall x ensures KeyAt(colour', marked, x) {
      assert KeyAt(colour, marked, x);
    }
  }

  /** Every vertex on the stack has root r. */
  ghost predicate RootOn(root: map<Vertex, Vertex>, stack: seq<Vertex>, r: Vertex, x: Vertex)
  {
    x in stack ==> x in root && root[x] == r
  }

  ghost predicate CommonRoot(root: map<Vertex, Vertex>, stack: seq<Vertex>, r: Vertex)
  {
    forall x {:trigger RootOn(root, stack, r, x)} :: RootOn(root, stack, r, x)
  }

  /** Pushing a vertex of root r keeps the stack's common root. */
  lemma CommonRootPush(root: map<Vertex, Vertex>, stack: seq<Vertex>, r: Vertex, v: Vertex)
    requires stack == [] || CommonRoot(root, stack, r)
    requires v in root && root[v] == r
    ensures CommonRoot(root, stack + [v], r)
  {
    var stack' := stack + [v];
    forall x ensures RootOn(root, stack', r, x) {
      if stack != [] {
        assert RootOn(root, stack, r, x);
      }
    }
  }

  /** Giving an unmarked vertex a root leaves the roots of the stack alone. */
  lemma CommonRootChild(edges: seq<Edge>, marked: seq<Vertex>, root: map<Vertex, Vertex>, stack: seq<Vertex>,
    r: Vertex, other: Vertex, r': Vertex)
    requires Closed(edges, marked, stack) && CommonRoot(root, stack, r) && other !in marked
    ensures CommonRoot(root[other := r'], stack, r)
  {
    var root' := root[other := r'];
    assert StackedAt(marked, stack, other);
    forall x ensures RootOn(root', stack, r, x) {
      assert RootOn(root, stack, r, x);
    }
  }

  /** Entering v: colouring it as a root when it has no colour yet, marking it and pushing
      it keeps the state valid and starts its search. */
  lemma Enter(g: GraphData, marked: seq<Vertex>, colour: map<Vertex, bool>, root: map<Vertex, Vertex>,
    isBipartite: bool, stack: seq<Vertex>, v: Vertex, colour': map<Vertex, bool>, root': map<Vertex, Vertex>)
    requires Inv(g, marked, colour, root, isBipartite, stack) && v !in marked && v in Universe(g)
    requires Keys(colour, marked + [v])
    requires v !in colour ==> stack == [] && colour' == colour[v := true] && root' == root[v := v]
    requires v in colour ==> && v in root && Agree(g.edges, colour, root, marked + [v])
                             && CommonRoot(root, stack, root[v]) && colour' == colour && root' == root
    ensures Inv(g, marked + [v], colour', root', isBipartite, stack + [v])
    ensures Keys(colour', marked + [v])
    ensures v in colour' && v in root' && CommonRoot(root', stack + [v], root'[v])
    ensures Grows(marked, colour, root, v, marked + [v], colour', root')
  {
    if v !in colour {
      RootStep(g, marked, colour, root, isBipartite, stack, v);
      KeysRecolour(colour, marked + [v], v, true);
    }
    CommonRootPush(root', stack, root'[v], v);
    MarkStep(g, marked, colour', root', isBipartite, stack, v);
    GrowsStart(marked, colour, root, v, colour', root');
  }

  /** What a search leaves unchanged at a vertex x marked before it: x stays marked and
      keeps its root and its colour. */
  ghost predicate GrowsAt(m0: seq<Vertex>, c0: map<Vertex, bool>, r0: map<Vertex, Vertex>,
    marked: seq<Vertex>, colour: map<Vertex, bool>, root: map<Vertex, Vertex>, x: Vertex)
  {
    x in m0 ==>
      && x in marked
      && (x in r0 ==> x in root && root[x] == r0[x])
      && (x in c0 ==> x in colour && colour[x] == c0[x])
  }

  /** What a search from v leaves unchanged: more vertices are marked, v among them; the
      vertices marked before keep their roots and colours, and v keeps its colour (and
      root) if it had one. */
  ghost predicate Grows(m0: seq<Vertex>, c0: map<Vertex, bool>, r0: map<Vertex, Vertex>, v: Vertex,
    marked: seq<Vertex>, colour: map<Vertex, bool>, root: map<Vertex, Vertex>)
  {
    && |m0| < |marked| && v in marked
    && (v in c0 ==> v in colour && colour[v] == c0[v] && (v in r0 ==> v in root && root[v] == r0[v]))
    && forall x {:trigger GrowsAt(m0, c0, r0, marked, colour, root, x)} :: GrowsAt(m0, c0, r0, marked, colour, root, x)
  }

  /** Marking v, after colouring it as a root if it had no colour, starts its search. */
  lemma GrowsStart(m0: seq<Vertex>, c0: map<Vertex, bool>, r0: map<Vertex, Vertex>, v: Vertex,
    colour: map<Vertex, bool>, root: map<Vertex, Vertex>)
    requires v !in m0
    requires (colour == c0 && root == r0) || (v !in c0 && colour == c0[v := true] && root == r0[v := v])
    ensures Grows(m0, c0, r0, v, m0 + [v], colour, root)
  {
    var m := m0 + [v];
    forall x ensures GrowsAt(m0, c0, r0, m, colour, root, x) {
      if x in m0 {
        assert x != v;
      }
    }
  }

  /** Colouring an unmarked vertex and giving it a root keeps what v's search keeps. */
  lemma GrowsRecolour(m0: seq<Vertex>, c0: map<Vertex, bool>, r0: map<Vertex, Vertex>, v: Vertex,
    marked: seq<Vertex>, colour: map<Vertex, bool>, root: map<Vertex, Vertex>, other: Vertex, c: bool, r: Vertex)
    requires Grows(m0, c0, r0, v, marked, colour, root) && other !in marked
    ensures Grows(m0, c0, r0, v, marked, colour[other := c], root[other := r])
  {
    var colour', root' := colour[other := c], root[other := r];
    forall x ensures GrowsAt(m0, c0, r0, marked, colour', root', x) {
      assert GrowsAt(m0, c0, r0, marked, colour, root, x);
    }
  }

  /** A search from a child of v, started after v was marked, keeps what v's search must
      keep. */
  lemma GrowsAfterChild(m0: seq<Vertex>, c0: map<Vertex, bool>, r0: map<Vertex, Vertex>, v: Vertex,
    m1: seq<Vertex>, c1: map<Vertex, bool>, r1: map<Vertex, Vertex>, other: Vertex,
    marked: seq<Vertex>, colour: map<Vertex, bool>, root: map<Vertex, Vertex>)
    requires Grows(m0, c0, r0, v, m1, c1, r1) && Grows(m1, c1, r1, other, marked, colour, root)
    ensures Grows(m0, c0, r0, v, marked, colour, root)
  {
    assert GrowsAt(m1, c1, r1, marked, colour, root, v);
    forall x ensures GrowsAt(m0, c0, r0, marked, colour, root, x) {
      assert GrowsAt(m0, c0, r0, m1, c1, r1, x);
      assert GrowsAt(m1, c1, r1, marked, colour, root, x);
    }
  }

  /** The vertices on the stack keep their common root while a child is searched. */
  lemma StackRootsKept(edges: seq<Edge>, m1: seq<Vertex>, c1: map<Vertex, bool>, r1: map<Vertex, Vertex>,
    s: seq<Vertex>, r: Vertex, other: Vertex, marked: seq<Vertex>, colour: map<Vertex, bool>,
    root: map<Vertex, Vertex>)
    requires Closed(edges, m1, s) && CommonRoot(r1, s, r)
    requires Grows(m1, c1, r1, other, marked, colour, root)
    ensures CommonRoot(root, s, r)
  {
    forall x ensures RootOn(root, s, r, x) {
      assert RootOn(r1, s, r, x);
      assert StackedAt(m1, s, x);
      assert GrowsAt(m1, c1, r1, marked, colour, root, x);
    }
  }

  /** The far end of the j-th edge at v has been reached and, while no conflict was
      found, has the colour opposite to cv. */
  ghost predicate SeenAt(es: seq<Edge>, v: Vertex, marked: seq<Vertex>, colour: map<Vertex, bool>, cv: bool,
    isBipartite: bool, j: int)
  {
    0 <= j < |es| ==>
      var y := FarEnd(es[j], v);
      y in marked && (isBipartite ==> y in colour && colour[y] != cv)
  }

  ghost predicate Seen(es: seq<Edge>, v: Vertex, marked: seq<Vertex>, colour: map<Vertex, bool>, cv: bool,
    isBipartite: bool, k: int)
  {
    forall j {:trigger SeenAt(es, v, marked, colour, cv, isBipartite, j)} ::
      0 <= j < k ==> SeenAt(es, v, marked, colour, cv, isBipartite, j)
  }

  /** An edge whose far end was already marked: it is seen, and coloured against v unless
      a conflict was just recorded. */
  lemma SeenMarked(es: seq<Edge>, v: Vertex, marked: seq<Vertex>, colour: map<Vertex, bool>, cv: bool,
    b0: bool, isBipartite: bool, k: int)
    requires 0 <= k < |es| && Seen(es, v, marked, colour, cv, b0, k) && (isBipartite ==> b0)
    requires FarEnd(es[k], v) in marked
    requires isBipartite ==> FarEnd(es[k], v) in colour && colour[FarEnd(es[k], v)] != cv
    ensures Seen(es, v, marked, colour, cv, isBipartite, k + 1)
  {
    forall j | 0 <= j < k + 1 ensures SeenAt(es, v, marked, colour, cv, isBipartite, j) {
      if j < k {
        assert SeenAt(es, v, marked, colour, cv, b0, j);
      }
    }
  }

  /** After the search from an unmarked far end, coloured against v, returns: that end and
      the ends seen before are seen, v keeps its colour, and v's search still keeps what it
      must keep. */
  lemma ChildReturned(es: seq<Edge>, v: Vertex, m0: seq<Vertex>, c0: map<Vertex, bool>, r0: map<Vertex, Vertex>,
    m1: seq<Vertex>, c: map<Vertex, bool>, r: map<Vertex, Vertex>, other: Vertex, rv: Vertex,
    marked: seq<Vertex>, colour: map<Vertex, bool>, root: map<Vertex, Vertex>,
    cv: bool, b0: bool, isBipartite: bool, k: int)
    requires 0 <= k < |es| && FarEnd(es[k], v) == other && other !in m1
    requires v in m1 && v in c && c[v] == cv
    requires Seen(es, v, m1, c, cv, b0, k) && (isBipartite ==> b0)
    requires Grows(m0, c0, r0, v, m1, c, r)
    requires Grows(m1, c[other := !cv], r[other := rv], other, marked, colour, root)
    ensures Seen(es, v, marked, colour, cv, isBipartite, k + 1)
    ensures v in colour && colour[v] == cv
    ensures Grows(m0, c0, r0, v, marked, colour, root)
  {
    var c1, r1 := c[other := !cv], r[other := rv];
    GrowsRecolour(m0, c0, r0, v, m1, c, r, other, !cv, rv);
    GrowsAfterChild(m0, c0, r0, v, m1, c1, r1, other, marked, colour, root);
    assert GrowsAt(m1, c1, r1, marked, colour, root, v);
    forall j | 0 <= j < k + 1 ensures SeenAt(es, v, marked, colour, cv, isBipartite, j) {
      if j < k {
        assert SeenAt(es, v, m1, c, cv, b0, j);
        assert GrowsAt(m1, c1, r1, marked, colour, root, FarEnd(es[j], v));
      }
    }
  }

  /** The state inside dfs(v) after the first k edges at v (listed in es) were handled:
      the search state is valid with v on top of the stack s, v has colour cv and every
      vertex on s has root rv, the search keeps what it must keep of the state (m0, c0, r0)
      it started from, and the far ends of those k edges are seen. */
  ghost predicate Visiting(g: GraphData, m0: seq<Vertex>, c0: map<Vertex, bool>, r0: map<Vertex, Vertex>,
    v: Vertex, cv: bool, rv: Vertex, s: seq<Vertex>, es: seq<Edge>, k: int,
    marked: seq<Vertex>, colour: map<Vertex, bool>, root: map<Vertex, Vertex>, isBipartite: bool)
  {
    && Inv(g, marked, colour, root, isBipartite, s) && Keys(colour, marked)
    && v in marked && v in colour && colour[v] == cv && v in s && CommonRoot(root, s, rv)
    && Grows(m0, c0, r0, v, marked, colour, root)
    && Seen(es, v, marked, colour, cv, isBipartite, k)
  }

  class Bipartite {
    const graph: GraphData
    var colour: map<Vertex, bool>
    var marked: seq<Vertex>
    var isBipartite: bool
    ghost var root: map<Vertex, Vertex>

    /** Bipartite(graph): no colours, nothing marked. */
    constructor(graph: GraphData)
      ensures this.graph == graph && colour == map[] && marked == []
    {
      this.graph := graph;
      colour := map[];
      marked := [];
      root := map[];
    }

    /** isBipartite: clears the colours and marks, searches from every vertex not yet
        marked and stops at the first search that records a failure. A true result comes
        with a colouring that differs across every edge at a listed vertex; a false one
        means the edges admit no 2-colouring at all. */
    method IsBipartite() returns (r: bool)
      modifies this
      ensures r == isBipartite && NoDuplicates(marked)
      ensures r ==> forall v :: v in graph.vertices ==> v in marked
      ensures r ==> forall e :: e in graph.edges && (e.origin in graph.vertices || e.destination in graph.vertices) ==>
        e.origin in colour && e.destination in colour && colour[e.origin] != colour[e.destination]
      ensures !r ==> !TwoColourable(graph.edges)
    {
      isBipartite := true;
      colour := map[];
      marked := [];
      root := map[];
      var k := 0;
      while k < |graph.vertices|
        invariant 0 <= k <= |graph.vertices|
        invariant isBipartite && Inv(graph, marked, colour, root, isBipartite, [])
        invariant Keys(colour, marked)
        invariant forall j :: 0 <= j < k ==> graph.vertices[j] in marked
      {
        var v := graph.vertices[k];
        if v !in marked {
          KeysExtend(colour, marked, v);
          ghost var m0, c0, r0 := marked, colour, root;
          Dfs(v, []);
          forall j | 0 <= j < k ensures graph.vertices[j] in marked {
            assert GrowsAt(m0, c0, r0, marked, colour, root, graph.vertices[j]);
          }
          if !isBipartite {
            FailureNotColourable(graph, marked, colour, root, []);
            return false;
          }
        }
        k := k + 1;
      }
      forall e | e in graph.edges && (e.origin in graph.vertices || e.destination in graph.vertices)
        ensures e.origin in colour && e.destination in colour && colour[e.origin] != colour[e.destination]
      {
        var x := if e.origin in graph.vertices then e.origin else e.destination;
        var y := FarEnd(e, x);
        NeighbourEdge(graph.edges, x, y);
        assert ClosedAt(graph.edges, marked, [], x, y);
        assert RootedAt(colour, root, marked, x) && RootedAt(colour, root, marked, y);
        assert DifferAt(graph.edges, marked, colour, [], x, y);
      }
      return true;
    }

    /** dfs(v): colours v (true unless the caller already chose its colour), marks it,
        and for each edge at v either searches from an unmarked far end, coloured the
        other way, or records a failure when the far end has v's colour. Everything
        marked before keeps its colour and its root. */
    method Dfs(v: Vertex, ghost stack: seq<Vertex>)
      requires Inv(graph, marked, colour, root, isBipartite, stack) && v !in marked && v in Universe(graph)
      requires Keys(colour, marked + [v])
      requires v !in colour ==> stack == []
      requires v in colour ==> v in root && Agree(graph.edges, colour, root, marked + [v]) && CommonRoot(root, stack, root[v])
      modifies this
      ensures Inv(graph, marked, colour, root, isBipartite, stack)
      ensures Keys(colour, marked)
      ensures Grows(old(marked), old(colour), old(root), v, marked, colour, root)
      ensures isBipartite ==> old(isBipartite)
      decreases |Universe(graph)| - |marked|, 0
    {
      ghost var m0, c0, r0 := marked, colour, root;
      MarkedBound(graph, marked, root, v);
      if v !in colour {
        colour := colour[v := true];
        root := root[v := v];
      }
      Enter(graph, m0, c0, r0, isBipartite, stack, v, colour, root);
      ghost var cv, rv := colour[v], root[v];
      marked := marked + [v];
      ghost var s := stack + [v];
      var es := EdgesAt(graph.edges, v);
      var k := 0;
      while k < |es|
        invariant 0 <= k <= |es|
        invariant Visiting(graph, m0, c0, r0, v, cv, rv, s, es, k, marked, colour, root, isBipartite)
        invariant isBipartite ==> old(isBipartite)
        decreases |es| - k
      {
        VisitEdge(v, es[k], es, k, s, cv, rv, m0, c0, r0);
        k := k + 1;
      }
      PopStep(graph, marked, colour, root, isBipartite, stack, v);
    }

    /** The body of dfs's loop at v for its k-th edge e: an unmarked far end takes the
        colour opposite to v's, joins v's tree and is searched from; a marked far end of
        v's colour records the failure. */
    method VisitEdge(v: Vertex, e: Edge, ghost es: seq<Edge>, ghost k: int, ghost s: seq<Vertex>, ghost cv: bool,
      ghost rv: Vertex, ghost m0: seq<Vertex>, ghost c0: map<Vertex, bool>, ghost r0: map<Vertex, Vertex>)
      requires 0 <= k < |es| && es[k] == e && e in graph.edges && (e.origin == v || e.destination == v)
      requires Visiting(graph, m0, c0, r0, v, cv, rv, s, es, k, marked, colour, root, isBipartite)
      modifies this
      ensures Visiting(graph, m0, c0, r0, v, cv, rv, s, es, k + 1, marked, colour, root, isBipartite)
      ensures isBipartite ==> old(isBipartite)
      decreases |Universe(graph)| - |marked|, 2
    {
      var other := if e.origin == v then e.destination else e.origin;
      NeighbourOfEdge(graph.edges, e, v);
      ghost var b0 := isBipartite;
      if other !in marked {
        ghost var m1, c, r := marked, colour, root;
        Descend(v, other, s, rv);
        ChildReturned(es, v, m0, c0, r0, m1, c, r, other, rv, marked, colour, root, cv, b0, isBipartite, k);
      } else {
        assert RootedAt(colour, root, marked, other);
        if colour[v] == colour[other] {
          ConflictStep(graph, marked, colour, root, isBipartite, s, v, other);
          isBipartite := false;
        }
        SeenMarked(es, v, marked, colour, cv, b0, isBipartite, k);
      }
    }

    /** The first case of dfs's loop at v: the far end `other` is unmarked, so it takes
        the colour opposite to v's, joins v's tree, and is searched from. */
    method Descend(v: Vertex, other: Vertex, ghost s: seq<Vertex>, ghost rv: Vertex)
      requires Inv(graph, marked, colour, root, isBipartite, s) && Keys(colour, marked)
      requires v in marked && v in colour && v in s && CommonRoot(root, s, rv)
      requires other !in marked && other in Neighbours(graph.edges, v)
      modifies this
      ensures Inv(graph, marked, colour, root, isBipartite, s) && Keys(colour, marked)
      ensures CommonRoot(root, s, rv)
      ensures Grows(old(marked), old(colour)[other := !old(colour)[v]], old(root)[other := rv], other,
        marked, colour, root)
      ensures isBipartite ==> old(isBipartite)
      decreases |Universe(graph)| - |marked|, 1
    {
      assert RootOn(root, s, rv, v);
      ChildStep(graph, marked, colour, root, isBipartite, s, v, other);
      KeysExtend(colour, marked, other);
      KeysRecolour(colour, marked + [other], other, !colour[v]);
      CommonRootChild(graph.edges, marked, root, s, rv, other, rv);
      colour := colour[other := !colour[v]];
      root := root[other := root[v]];
      NeighbourInUniverse(graph, v, other);
      MarkedBound(graph, marked, root, other);
      ghost var m1, c1, r1 := marked, colour, root;
      Dfs(other, s);
      StackRootsKept(graph.edges, m1, c1, r1, s, rv, other, marked, colour, root);
    }
  }
}
