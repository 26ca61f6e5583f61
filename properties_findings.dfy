/** Two small graphs on which the queries of
    GraphDrawingTheory/src/graph/properties/GraphProperties.java answer wrongly as
    written, and what the corrected definitions answer instead. */
module PropertiesFindings {
  import opened Wrappers
  import opened GraphElements
  import opened Properties

  function A(): Vertex { Vertex(0, "a") }
  function B(): Vertex { Vertex(1, "b") }
  function C(): Vertex { Vertex(2, "c") }
  function D(): Vertex { Vertex(3, "d") }

  /** listMultiEdges on one undirected edge between a and b. */
  function Single(): Edge { Edge(0, A(), B()) }
  function OneEdge(): GraphData
  {
    GraphData([A(), B()], [Single()], false, map[A() := [Single()], B() := [Single()]], map[])
  }

  lemma OneEdgeValid()
    ensures Valid(OneEdge())
  {
    var g := OneEdge();
    forall v, e | v in g.adjacentLists
      ensures multiset(g.adjacentLists[v])[e] <= Incidences(e, v)
    {
      if e != Single() {
        assert multiset(g.adjacentLists[v])[e] == 0;
      }
    }
  }

  /** Scanning a one-edge list for a destination. */
  lemma DestIsOne(e: Edge, w: Vertex)
    ensures DestIs([e], w) == if e.destination == w then [e] else []
  {
    assert [e][..0] == [];
  }

  /** What edgeesBetween gives for each pair of positions: b's list is scanned twice
      for the pair (b, b), and its one edge ends at b both times. */
  lemma OneEdgeBetween()
    ensures EdgesBetweenSpec(OneEdge(), A(), A()) == []
    ensures EdgesBetweenSpec(OneEdge(), A(), B()) == [Single()]
    ensures EdgesBetweenSpec(OneEdge(), B(), B()) == [Single(), Single()]
  {
    var g := OneEdge();
    assert g.adjacentLists[A()] == [Single()] && g.adjacentLists[B()] == [Single()];
    DestIsOne(Single(), A());
    DestIsOne(Single(), B());
    assert EdgesBetweenSpec(g, A(), A()) == DestIs([Single()], A()) + DestIs([Single()], A());
    assert EdgesBetweenSpec(g, A(), B()) == DestIs([Single()], B()) + DestIs([Single()], A());
    assert EdgesBetweenSpec(g, B(), B()) == DestIs([Single()], B()) + DestIs([Single()], B());
  }

  /** The two rows of listMultiEdges as written: nothing for a, the pair (b, b) for b. */
  lemma OneEdgeRows()
    ensures Row(OneEdge().vertices, PairLists(OneEdge(), false), 0, 2) == []
    ensures Row(OneEdge().vertices, PairLists(OneEdge(), false), 1, 2) == [[Single(), Single()]]
  {
    OneEdgeBetween();
    assert Row(OneEdge().vertices, PairLists(OneEdge(), false), 0, 1) == [];
  }

  /** As written, listMultiEdges reports the graph's single edge, twice over, as a
      multiple edge. */
  lemma SingleEdgeReported()
    ensures ListMultiEdgesSpec(OneEdge(), false) == [[Single(), Single()]]
  {
    OneEdgeRows();
    assert MultiUpTo(OneEdge().vertices, PairLists(OneEdge(), false), 1) == [];
  }

  /** With the pairs handled, nothing is reported. */
  lemma SingleEdgeNotReported()
    ensures ListMultiEdgesSpec(OneEdge(), true) == []
  {
    var g := OneEdge();
    assert [Single()][..0] == [];
    assert Joining(g, g.edges, A(), A()) == [];
    assert Joining(g, g.edges, A(), B()) == [Single()];
    assert Joining(g, g.edges, B(), B()) == [];
    assert Row(g.vertices, PairLists(g, true), 0, 2) == [];
    assert Row(g.vertices, PairLists(g, true), 1, 2) == [];
  }

  /** isRing on two separate pairs of parallel edges: a and b, c and d. */
  function E0(): Edge { Edge(0, A(), B()) }
  function E1(): Edge { Edge(1, A(), B()) }
  function E2(): Edge { Edge(2, C(), D()) }
  function E3(): Edge { Edge(3, C(), D()) }
  function TwoPairs(): GraphData
  {
    GraphData([A(), B(), C(), D()], [E0(), E1(), E2(), E3()], false,
      map[A() := [E0(), E1()], B() := [E0(), E1()], C() := [E2(), E3()], D() := [E2(), E3()]], map[])
  }

  lemma TwoPairsValid()
    ensures Valid(TwoPairs())
  {
    TwoPairsListed();
    TwoPairsCounted();
  }

  lemma TwoPairsListed()
    ensures AdjacentListed(TwoPairs().adjacentLists, TwoPairs().edges)
  {
  }

  lemma TwoPairsCounted()
    ensures AdjacentCounted(TwoPairs().adjacentLists)
  {
    var g := TwoPairs();
    forall v | v in g.adjacentLists
      ensures forall e :: multiset(g.adjacentLists[v])[e] <= Incidences(e, v)
    {
      if v == A() || v == B() {
        PairCounted(E0(), E1(), v);
      } else {
        PairCounted(E2(), E3(), v);
      }
    }
  }

  /** A list of two distinct edges, each incident to v, counts every edge at most as
      often as it meets v. */
  lemma PairCounted(x: Edge, y: Edge, v: Vertex)
    requires x != y && Incidences(x, v) >= 1 && Incidences(y, v) >= 1
    ensures forall e :: multiset([x, y])[e] <= Incidences(e, v)
  {
    forall e ensures multiset([x, y])[e] <= Incidences(e, v) {
      if e != x && e != y {
        assert multiset([x, y])[e] == 0;
      }
    }
  }

  /** The walk goes from a to b along the first edge, back to a along the second, and
      then bounces at a, which is already traversed, for the two remaining steps. */
  lemma RingStep1(fixEnd: bool)
    ensures RingWalk(TwoPairs(), E0(), [], [], fixEnd) == RingWalk(TwoPairs(), E1(), [B()], [E0()], fixEnd)
  {
    assert TwoPairs().adjacentLists[B()] == [E0(), E1()];
    assert [] + [B()] == [B()];
    assert [] + [E0()] == [E0()];
  }

  lemma RingStep2(fixEnd: bool)
    ensures RingWalk(TwoPairs(), E1(), [B()], [E0()], fixEnd)
      == RingWalk(TwoPairs(), E0(), [B(), A()], [E0(), E1()], fixEnd)
  {
    assert TwoPairs().adjacentLists[A()] == [E0(), E1()];
    assert [B()] + [A()] == [B(), A()];
    assert [E0()] + [E1()] == [E0(), E1()];
  }

  lemma RingStep3(fixEnd: bool)
    ensures RingWalk(TwoPairs(), E0(), [B(), A()], [E0(), E1()], fixEnd)
      == RingWalk(TwoPairs(), E1(), [B(), A(), A()], [E0(), E1(), E0()], fixEnd)
  {
    assert TwoPairs().adjacentLists[A()] == [E0(), E1()];
    assert B() in [B(), A()];
    assert [B(), A()] + [A()] == [B(), A(), A()];
    assert [E0(), E1()] + [E0()] == [E0(), E1(), E0()];
  }

  lemma RingStep4(fixEnd: bool)
    ensures RingWalk(TwoPairs(), E1(), [B(), A(), A()], [E0(), E1(), E0()], fixEnd)
      == RingWalk(TwoPairs(), E0(), [B(), A(), A(), A()], [E0(), E1(), E0(), E1()], fixEnd)
  {
    assert TwoPairs().adjacentLists[A()] == [E0(), E1()];
    assert B() in [B(), A(), A()];
    assert [B(), A(), A()] + [A()] == [B(), A(), A(), A()];
    assert [E0(), E1(), E0()] + [E1()] == [E0(), E1(), E0(), E1()];
  }

  lemma RingSteps(fixEnd: bool)
    ensures RingWalk(TwoPairs(), E0(), [], [], fixEnd)
      == RingWalk(TwoPairs(), E0(), [B(), A(), A(), A()], [E0(), E1(), E0(), E1()], fixEnd)
  {
    RingStep1(fixEnd);
    RingStep2(fixEnd);
    RingStep3(fixEnd);
    RingStep4(fixEnd);
  }

  /** As written, isRing answers true: four traversed vertices, four vertices. */
  lemma TwoPairsRing()
    ensures IsRingSpec(TwoPairs(), false) == Some(true)
  {
    RingSteps(false);
  }

  /** With every vertex required to be traversed, the answer is false: c never is. */
  lemma TwoPairsNotRing()
    ensures IsRingSpec(TwoPairs(), true) == Some(false)
  {
    RingSteps(true);
    assert C() in TwoPairs().vertices && C() !in [B(), A(), A(), A()];
  }

  /** a and b are adjacent only to each other. */
  lemma PairNeighbours()
    ensures AdjacentVerticesSpec(TwoPairs(), A()) == [B()]
    ensures AdjacentVerticesSpec(TwoPairs(), B()) == [A()]
  {
    assert [E0(), E1()][..1] == [E0()];
    assert [E0()][..0] == [];
  }

  /** Every walk that starts at a stays within a and b. */
  lemma {:induction false} WalkStaysInPair(p: seq<Vertex>, k: nat)
    requires Walk(TwoPairs(), p) && p[0] == A() && k < |p|
    ensures p[k] == A() || p[k] == B()
  {
    if k > 0 {
      WalkStaysInPair(p, k - 1);
      PairNeighbours();
      assert StepAt(TwoPairs(), p, k - 1);
      assert p[k] in AdjacentVerticesSpec(TwoPairs(), p[k - 1]);
    }
  }

  /** So the graph isRing accepts is not even connected: c cannot be reached from a. */
  lemma TwoPairsDisconnected()
    ensures !Reaches(TwoPairs(), A(), C())
  {
    if Reaches(TwoPairs(), A(), C()) {
      var p :| Walk(TwoPairs(), p) && p[0] == A() && p[|p| - 1] == C();
      WalkStaysInPair(p, |p| - 1);
    }
  }
}
