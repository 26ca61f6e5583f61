/** Two small graphs on which findSimpleCycles
    (GraphDrawingTheory/src/graph/algorithm/cycles/PatonSimpleCycles.java) goes wrong
    as written, followed step by step, and what the search with parallel edges handled
    reports on them instead. */
module PatonFindings {
  import opened Wrappers
  import opened GraphElements
  import opened PatonCycles

  function A(): Vertex { Vertex(0, "a") }
  function B(): Vertex { Vertex(1, "b") }
  function C(): Vertex { Vertex(2, "c") }

  /** The first graph: a and b joined by two edges. */
  function E1(): Edge { Edge(0, A(), B()) }
  function E2(): Edge { Edge(1, A(), B()) }
  function TwoParallel(): GraphData
  {
    GraphData([A(), B()], [E1(), E2()], false, map[], map[])
  }

  /** The search on TwoParallel: a is the root; its first edge reaches b. */
  function Start1(): SearchState { SearchState(map[A() := {}], map[A() := A()], [A()], []) }
  function Reached1(): SearchState
  {
    SearchState(map[A() := {}, B() := {A()}], map[A() := A(), B() := A()], [B()], [])
  }

  /** What the second edge between a and b adds: [b, a, a] as written, [b, a] handled. */
  function SecondCycle(fixParallel: bool): seq<Vertex>
  {
    if fixParallel then [B(), A()] else [B(), A(), A()]
  }

  function AfterRoot1(fixParallel: bool): SearchState
  {
    Reached1().(cycles := [SecondCycle(fixParallel)])
  }

  lemma FirstEdge1(fixParallel: bool)
    ensures WF(Pop(Start1())) && A() in Pop(Start1()).used
    ensures EdgeStep(TwoParallel(), Pop(Start1()), A(), {}, E1(), fixParallel) == Success(Reached1())
  {
    var p0 := Pop(Start1());
    assert p0 == SearchState(map[A() := {}], map[A() := A()], [], []);
    assert Neighbour(E1(), A()) == B() && B() !in p0.used;
    assert p0.stack + [B()] == [B()];
    assert p0.(parent := p0.parent[B() := A()], used := p0.used[B() := {A()}], stack := p0.stack + [B()]) == Reached1();
  }

  lemma SecondEdge1(fixParallel: bool)
    ensures WF(Reached1()) && A() in Reached1().used
    ensures EdgeStep(TwoParallel(), Reached1(), A(), {}, E2(), fixParallel) == Success(AfterRoot1(fixParallel))
  {
    var s1 := Reached1();
    assert Neighbour(E2(), A()) == B() && s1.used[B()] == {A()} && s1.parent[A()] == A();
    assert s1.parent.Keys == {A(), B()};
    if !fixParallel {
      assert ClimbFrom(s1.parent, {A()}, A(), 2, [B(), A()]) == Some([B(), A()] + [A()]);
      assert [B(), A()] + [A()] == SecondCycle(false);
      assert s1.used[B()] + {A()} == {A()};
      assert s1.used[B() := {A()}] == s1.used;
    } else {
      assert A() in s1.used[B()];
    }
    assert s1.cycles + [SecondCycle(fixParallel)] == [SecondCycle(fixParallel)];
  }

  lemma RootEdgesTail1(fixParallel: bool)
    ensures WF(Reached1()) && A() in Reached1().used && Reached1().used.Keys <= Universe(TwoParallel())
    ensures EdgesFrom(TwoParallel(), Reached1(), A(), {}, [E1(), E2()], 1, fixParallel) == Success(AfterRoot1(fixParallel))
  {
    var g, es := TwoParallel(), [E1(), E2()];
    assert A() in Universe(g) && B() in Universe(g);
    SecondEdge1(fixParallel);
    assert WF(AfterRoot1(fixParallel));
    assert EdgesFrom(g, AfterRoot1(fixParallel), A(), {}, es, 2, fixParallel) == Success(AfterRoot1(fixParallel));
    EdgesFromNext(g, Reached1(), A(), {}, es, 1, fixParallel);
  }

  lemma RootEdges1(fixParallel: bool)
    ensures EdgesFrom(TwoParallel(), Pop(Start1()), A(), {}, [E1(), E2()], 0, fixParallel) == Success(AfterRoot1(fixParallel))
  {
    var g, es := TwoParallel(), [E1(), E2()];
    assert A() in Universe(g);
    FirstEdge1(fixParallel);
    RootEdgesTail1(fixParallel);
    EdgesFromNext(g, Pop(Start1()), A(), {}, es, 0, fixParallel);
  }

  /** b's own edges change nothing: a is used with b. */
  function Settled1(fixParallel: bool): SearchState
  {
    AfterRoot1(fixParallel).(stack := [])
  }

  lemma ChildEdge1(fixParallel: bool, e: Edge)
    requires e == E1() || e == E2()
    ensures WF(Settled1(fixParallel)) && B() in Settled1(fixParallel).used
    ensures Settled1(fixParallel).used.Keys <= Universe(TwoParallel())
    ensures EdgeStep(TwoParallel(), Settled1(fixParallel), B(), {A()}, e, fixParallel) == Success(Settled1(fixParallel))
  {
    var g := TwoParallel();
    assert A() in Universe(g) && B() in Universe(g);
    assert Neighbour(e, B()) == A();
  }

  lemma ChildEdgesTail1(fixParallel: bool)
    ensures EdgesFrom(TwoParallel(), Settled1(fixParallel), B(), {A()}, [E1(), E2()], 1, fixParallel) == Success(Settled1(fixParallel))
  {
    var g, es, st := TwoParallel(), [E1(), E2()], Settled1(fixParallel);
    ChildEdge1(fixParallel, E2());
    assert EdgesFrom(g, st, B(), {A()}, es, 2, fixParallel) == Success(st);
    EdgesFromNext(g, st, B(), {A()}, es, 1, fixParallel);
  }

  lemma ChildEdges1(fixParallel: bool)
    ensures Pop(AfterRoot1(fixParallel)) == Settled1(fixParallel)
    ensures EdgesFrom(TwoParallel(), Settled1(fixParallel), B(), {A()}, [E1(), E2()], 0, fixParallel) == Success(Settled1(fixParallel))
  {
    var g, es, st := TwoParallel(), [E1(), E2()], Settled1(fixParallel);
    ChildEdge1(fixParallel, E1());
    ChildEdgesTail1(fixParallel);
    EdgesFromNext(g, st, B(), {A()}, es, 0, fixParallel);
  }

  /** Both edges touch both ends. */
  lemma EdgesAt1()
    ensures EdgesAt(TwoParallel().edges, A()) == [E1(), E2()]
    ensures EdgesAt(TwoParallel().edges, B()) == [E1(), E2()]
  {
  }

  lemma Drain1(fixParallel: bool)
    ensures WF(Start1()) && Start1().used.Keys <= Universe(TwoParallel())
    ensures Drain(TwoParallel(), Start1(), fixParallel) == Success(Settled1(fixParallel))
  {
    var g := TwoParallel();
    var s2, p2 := AfterRoot1(fixParallel), Settled1(fixParallel);
    assert A() in Universe(g);
    EdgesAt1();
    RootEdges1(fixParallel);
    assert Start1().used[A()] == {};
    assert PopStep(g, Start1(), fixParallel) == Success(s2);
    ChildEdges1(fixParallel);
    assert s2.used[B()] == {A()};
    assert PopStep(g, s2, fixParallel) == Success(p2);
    assert Drain(g, p2, fixParallel) == Success(p2);
    assert Drain(g, s2, fixParallel) == Success(p2);
  }

  lemma ComponentsRest1(fixParallel: bool)
    ensures WF(Settled1(fixParallel)) && Settled1(fixParallel).stack == []
    ensures Components(TwoParallel(), [B()], Settled1(fixParallel), fixParallel) == Success(Settled1(fixParallel))
  {
    var p2 := Settled1(fixParallel);
    assert B() in p2.parent;
    assert Components(TwoParallel(), [], p2, fixParallel) == Success(p2);
  }

  lemma Components1(fixParallel: bool)
    ensures Components(TwoParallel(), [A(), B()], SearchState(map[], map[], [], []), fixParallel)
      == Success(Settled1(fixParallel))
  {
    var g := TwoParallel();
    var empty := SearchState(map[], map[], [], []);
    var p2 := Settled1(fixParallel);
    assert Fresh(empty, A()) == Start1();
    Drain1(fixParallel);
    assert [A(), B()][1..] == [B()] && A() !in empty.parent;
    ComponentsRest1(fixParallel);
  }

  /** As written, the root a and its child b joined twice give the list [b, a, a],
      which repeats a and is not a closed walk; handled, the cycle is [b, a]. */
  lemma RootParallel(fixParallel: bool)
    ensures CyclesOf(Some(TwoParallel()), fixParallel) == Success([SecondCycle(fixParallel)])
  {
    Components1(fixParallel);
    assert Search(Some(TwoParallel()), fixParallel) == Success(Settled1(fixParallel));
  }

  /** The list reported as written is not a closed walk: there is no edge from a to a. */
  lemma RootParallelNotWalk()
    ensures !ClosedWalk(TwoParallel().edges, SecondCycle(false))
    ensures ClosedWalk(TwoParallel().edges, SecondCycle(true))
  {
    var edges := TwoParallel().edges;
    forall e | e in edges ensures !(e.origin == A() && e.destination == A()) {
      assert e == E1() || e == E2();
    }
    assert !Joined(edges, A(), A());
    var c := SecondCycle(false);
    assert c[1] == A() && c[2] == A() && 0 <= 1 < |c| - 1;
    assert !Joined(edges, c[1], c[1 + 1]);
    assert E1() in edges;
    assert Joined(edges, B(), A()) && Joined(edges, A(), B());
  }

  /** The second graph: a joined to b once, b joined to c twice. */
  function F1(): Edge { Edge(0, A(), B()) }
  function F2(): Edge { Edge(1, B(), C()) }
  function F3(): Edge { Edge(2, B(), C()) }
  function BelowRoot(): GraphData
  {
    GraphData([A(), B(), C()], [F1(), F2(), F3()], false, map[], map[])
  }

  /** Popped: b reached from the root a, waiting for its own edges. */
  function Popped2(): SearchState
  {
    SearchState(map[A() := {}, B() := {A()}], map[A() := A(), B() := A()], [], [])
  }

  /** c reached from b over the first of the two parallel edges. */
  function Reached2(): SearchState
  {
    SearchState(map[A() := {}, B() := {A()}, C() := {B()}], map[A() := A(), B() := A(), C() := B()], [C()], [])
  }

  function Settled2(): SearchState
  {
    Reached2().(stack := [], cycles := [[C(), B()]])
  }

  /** The walk's result on BelowRoot: the search as written diverges, handled it reports [c, b]. */
  function Outcome2(fixParallel: bool): Result<SearchState, CycleError>
  {
    if fixParallel then Success(Reached2().(cycles := [[C(), B()]])) else Failure(WalkDiverges)
  }

  lemma EdgesAtRoot2()
    ensures EdgesAt(BelowRoot().edges, A()) == [F1()]
  {
  }

  lemma EdgesAtChild2()
    ensures EdgesAt(BelowRoot().edges, B()) == [F1(), F2(), F3()]
  {
  }

  lemma EdgesAtGrandchild2()
    ensures EdgesAt(BelowRoot().edges, C()) == [F2(), F3()]
  {
  }

  lemma InUniverse2()
    ensures A() in Universe(BelowRoot()) && B() in Universe(BelowRoot()) && C() in Universe(BelowRoot())
  {
    assert BelowRoot().vertices[2] == C();
  }

  lemma RootEdges2(fixParallel: bool)
    ensures EdgesFrom(BelowRoot(), Pop(Start1()), A(), {}, [F1()], 0, fixParallel) == Success(Reached1())
  {
    var g, p0 := BelowRoot(), Pop(Start1());
    InUniverse2();
    assert p0 == SearchState(map[A() := {}], map[A() := A()], [], []);
    assert Neighbour(F1(), A()) == B() && B() !in p0.used;
    assert p0.stack + [B()] == [B()];
    assert EdgeStep(g, p0, A(), {}, F1(), fixParallel) == Success(Reached1());
    assert EdgesFrom(g, Reached1(), A(), {}, [F1()], 1, fixParallel) == Success(Reached1());
    EdgesFromNext(g, p0, A(), {}, [F1()], 0, fixParallel);
  }

  /** The climb for the second edge from b to c starts at the root a, which is its own
      parent and not used with c, so the source's loop never leaves a. */
  lemma ParallelStep2(fixParallel: bool)
    ensures WF(Reached2()) && B() in Reached2().used
    ensures EdgeStep(BelowRoot(), Reached2(), B(), {A()}, F3(), fixParallel) == Outcome2(fixParallel)
    ensures forall k: nat :: Up(Reached2().parent, Reached2().parent[B()], k) !in Reached2().used[C()]
  {
    var g, st := BelowRoot(), Reached2();
    assert Neighbour(F3(), B()) == C() && st.used[C()] == {B()} && st.parent[B()] == A();
    assert st.parent[A()] == A() && A() !in st.used[C()];
    ClimbStuck(st.parent, {B()}, A(), |st.parent.Keys|, [C(), B()]);
    if fixParallel {
      assert st.cycles + [[C(), B()]] == [[C(), B()]];
    }
    WalkDivergesMeans(g, st, B(), {A()}, F3(), false);
  }

  lemma ChildTail2(fixParallel: bool)
    ensures EdgesFrom(BelowRoot(), Reached2(), B(), {A()}, [F1(), F2(), F3()], 2, fixParallel) == Outcome2(fixParallel)
  {
    var g, es := BelowRoot(), [F1(), F2(), F3()];
    InUniverse2();
    ParallelStep2(fixParallel);
    if fixParallel {
      var st' := Reached2().(cycles := [[C(), B()]]);
      assert WF(st') && st'.used.Keys <= Universe(g);
      assert EdgesFrom(g, st', B(), {A()}, es, 3, fixParallel) == Success(st');
      EdgesFromNext(g, Reached2(), B(), {A()}, es, 2, fixParallel);
    }
  }

  lemma ChildMid2(fixParallel: bool)
    ensures EdgesFrom(BelowRoot(), Popped2(), B(), {A()}, [F1(), F2(), F3()], 1, fixParallel) == Outcome2(fixParallel)
  {
    var g, es, st := BelowRoot(), [F1(), F2(), F3()], Popped2();
    InUniverse2();
    assert Neighbour(F2(), B()) == C() && C() !in st.used;
    assert st.stack + [C()] == [C()];
    assert EdgeStep(g, st, B(), {A()}, F2(), fixParallel) == Success(Reached2());
    ChildTail2(fixParallel);
    EdgesFromNext(g, st, B(), {A()}, es, 1, fixParallel);
  }

  lemma ChildEdges2(fixParallel: bool)
    ensures Pop(Reached1()) == Popped2()
    ensures EdgesFrom(BelowRoot(), Popped2(), B(), {A()}, [F1(), F2(), F3()], 0, fixParallel) == Outcome2(fixParallel)
  {
    var g, es, st := BelowRoot(), [F1(), F2(), F3()], Popped2();
    InUniverse2();
    assert Neighbour(F1(), B()) == A();
    assert EdgeStep(g, st, B(), {A()}, F1(), fixParallel) == Success(st);
    ChildMid2(fixParallel);
    EdgesFromNext(g, st, B(), {A()}, es, 0, fixParallel);
  }

  /** c's own edges change nothing in the handled search: b is used with c. */
  lemma GrandchildEdge2(e: Edge)
    requires e == F2() || e == F3()
    ensures WF(Settled2()) && C() in Settled2().used && Settled2().used.Keys <= Universe(BelowRoot())
    ensures EdgeStep(BelowRoot(), Settled2(), C(), {B()}, e, true) == Success(Settled2())
  {
    InUniverse2();
    assert Neighbour(e, C()) == B() && C() !in Settled2().used[B()];
  }

  lemma GrandchildEdges2()
    ensures EdgesFrom(BelowRoot(), Settled2(), C(), {B()}, [F2(), F3()], 0, true) == Success(Settled2())
  {
    var g, es, st := BelowRoot(), [F2(), F3()], Settled2();
    GrandchildEdge2(F2());
    GrandchildEdge2(F3());
    assert EdgesFrom(g, st, C(), {B()}, es, 2, true) == Success(st);
    EdgesFromNext(g, st, C(), {B()}, es, 1, true);
    EdgesFromNext(g, st, C(), {B()}, es, 0, true);
  }

  lemma FirstPop2(fixParallel: bool)
    ensures WF(Start1()) && Start1().used.Keys <= Universe(BelowRoot())
    ensures PopStep(BelowRoot(), Start1(), fixParallel) == Success(Reached1())
  {
    InUniverse2();
    EdgesAtRoot2();
    RootEdges2(fixParallel);
    assert Start1().used[A()] == {};
  }

  lemma SecondPop2(fixParallel: bool)
    ensures WF(Reached1()) && Reached1().used.Keys <= Universe(BelowRoot())
    ensures PopStep(BelowRoot(), Reached1(), fixParallel) == Outcome2(fixParallel)
  {
    InUniverse2();
    EdgesAtChild2();
    ChildEdges2(fixParallel);
    assert Reached1().used[B()] == {A()};
  }

  lemma LastDrain2()
    ensures var s3 := Reached2().(cycles := [[C(), B()]]);
      WF(s3) && s3.used.Keys <= Universe(BelowRoot()) && Drain(BelowRoot(), s3, true) == Success(Settled2())
  {
    var g, s3 := BelowRoot(), Reached2().(cycles := [[C(), B()]]);
    InUniverse2();
    EdgesAtGrandchild2();
    GrandchildEdges2();
    assert Pop(s3) == Settled2() && s3.used[C()] == {B()};
    assert PopStep(g, s3, true) == Success(Settled2());
    assert Drain(g, Settled2(), true) == Success(Settled2());
  }

  lemma MidDrain2(fixParallel: bool)
    ensures WF(Reached1()) && Reached1().used.Keys <= Universe(BelowRoot())
    ensures Drain(BelowRoot(), Reached1(), fixParallel)
      == if fixParallel then Success(Settled2()) else Failure(WalkDiverges)
  {
    SecondPop2(fixParallel);
    if fixParallel {
      LastDrain2();
    }
  }

  lemma Drain2(fixParallel: bool)
    ensures WF(Start1()) && Start1().used.Keys <= Universe(BelowRoot())
    ensures Drain(BelowRoot(), Start1(), fixParallel)
      == if fixParallel then Success(Settled2()) else Failure(WalkDiverges)
  {
    FirstPop2(fixParallel);
    MidDrain2(fixParallel);
  }

  lemma ComponentsRest2()
    ensures WF(Settled2()) && Settled2().stack == []
    ensures Components(BelowRoot(), [B(), C()], Settled2(), true) == Success(Settled2())
  {
    var st := Settled2();
    assert B() in st.parent && C() in st.parent;
    assert [B(), C()][1..] == [C()];
    assert Components(BelowRoot(), [], st, true) == Success(st);
    assert Components(BelowRoot(), [C()], st, true) == Success(st);
  }

  lemma Components2(fixParallel: bool)
    ensures Components(BelowRoot(), [A(), B(), C()], SearchState(map[], map[], [], []), fixParallel)
      == if fixParallel then Success(Settled2()) else Failure(WalkDiverges)
  {
    var empty := SearchState(map[], map[], [], []);
    assert Fresh(empty, A()) == Start1();
    Drain2(fixParallel);
    assert [A(), B(), C()][1..] == [B(), C()] && A() !in empty.parent;
    if fixParallel {
      ComponentsRest2();
    }
  }

  /** As written, two edges between b and c below the root a send the parent climb
      round the root for ever (the model's bounded climb reports WalkDiverges);
      handled, the cycle is [c, b]. */
  lemma BelowRootParallel(fixParallel: bool)
    ensures CyclesOf(Some(BelowRoot()), fixParallel)
      == if fixParallel then Success([[C(), B()]]) else Failure(WalkDiverges)
  {
    Components2(fixParallel);
    assert Search(Some(BelowRoot()), fixParallel) == (if fixParallel then Success(Settled2()) else Failure(WalkDiverges));
  }
}
