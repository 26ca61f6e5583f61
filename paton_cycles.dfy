/** Paton's cycle basis search
    (GraphDrawingTheory/src/graph/algorithm/cycles/PatonSimpleCycles.java).

    The search walks a spanning tree of each connected component with a stack, keeping
    for every reached vertex its tree parent and the set of vertices it has been used
    with; an edge to a vertex already reached closes a cycle, which is completed by
    climbing the parent links from the current vertex until a vertex used with the
    neighbour. That climb has no bound in the source: the model gives it as many steps
    as there are vertices with a parent and reports WalkDiverges when they run out,
    which (by the pigeonhole argument below) happens exactly when the source's climb
    never ends. The search is specified by the functions on SearchState below; the
    class method follows the source's loops and is proved equal to them. */
module PatonCycles {
  import opened Wrappers
  import opened GraphElements

  /** IllegalArgumentException("Null graph.") and a parent climb that never ends. */
  datatype CycleError = NullGraph | WalkDiverges

  /** The search's local state: used, parent, stack and cycles. */
  datatype SearchState = SearchState(
    used: map<Vertex, set<Vertex>>,
    parent: map<Vertex, Vertex>,
    stack: seq<Vertex>,
    cycles: seq<seq<Vertex>>)

  /** Every parent is itself a vertex with a parent. */
  ghost predicate Closed(parent: map<Vertex, Vertex>)
  {
    forall x {:trigger parent[x]} :: x in parent ==> parent[x] in parent
  }

  /** What the search keeps so that its lookups succeed: parents are closed, every used
      vertex has a parent and every stacked vertex is used. */
  ghost predicate WF(st: SearchState)
  {
    && Closed(st.parent)
    && (forall x :: x in st.used ==> x in st.parent)
    && (forall x :: x in st.stack ==> x in st.used)
  }

  /** The vertices the search can reach: the listed vertices and the edges' ends. */
  function Universe(g: GraphData): set<Vertex>
  {
    (set v | v in g.vertices) + (set e | e in g.edges :: e.origin) + (set e | e in g.edges :: e.destination)
  }

  /** p after k steps up the parent links. */
  function Up(parent: map<Vertex, Vertex>, p: Vertex, k: nat): (r: Vertex)
    requires Closed(parent) && p in parent
    ensures r in parent
    decreases k
  {
    if k == 0 then p else Up(parent, parent[p], k - 1)
  }

  /** The source's climb `while (!neighbourUsed.contains(p)) { cycle.add(p); p =
      parent.get(p); } cycle.add(p);` from p onto acc, with at most fuel steps. */
  function ClimbFrom(parent: map<Vertex, Vertex>, nu: set<Vertex>, p: Vertex, fuel: nat, acc: seq<Vertex>): Option<seq<Vertex>>
    requires Closed(parent) && p in parent
    decreases fuel
  {
    if p in nu then Some(acc + [p])
    else if fuel == 0 then None
    else ClimbFrom(parent, nu, parent[p], fuel - 1, acc + [p])
  }

  /** Climbing from a vertex outside nu that is its own parent never reaches nu. */
  lemma {:induction false} ClimbStuck(parent: map<Vertex, Vertex>, nu: set<Vertex>, p: Vertex, fuel: nat, acc: seq<Vertex>)
    requires Closed(parent) && p in parent && parent[p] == p && p !in nu
    ensures ClimbFrom(parent, nu, p, fuel, acc) == None
    decreases fuel
  {
    if fuel > 0 {
      ClimbStuck(parent, nu, p, fuel - 1, acc + [p]);
    }
  }

  /** The step from c[j] to c[j + 1] is a climb step: c[j] is outside nu, not its own
      parent, and c[j + 1] is its parent. */
  ghost predicate LinkAt(parent: map<Vertex, Vertex>, nu: set<Vertex>, c: seq<Vertex>, j: int)
  {
    && 0 <= j < |c| - 1
    && c[j] in parent && c[j] !in nu && parent[c[j]] != c[j] && c[j + 1] == parent[c[j]]
  }

  /** From index k on, c is a chain of climb steps ending in nu. */
  ghost predicate Climbed(parent: map<Vertex, Vertex>, nu: set<Vertex>, c: seq<Vertex>, k: int)
  {
    && 0 <= k < |c| && c[|c| - 1] in nu
    && forall j :: k <= j < |c| - 1 ==> LinkAt(parent, nu, c, j)
  }

  /** A finished climb extends acc by a chain of parent links from p to a vertex of nu,
      passing only vertices outside nu that are not their own parent. */
  lemma {:induction false} ClimbShape(parent: map<Vertex, Vertex>, nu: set<Vertex>, p: Vertex, fuel: nat, acc: seq<Vertex>)
    requires Closed(parent) && p in parent
    ensures var r := ClimbFrom(parent, nu, p, fuel, acc);
      r.Some? ==>
        && |r.value| > |acc| && (forall j :: 0 <= j < |acc| ==> r.value[j] == acc[j]) && r.value[|acc|] == p
        && Climbed(parent, nu, r.value, |acc|)
    decreases fuel
  {
    if p !in nu && fuel > 0 {
      if parent[p] == p {
        ClimbStuck(parent, nu, p, fuel, acc);
      } else {
        var acc' := acc + [p];
        ClimbShape(parent, nu, parent[p], fuel - 1, acc');
        var r := ClimbFrom(parent, nu, p, fuel, acc);
        if r.Some? {
          assert forall j :: 0 <= j < |acc| ==> acc'[j] == acc[j];
        }
      }
    }
  }

  /** A climb that runs out of fuel met no vertex of nu in its first fuel steps. */
  lemma {:induction false} ClimbMisses(parent: map<Vertex, Vertex>, nu: set<Vertex>, p: Vertex, fuel: nat, acc: seq<Vertex>)
    requires Closed(parent) && p in parent && ClimbFrom(parent, nu, p, fuel, acc) == None
    ensures forall k :: 0 <= k <= fuel ==> Up(parent, p, k) !in nu
    decreases fuel
  {
    if fuel > 0 {
      ClimbMisses(parent, nu, parent[p], fuel - 1, acc + [p]);
      forall k | 1 <= k <= fuel ensures Up(parent, p, k) !in nu {
        assert Up(parent, p, k) == Up(parent, parent[p], k - 1);
      }
    }
  }

  lemma {:induction false} UpAdd(parent: map<Vertex, Vertex>, p: Vertex, a: nat, b: nat)
    requires Closed(parent) && p in parent
    ensures Up(parent, p, a + b) == Up(parent, Up(parent, p, a), b)
    decreases a
  {
    if a > 0 {
      UpAdd(parent, parent[p], a - 1, b);
    }
  }

  /** The first n + 1 vertices of the climb from p. */
  function UpList(parent: map<Vertex, Vertex>, p: Vertex, n: nat): (s: seq<Vertex>)
    requires Closed(parent) && p in parent
    ensures |s| == n + 1 && forall k :: 0 <= k <= n ==> s[k] == Up(parent, p, k)
    decreases n
  {
    if n == 0 then [p] else UpList(parent, p, n - 1) + [Up(parent, p, n)]
  }

  /** Pigeonhole: a climb that misses nu for as many steps as there are vertices with a
      parent misses it forever, so the source's loop would never end. */
  lemma UpMissesForever(parent: map<Vertex, Vertex>, nu: set<Vertex>, p: Vertex)
    requires Closed(parent) && p in parent
    requires forall k :: 0 <= k <= |parent.Keys| ==> Up(parent, p, k) !in nu
    ensures forall k: nat :: Up(parent, p, k) !in nu
  {
    var n := |parent.Keys|;
    var s := UpList(parent, p, n);
    Pigeonhole(s, parent.Keys);
    var i, j :| 0 <= i < j < |s| && s[i] == s[j];
    forall k: nat ensures Up(parent, p, k) !in nu {
      UpPeriodic(parent, nu, p, i, j, k);
    }
  }

  lemma {:induction false} UpPeriodic(parent: map<Vertex, Vertex>, nu: set<Vertex>, p: Vertex, i: nat, j: nat, k: nat)
    requires Closed(parent) && p in parent && i < j <= |parent.Keys|
    requires Up(parent, p, i) == Up(parent, p, j)
    requires forall k :: 0 <= k <= |parent.Keys| ==> Up(parent, p, k) !in nu
    ensures Up(parent, p, k) !in nu
    decreases k
  {
    if k > |parent.Keys| {
      var m := k - j;
      UpAdd(parent, p, j, m);
      UpAdd(parent, p, i, m);
      UpPeriodic(parent, nu, p, i, j, i + m);
    }
  }

  /** Two vertices joined by an edge of the list, in either direction. */
  ghost predicate Joined(edges: seq<Edge>, x: Vertex, y: Vertex)
  {
    exists e :: e in edges && ((e.origin == x && e.destination == y) || (e.origin == y && e.destination == x))
  }

  lemma NeighbourJoined(edges: seq<Edge>, e: Edge, current: Vertex)
    requires e in edges && (e.origin == current || e.destination == current)
    ensures Joined(edges, current, Neighbour(e, current)) && Joined(edges, Neighbour(e, current), current)
  {
  }

  /** One edge e of current's list: a new neighbour is reached (parent current, used
      with current) and stacked; a self-loop gives the cycle [current]; a reached
      neighbour not used with current closes a cycle [neighbour, current, ...] by the
      parent climb and becomes used with current. With fixParallel, a reached
      neighbour already used with current (a second edge between the two) gives the
      two-vertex cycle [neighbour, current] instead. */
  function EdgeStep(g: GraphData, st: SearchState, current: Vertex, currentUsed: set<Vertex>, e: Edge, fixParallel: bool): Result<SearchState, CycleError>
    requires WF(st) && current in st.used
  {
    var n := Neighbour(e, current);
    if n !in st.used then
      Success(st.(parent := st.parent[n := current], used := st.used[n := {current}], stack := st.stack + [n]))
    else if n == current then
      Success(st.(cycles := st.cycles + [[current]]))
    else if fixParallel && current in st.used[n] then
      Success(st.(cycles := st.cycles + [[n, current]]))
    else if n !in currentUsed then
      match ClimbFrom(st.parent, st.used[n], st.parent[current], |st.parent.Keys|, [n, current])
      case None => Failure(WalkDiverges)
      case Some(cycle) => Success(st.(cycles := st.cycles + [cycle], used := st.used[n := st.used[n] + {current}]))
    else Success(st)
  }

  /** st' continues st: used keys, parent keys and cycles only grow, and the stack
      changes only when a new vertex is reached. */
  ghost predicate Extends(st: SearchState, st': SearchState)
  {
    && st.used.Keys <= st'.used.Keys
    && st.parent.Keys <= st'.parent.Keys
    && st.cycles <= st'.cycles
    && (st'.used.Keys == st.used.Keys ==> st'.stack == st.stack)
  }

  lemma ExtendsTrans(a: SearchState, b: SearchState, c: SearchState)
    requires Extends(a, b) && Extends(b, c)
    ensures Extends(a, c)
  {
    PrefixTrans(a.cycles, b.cycles, c.cycles);
  }

  /** Reaching a new neighbour n from current keeps the state well formed. */
  lemma ReachKeepsWF(st: SearchState, current: Vertex, n: Vertex)
    requires WF(st) && current in st.used && n !in st.used
    ensures WF(st.(parent := st.parent[n := current], used := st.used[n := {current}], stack := st.stack + [n]))
  {
    var parent' := st.parent[n := current];
    forall x | x in parent' ensures parent'[x] in parent' {
      if x != n {
        assert parent'[x] == st.parent[x];
      }
    }
  }

  /** A new neighbour is an end of an edge, so it lies in the universe. */
  lemma EndInUniverse(g: GraphData, e: Edge, current: Vertex)
    requires e in g.edges
    ensures Neighbour(e, current) in Universe(g)
  {
    var n := Neighbour(e, current);
    if n == e.origin {
      assert e.origin in (set e | e in g.edges :: e.origin);
    } else {
      assert e.destination in (set e | e in g.edges :: e.destination);
    }
  }

  /** A step that only records a cycle or a use keeps the used keys, parents and stack. */
  lemma RecordKeepsWF(st: SearchState, st': SearchState)
    requires WF(st) && st'.parent == st.parent && st'.stack == st.stack && st'.used.Keys == st.used.Keys
    requires st.cycles <= st'.cycles
    ensures WF(st') && Extends(st, st')
  {
  }

  /** How a step changes the used keys: only by adding the neighbour, and the stack only
      when it does. */
  lemma EdgeStepGrows(g: GraphData, st: SearchState, current: Vertex, currentUsed: set<Vertex>, e: Edge, fixParallel: bool)
    requires WF(st) && current in st.used && e in g.edges
    requires st.used.Keys <= Universe(g)
    ensures var r := EdgeStep(g, st, current, currentUsed, e, fixParallel);
      r.Success? ==> WF(r.value) && Extends(st, r.value) && r.value.used.Keys <= Universe(g)
  {
    var n := Neighbour(e, current);
    var r := EdgeStep(g, st, current, currentUsed, e, fixParallel);
    if n !in st.used {
      ReachKeepsWF(st, current, n);
      EndInUniverse(g, e, current);
      assert st.used[n := {current}].Keys == st.used.Keys + {n};
    } else if n == current {
      RecordKeepsWF(st, st.(cycles := st.cycles + [[current]]));
    } else if fixParallel && current in st.used[n] {
      RecordKeepsWF(st, st.(cycles := st.cycles + [[n, current]]));
    } else if n !in currentUsed {
      var c := ClimbFrom(st.parent, st.used[n], st.parent[current], |st.parent.Keys|, [n, current]);
      if c.Some? {
        var used' := st.used[n := st.used[n] + {current}];
        var st' := st.(cycles := st.cycles + [c.value], used := used');
        assert r == Success(st');
        assert used'.Keys == st.used.Keys;
        RecordKeepsWF(st, st');
      }
    } else {
      assert r == Success(st);
    }
  }

  /** The loop over current's edges from es[i] on, one EdgeStep each, stopping at a
      failure. */
  function EdgesFrom(g: GraphData, st: SearchState, current: Vertex, currentUsed: set<Vertex>, es: seq<Edge>, i: nat, fixParallel: bool): (r: Result<SearchState, CycleError>)
    requires WF(st) && current in st.used && st.used.Keys <= Universe(g)
    requires forall e :: e in es ==> e in g.edges
    decreases |es| - i
  {
    if i >= |es| then Success(st)
    else
      EdgeStepGrows(g, st, current, currentUsed, es[i], fixParallel);
      match EdgeStep(g, st, current, currentUsed, es[i], fixParallel)
      case Failure(err) => Failure(err)
      case Success(st') => EdgesFrom(g, st', current, currentUsed, es, i + 1, fixParallel)
  }

  /** The edge loop after a successful step is the loop from the next edge. */
  lemma EdgesFromNext(g: GraphData, st: SearchState, current: Vertex, currentUsed: set<Vertex>, es: seq<Edge>, i: nat, fixParallel: bool)
    requires WF(st) && current in st.used && st.used.Keys <= Universe(g)
    requires forall e :: e in es ==> e in g.edges
    requires i < |es|
    ensures var r1 := EdgeStep(g, st, current, currentUsed, es[i], fixParallel);
      r1.Success? && WF(r1.value) && current in r1.value.used && r1.value.used.Keys <= Universe(g) ==>
      EdgesFrom(g, st, current, currentUsed, es, i, fixParallel) == EdgesFrom(g, r1.value, current, currentUsed, es, i + 1, fixParallel)
  {
  }

  /** The edge loop only grows the state, within the universe. */
  lemma {:induction false} EdgesFromGrows(g: GraphData, st: SearchState, current: Vertex, currentUsed: set<Vertex>, es: seq<Edge>, i: nat, fixParallel: bool)
    requires WF(st) && current in st.used && st.used.Keys <= Universe(g)
    requires forall e :: e in es ==> e in g.edges
    ensures var r := EdgesFrom(g, st, current, currentUsed, es, i, fixParallel);
      r.Success? ==> WF(r.value) && Extends(st, r.value) && r.value.used.Keys <= Universe(g)
    decreases |es| - i
  {
    if i < |es| {
      EdgeStepGrows(g, st, current, currentUsed, es[i], fixParallel);
      var r1 := EdgeStep(g, st, current, currentUsed, es[i], fixParallel);
      if r1.Success? {
        EdgesFromGrows(g, r1.value, current, currentUsed, es, i + 1, fixParallel);
        EdgesFromNext(g, st, current, currentUsed, es, i, fixParallel);
        var r := EdgesFrom(g, r1.value, current, currentUsed, es, i + 1, fixParallel);
        if r.Success? {
          ExtendsTrans(st, r1.value, r.value);
        }
      }
    }
  }

  /** Taking more vertices out of a set leaves no more of them. */
  lemma DiffShrinks(u: set<Vertex>, a: set<Vertex>, b: set<Vertex>)
    requires a <= b
    ensures |u - b| <= |u - a|
    ensures a != b && b <= u ==> |u - b| < |u - a|
  {
    assert u - a == (u - b) + ((u - a) - (u - b));
    if a != b && b <= u {
      var x :| x in b && x !in a;
      assert x in (u - a) - (u - b);
    }
  }

  /** st with its top vertex popped. */
  function Pop(st: SearchState): SearchState
    requires st.stack != []
  {
    st.(stack := st.stack[..|st.stack| - 1])
  }

  lemma PopWF(st: SearchState)
    requires WF(st) && st.stack != []
    ensures WF(Pop(st)) && st.stack[|st.stack| - 1] in st.used
  {
    var s := st.stack[..|st.stack| - 1];
    forall x | x in s ensures x in st.used {
      var i :| 0 <= i < |s| && s[i] == x;
      assert st.stack[i] == x;
    }
  }

  /** After a popped vertex's edges, either more vertices are used or the stack is
      shorter: the component loop's measure goes down. */
  lemma PopShrinks(g: GraphData, st: SearchState, st': SearchState)
    requires st.stack != [] && Extends(Pop(st), st') && st'.used.Keys <= Universe(g)
    ensures |Universe(g) - st'.used.Keys| < |Universe(g) - st.used.Keys|
      || (|Universe(g) - st'.used.Keys| == |Universe(g) - st.used.Keys| && |st'.stack| < |st.stack|)
  {
    DiffShrinks(Universe(g), st.used.Keys, st'.used.Keys);
  }

  /** One turn of the component loop: pop the top vertex and take its edges. */
  function PopStep(g: GraphData, st: SearchState, fixParallel: bool): (r: Result<SearchState, CycleError>)
    requires WF(st) && st.used.Keys <= Universe(g) && st.stack != []
    ensures r.Success? ==> WF(r.value) && Extends(Pop(st), r.value) && r.value.used.Keys <= Universe(g)
  {
    var current := st.stack[|st.stack| - 1];
    PopWF(st);
    EdgesFromGrows(g, Pop(st), current, st.used[current], EdgesAt(g.edges, current), 0, fixParallel);
    EdgesFrom(g, Pop(st), current, st.used[current], EdgesAt(g.edges, current), 0, fixParallel)
  }

  /** The while loop of one component: pop and step until the stack is empty. */
  function Drain(g: GraphData, st: SearchState, fixParallel: bool): (r: Result<SearchState, CycleError>)
    requires WF(st) && st.used.Keys <= Universe(g)
    decreases |Universe(g) - st.used.Keys|, |st.stack|
  {
    if st.stack == [] then Success(st)
    else
      match PopStep(g, st, fixParallel)
      case Failure(err) => Failure(err)
      case Success(st') =>
        PopShrinks(g, st, st');
        Drain(g, st', fixParallel)
  }

  /** st' is where a drained search from st ends: well formed, with an empty stack and
      no parent or cycle lost. */
  ghost predicate Settled(st: SearchState, st': SearchState)
  {
    WF(st') && st'.stack == [] && st.parent.Keys <= st'.parent.Keys && st.cycles <= st'.cycles
  }

  lemma SettledAfter(st: SearchState, mid: SearchState, end: SearchState)
    requires st.stack != [] && Extends(Pop(st), mid) && Settled(mid, end)
    ensures Settled(st, end)
  {
  }

  lemma {:induction false} DrainSettles(g: GraphData, st: SearchState, fixParallel: bool)
    requires WF(st) && st.used.Keys <= Universe(g)
    ensures var r := Drain(g, st, fixParallel); r.Success? ==> Settled(st, r.value)
    decreases |Universe(g) - st.used.Keys|, |st.stack|
  {
    if st.stack != [] {
      var r1 := PopStep(g, st, fixParallel);
      if r1.Success? {
        PopShrinks(g, st, r1.value);
        assert Drain(g, st, fixParallel) == Drain(g, r1.value, fixParallel);
        DrainSettles(g, r1.value, fixParallel);
        var r := Drain(g, r1.value, fixParallel);
        if r.Success? {
          SettledAfter(st, r1.value, r.value);
        }
      }
    }
  }

  /** The state a new component starts from: used cleared to the root alone, the root
      its own parent and on the stack. */
  function Fresh(st: SearchState, root: Vertex): SearchState
  {
    SearchState(map[root := {}], st.parent[root := root], st.stack + [root], st.cycles)
  }

  lemma FreshWF(g: GraphData, st: SearchState, root: Vertex)
    requires WF(st) && st.stack == [] && root in g.vertices
    ensures WF(Fresh(st, root)) && Fresh(st, root).used.Keys <= Universe(g)
  {
    var parent' := st.parent[root := root];
    forall x | x in parent' ensures parent'[x] in parent' {
      if x != root {
        assert parent'[x] == st.parent[x];
      }
    }
    assert root in Universe(g);
  }

  /** The loop over the vertices: each one without a parent roots a new component,
      searched from a fresh state. */
  function Components(g: GraphData, vs: seq<Vertex>, st: SearchState, fixParallel: bool): (r: Result<SearchState, CycleError>)
    requires WF(st) && st.stack == [] && forall v :: v in vs ==> v in g.vertices
    decreases |vs|
  {
    if vs == [] then Success(st)
    else if vs[0] in st.parent then Components(g, vs[1..], st, fixParallel)
    else
      FreshWF(g, st, vs[0]);
      DrainSettles(g, Fresh(st, vs[0]), fixParallel);
      match Drain(g, Fresh(st, vs[0]), fixParallel)
      case Failure(err) => Failure(err)
      case Success(st') => Components(g, vs[1..], st', fixParallel)
  }

  /** After the vertex loop every vertex of vs has a parent, and nothing is lost. */
  lemma {:induction false} ComponentsCover(g: GraphData, vs: seq<Vertex>, st: SearchState, fixParallel: bool)
    requires WF(st) && st.stack == [] && forall v :: v in vs ==> v in g.vertices
    ensures var r := Components(g, vs, st, fixParallel);
      r.Success? ==> Settled(st, r.value) && forall v :: v in vs ==> v in r.value.parent
    decreases |vs|
  {
    if vs != [] {
      var root := vs[0];
      if root in st.parent {
        ComponentsCover(g, vs[1..], st, fixParallel);
        var r := Components(g, vs[1..], st, fixParallel);
        assert Components(g, vs, st, fixParallel) == r;
        if r.Success? {
          Covered(vs, r.value.parent);
        }
      } else {
        FreshWF(g, st, root);
        DrainSettles(g, Fresh(st, root), fixParallel);
        var r1 := Drain(g, Fresh(st, root), fixParallel);
        if r1.Success? {
          ComponentsCover(g, vs[1..], r1.value, fixParallel);
          var r := Components(g, vs[1..], r1.value, fixParallel);
          assert Components(g, vs, st, fixParallel) == r;
          if r.Success? {
            assert root in Fresh(st, root).parent;
            SettledTrans(st, Fresh(st, root), r1.value, r.value);
            Covered(vs, r.value.parent);
          }
        }
      }
    }
  }

  lemma SettledTrans(st: SearchState, start: SearchState, mid: SearchState, end: SearchState)
    requires st.parent.Keys <= start.parent.Keys && start.cycles == st.cycles
    requires Settled(start, mid) && Settled(mid, end)
    ensures Settled(st, end) && start.parent.Keys <= end.parent.Keys
  {
    PrefixTrans(start.cycles, mid.cycles, end.cycles);
  }

  lemma PrefixTrans<T>(a: seq<T>, b: seq<T>, c: seq<T>)
    requires a <= b && b <= c
    ensures a <= c
  {
    assert forall i :: 0 <= i < |a| ==> a[i] == b[i] == c[i];
  }

  lemma Covered(vs: seq<Vertex>, parent: map<Vertex, Vertex>)
    requires vs != [] && vs[0] in parent && forall v :: v in vs[1..] ==> v in parent
    ensures forall v :: v in vs ==> v in parent
  {
    forall v | v in vs ensures v in parent {
      if v != vs[0] {
        assert v in vs[1..];
      }
    }
  }

  /** An edge touches v. */
  predicate Touches(e: Edge, v: Vertex)
  {
    e.origin == v || e.destination == v
  }

  /** c is a closed walk: each vertex is joined to the next, and the last to the first. */
  ghost predicate ClosedWalk(edges: seq<Edge>, c: seq<Vertex>)
  {
    && |c| >= 1
    && Joined(edges, c[|c| - 1], c[0])
    && forall i :: 0 <= i < |c| - 1 ==> Joined(edges, c[i], c[i + 1])
  }

  /** The list [n, v, v] with n joined to v: what the source reports for a second edge
      between the root and one of its children. */
  ghost predicate RootRepeated(edges: seq<Edge>, c: seq<Vertex>)
  {
    |c| == 3 && c[1] == c[2] && Joined(edges, c[0], c[1])
  }

  /** What a reported cycle is: a closed walk, or (as written) the repeated-root list. */
  ghost predicate CycleOk(edges: seq<Edge>, c: seq<Vertex>, fixParallel: bool)
  {
    ClosedWalk(edges, c) || (!fixParallel && RootRepeated(edges, c))
  }

  /** Every parent link is an edge of the graph or marks a listed root. */
  ghost predicate TreeSound(g: GraphData, parent: map<Vertex, Vertex>)
  {
    forall x {:trigger parent[x]} :: x in parent ==>
      if parent[x] == x then x in g.vertices else Joined(g.edges, x, parent[x])
  }

  /** Every vertex is joined to the vertices it has been used with. */
  ghost predicate UsedSound(g: GraphData, used: map<Vertex, set<Vertex>>)
  {
    forall x, y :: x in used && y in used[x] ==> Joined(g.edges, x, y)
  }

  /** What the search's state means in the graph. */
  ghost predicate Sound(g: GraphData, st: SearchState, fixParallel: bool)
  {
    && TreeSound(g, st.parent)
    && UsedSound(g, st.used)
    && forall c :: c in st.cycles ==> CycleOk(g.edges, c, fixParallel)
  }

  lemma JoinedSym(edges: seq<Edge>, x: Vertex, y: Vertex)
    requires Joined(edges, x, y)
    ensures Joined(edges, y, x)
  {
  }

  /** A cycle closed by the parent climb from current to a vertex used with n is a
      closed walk, except, as written, the list [n, root, root]. */
  lemma ClimbCycleOk(g: GraphData, parent: map<Vertex, Vertex>, nu: set<Vertex>, n: Vertex, current: Vertex, cycle: seq<Vertex>, fixParallel: bool)
    requires Closed(parent) && current in parent && TreeSound(g, parent)
    requires forall y :: y in nu ==> Joined(g.edges, n, y)
    requires Joined(g.edges, n, current)
    requires fixParallel ==> current !in nu
    requires ClimbFrom(parent, nu, parent[current], |parent.Keys|, [n, current]) == Some(cycle)
    ensures CycleOk(g.edges, cycle, fixParallel)
  {
    ClimbShape(parent, nu, parent[current], |parent.Keys|, [n, current]);
    assert cycle[0] == [n, current][0] && cycle[1] == [n, current][1];
    ClimbedCycleOk(g, parent, nu, n, current, cycle, fixParallel);
  }

  /** The cycle [n, current, parent[current], ...] of a climb is a closed walk, except,
      as written, the list [n, root, root]. */
  lemma ClimbedCycleOk(g: GraphData, parent: map<Vertex, Vertex>, nu: set<Vertex>, n: Vertex, current: Vertex, cycle: seq<Vertex>, fixParallel: bool)
    requires Closed(parent) && current in parent && TreeSound(g, parent)
    requires forall y :: y in nu ==> Joined(g.edges, n, y)
    requires Joined(g.edges, n, current)
    requires fixParallel ==> current !in nu
    requires |cycle| > 2 && cycle[0] == n && cycle[1] == current && cycle[2] == parent[current]
    requires Climbed(parent, nu, cycle, 2)
    ensures CycleOk(g.edges, cycle, fixParallel)
  {
    var last := cycle[|cycle| - 1];
    JoinedSym(g.edges, n, last);
    if parent[current] == current && |cycle| == 3 {
      assert RootRepeated(g.edges, cycle);
    } else {
      forall i | 0 <= i < |cycle| - 1 ensures Joined(g.edges, cycle[i], cycle[i + 1]) {
        ClimbLink(g, parent, nu, n, current, cycle, i);
      }
      assert ClosedWalk(g.edges, cycle);
    }
  }

  /** One link of a climbed cycle: the first is the closing edge, the others parent links. */
  lemma ClimbLink(g: GraphData, parent: map<Vertex, Vertex>, nu: set<Vertex>, n: Vertex, current: Vertex, cycle: seq<Vertex>, i: int)
    requires Closed(parent) && current in parent && TreeSound(g, parent)
    requires Joined(g.edges, n, current)
    requires |cycle| > 2 && cycle[0] == n && cycle[1] == current && cycle[2] == parent[current]
    requires Climbed(parent, nu, cycle, 2)
    requires 0 <= i < |cycle| - 1 && !(parent[current] == current && |cycle| == 3)
    ensures Joined(g.edges, cycle[i], cycle[i + 1])
  {
    if i >= 2 {
      assert LinkAt(parent, nu, cycle, i);
      var x := cycle[i];
      assert parent[x] != x;
    } else if i == 1 {
      if |cycle| > 3 {
        assert LinkAt(parent, nu, cycle, 2);
      }
      assert Joined(g.edges, current, parent[current]);
    }
  }

  /** Reaching n from current along an edge keeps the state's meaning. */
  lemma ReachSound(g: GraphData, st: SearchState, current: Vertex, n: Vertex, fixParallel: bool)
    requires Sound(g, st, fixParallel) && n != current && Joined(g.edges, n, current)
    ensures Sound(g, st.(parent := st.parent[n := current], used := st.used[n := {current}], stack := st.stack + [n]), fixParallel)
  {
    var parent' := st.parent[n := current];
    forall x | x in parent' ensures if parent'[x] == x then x in g.vertices else Joined(g.edges, x, parent'[x]) {
      if x != n {
        assert parent'[x] == st.parent[x];
      }
    }
    assert TreeSound(g, parent');
  }

  /** Recording a good cycle keeps the state's meaning. */
  lemma CycleSound(g: GraphData, st: SearchState, c: seq<Vertex>, fixParallel: bool)
    requires Sound(g, st, fixParallel) && CycleOk(g.edges, c, fixParallel)
    ensures Sound(g, st.(cycles := st.cycles + [c]), fixParallel)
  {
  }

  /** Recording a good cycle and a use of n with current, joined to it, keeps the
      state's meaning. */
  lemma UseSound(g: GraphData, st: SearchState, n: Vertex, current: Vertex, c: seq<Vertex>, fixParallel: bool)
    requires Sound(g, st, fixParallel) && CycleOk(g.edges, c, fixParallel)
    requires n in st.used && Joined(g.edges, n, current)
    ensures Sound(g, st.(cycles := st.cycles + [c], used := st.used[n := st.used[n] + {current}]), fixParallel)
  {
    var used' := st.used[n := st.used[n] + {current}];
    assert UsedSound(g, used');
  }

  /** One step keeps the state's meaning. */
  lemma EdgeStepSound(g: GraphData, st: SearchState, current: Vertex, currentUsed: set<Vertex>, e: Edge, fixParallel: bool)
    requires WF(st) && Sound(g, st, fixParallel) && current in st.used && e in g.edges && Touches(e, current)
    ensures var r := EdgeStep(g, st, current, currentUsed, e, fixParallel);
      r.Success? ==> Sound(g, r.value, fixParallel)
  {
    var n := Neighbour(e, current);
    var r := EdgeStep(g, st, current, currentUsed, e, fixParallel);
    NeighbourJoined(g.edges, e, current);
    if n !in st.used {
      ReachSound(g, st, current, n, fixParallel);
      assert r == Success(st.(parent := st.parent[n := current], used := st.used[n := {current}], stack := st.stack + [n]));
    } else if n == current {
      assert ClosedWalk(g.edges, [current]);
      CycleSound(g, st, [current], fixParallel);
      assert r == Success(st.(cycles := st.cycles + [[current]]));
    } else if fixParallel && current in st.used[n] {
      assert ClosedWalk(g.edges, [n, current]);
      CycleSound(g, st, [n, current], fixParallel);
      assert r == Success(st.(cycles := st.cycles + [[n, current]]));
    } else if n !in currentUsed {
      var c := ClimbFrom(st.parent, st.used[n], st.parent[current], |st.parent.Keys|, [n, current]);
      if c.Some? {
        ClimbCycleOk(g, st.parent, st.used[n], n, current, c.value, fixParallel);
        UseSound(g, st, n, current, c.value, fixParallel);
        assert r == Success(st.(cycles := st.cycles + [c.value], used := st.used[n := st.used[n] + {current}]));
      }
    } else {
      assert r == Success(st);
    }
  }

  /** The edge loop keeps the state's meaning. */
  lemma {:induction false} EdgesFromSound(g: GraphData, st: SearchState, current: Vertex, currentUsed: set<Vertex>, es: seq<Edge>, i: nat, fixParallel: bool)
    requires WF(st) && current in st.used && st.used.Keys <= Universe(g)
    requires forall e :: e in es ==> e in g.edges && Touches(e, current)
    requires Sound(g, st, fixParallel)
    ensures var r := EdgesFrom(g, st, current, currentUsed, es, i, fixParallel);
      r.Success? ==> Sound(g, r.value, fixParallel)
    decreases |es| - i
  {
    if i < |es| {
      EdgeStepOk(g, st, current, currentUsed, es[i], fixParallel);
      var r1 := EdgeStep(g, st, current, currentUsed, es[i], fixParallel);
      if r1.Success? {
        EdgesFromSound(g, r1.value, current, currentUsed, es, i + 1, fixParallel);
        EdgesFromNext(g, st, current, currentUsed, es, i, fixParallel);
      }
    }
  }

  /** What the edge loop needs of one step, in one place. */
  lemma EdgeStepOk(g: GraphData, st: SearchState, current: Vertex, currentUsed: set<Vertex>, e: Edge, fixParallel: bool)
    requires WF(st) && current in st.used && st.used.Keys <= Universe(g)
    requires e in g.edges && Touches(e, current) && Sound(g, st, fixParallel)
    ensures var r := EdgeStep(g, st, current, currentUsed, e, fixParallel);
      r.Success? ==> WF(r.value) && current in r.value.used && r.value.used.Keys <= Universe(g) && Sound(g, r.value, fixParallel)
  {
    EdgeStepSound(g, st, current, currentUsed, e, fixParallel);
    EdgeStepGrows(g, st, current, currentUsed, e, fixParallel);
  }

  /** One turn of the component loop keeps the state's meaning. */
  lemma PopStepSound(g: GraphData, st: SearchState, fixParallel: bool)
    requires WF(st) && st.used.Keys <= Universe(g) && st.stack != [] && Sound(g, st, fixParallel)
    ensures var r := PopStep(g, st, fixParallel); r.Success? ==> Sound(g, r.value, fixParallel)
  {
    var current := st.stack[|st.stack| - 1];
    PopWF(st);
    EdgesFromSound(g, Pop(st), current, st.used[current], EdgesAt(g.edges, current), 0, fixParallel);
  }

  lemma {:induction false} DrainSound(g: GraphData, st: SearchState, fixParallel: bool)
    requires WF(st) && st.used.Keys <= Universe(g) && Sound(g, st, fixParallel)
    ensures var r := Drain(g, st, fixParallel); r.Success? ==> Sound(g, r.value, fixParallel)
    decreases |Universe(g) - st.used.Keys|, |st.stack|
  {
    if st.stack != [] {
      PopStepSound(g, st, fixParallel);
      var r1 := PopStep(g, st, fixParallel);
      if r1.Success? {
        PopShrinks(g, st, r1.value);
        assert Drain(g, st, fixParallel) == Drain(g, r1.value, fixParallel);
        DrainSound(g, r1.value, fixParallel);
      }
    }
  }

  /** A fresh component start keeps the state's meaning: the root is a listed vertex. */
  lemma FreshSound(g: GraphData, st: SearchState, root: Vertex, fixParallel: bool)
    requires Sound(g, st, fixParallel) && root in g.vertices
    ensures Sound(g, Fresh(st, root), fixParallel)
  {
    var parent' := st.parent[root := root];
    forall x | x in parent' ensures if parent'[x] == x then x in g.vertices else Joined(g.edges, x, parent'[x]) {
      if x != root {
        assert parent'[x] == st.parent[x];
      }
    }
    assert TreeSound(g, parent');
  }

  lemma {:induction false} ComponentsSound(g: GraphData, vs: seq<Vertex>, st: SearchState, fixParallel: bool)
    requires WF(st) && st.stack == [] && forall v :: v in vs ==> v in g.vertices
    requires Sound(g, st, fixParallel)
    ensures var r := Components(g, vs, st, fixParallel); r.Success? ==> Sound(g, r.value, fixParallel)
    decreases |vs|
  {
    if vs != [] {
      var root := vs[0];
      if root in st.parent {
        ComponentsSound(g, vs[1..], st, fixParallel);
      } else {
        FreshWF(g, st, root);
        FreshSound(g, st, root, fixParallel);
        DrainSettles(g, Fresh(st, root), fixParallel);
        DrainSound(g, Fresh(st, root), fixParallel);
        var r1 := Drain(g, Fresh(st, root), fixParallel);
        if r1.Success? {
          ComponentsSound(g, vs[1..], r1.value, fixParallel);
        }
      }
    }
  }

  /** The final state of findSimpleCycles on a graph, or its exception. */
  function Search(graph: Option<GraphData>, fixParallel: bool): Result<SearchState, CycleError>
  {
    if graph.None? then Failure(NullGraph)
    else Components(graph.value, graph.value.vertices, SearchState(map[], map[], [], []), fixParallel)
  }

  /** findSimpleCycles: the cycles of the final state. */
  function CyclesOf(graph: Option<GraphData>, fixParallel: bool): Result<seq<seq<Vertex>>, CycleError>
  {
    match Search(graph, fixParallel)
    case Failure(err) => Failure(err)
    case Success(st) => Success(st.cycles)
  }

  /** A climb that finishes met nu within fuel steps. */
  lemma {:induction false} ClimbHits(parent: map<Vertex, Vertex>, nu: set<Vertex>, p: Vertex, fuel: nat, acc: seq<Vertex>)
    requires Closed(parent) && p in parent && ClimbFrom(parent, nu, p, fuel, acc).Some?
    ensures exists k :: 0 <= k <= fuel && Up(parent, p, k) in nu
    decreases fuel
  {
    if p in nu {
      assert Up(parent, p, 0) in nu;
    } else {
      ClimbHits(parent, nu, parent[p], fuel - 1, acc + [p]);
      var k :| 0 <= k <= fuel - 1 && Up(parent, parent[p], k) in nu;
      assert Up(parent, p, k + 1) == Up(parent, parent[p], k);
    }
  }

  /** A step fails exactly when it closes a cycle whose parent climb, in the source,
      never reaches a vertex used with the neighbour: the source's loop runs forever. */
  lemma WalkDivergesMeans(g: GraphData, st: SearchState, current: Vertex, currentUsed: set<Vertex>, e: Edge, fixParallel: bool)
    requires WF(st) && current in st.used
    ensures var n := Neighbour(e, current);
      EdgeStep(g, st, current, currentUsed, e, fixParallel).Failure? <==>
        && n in st.used && n != current && !(fixParallel && current in st.used[n]) && n !in currentUsed
        && forall k: nat :: Up(st.parent, st.parent[current], k) !in st.used[n]
  {
    var n := Neighbour(e, current);
    if n in st.used && n != current && !(fixParallel && current in st.used[n]) && n !in currentUsed {
      var parent, nu, p := st.parent, st.used[n], st.parent[current];
      if ClimbFrom(parent, nu, p, |parent.Keys|, [n, current]).None? {
        ClimbMisses(parent, nu, p, |parent.Keys|, [n, current]);
        UpMissesForever(parent, nu, p);
      } else {
        ClimbHits(parent, nu, p, |parent.Keys|, [n, current]);
      }
    }
  }

  /** A search of no graph fails with NullGraph; a finished search has given every vertex
      a parent, every parent link is an edge or marks a listed root, every vertex is
      joined to those it was used with, and every cycle is a closed walk (as written,
      or the repeated-root list). */
  lemma SearchMeaning(graph: Option<GraphData>, fixParallel: bool)
    ensures graph.None? ==> Search(graph, fixParallel) == Failure(NullGraph)
    ensures graph.Some? && Search(graph, fixParallel).Success? ==>
      var g, st := graph.value, Search(graph, fixParallel).value;
      && (forall v :: v in g.vertices ==> v in st.parent)
      && st.stack == []
      && Sound(g, st, fixParallel)
  {
    if graph.Some? {
      var g := graph.value;
      var empty := SearchState(map[], map[], [], []);
      ComponentsCover(g, g.vertices, empty, fixParallel);
      ComponentsSound(g, g.vertices, empty, fixParallel);
    }
  }

  /** findSimpleCycles as written: every reported cycle is a closed walk of the graph, or
      the list [n, root, root] for a second edge between the root and a child. */
  lemma CyclesAsWritten(graph: Option<GraphData>)
    ensures CyclesOf(graph, false).Success? ==>
      graph.Some? && forall c :: c in CyclesOf(graph, false).value ==>
        ClosedWalk(graph.value.edges, c) || RootRepeated(graph.value.edges, c)
  {
    SearchMeaning(graph, false);
  }

  /** With parallel edges handled, every reported cycle is a closed walk of the graph. */
  lemma CyclesCorrected(graph: Option<GraphData>)
    ensures CyclesOf(graph, true).Success? ==>
      graph.Some? && forall c :: c in CyclesOf(graph, true).value ==> ClosedWalk(graph.value.edges, c)
  {
    SearchMeaning(graph, true);
  }

  /** The source's inner while loop: p follows parent links, each one appended to the
      cycle, until it meets nu; the loop is given |parent.Keys| steps. */
  method Climb(parent: map<Vertex, Vertex>, nu: set<Vertex>, start: Vertex, acc: seq<Vertex>) returns (r: Option<seq<Vertex>>)
    requires Closed(parent) && start in parent
    ensures r == ClimbFrom(parent, nu, start, |parent.Keys|, acc)
  {
    var p, cycle := start, acc;
    var fuel: nat := |parent.Keys|;
    while p !in nu && fuel > 0
      invariant p in parent
      invariant ClimbFrom(parent, nu, p, fuel, cycle) == ClimbFrom(parent, nu, start, |parent.Keys|, acc)
      decreases fuel
    {
      cycle := cycle + [p];
      p := parent[p];
      fuel := fuel - 1;
    }
    if p in nu {
      r := Some(cycle + [p]);
    } else {
      r := None;
    }
  }

  /** One turn of the loop over current's edges, on the search's four locals. */
  method VisitEdge(g: GraphData, st: SearchState, current: Vertex, currentUsed: set<Vertex>, e: Edge, fixParallel: bool)
    returns (r: Result<SearchState, CycleError>)
    requires WF(st) && current in st.used
    ensures r == EdgeStep(g, st, current, currentUsed, e, fixParallel)
  {
    var neighbour := e.destination;
    if neighbour == current {
      neighbour := e.origin;
    }
    if neighbour !in st.used {
      r := Success(st.(parent := st.parent[neighbour := current], used := st.used[neighbour := {current}], stack := st.stack + [neighbour]));
    } else if neighbour == current {
      r := Success(st.(cycles := st.cycles + [[current]]));
    } else if fixParallel && current in st.used[neighbour] {
      r := Success(st.(cycles := st.cycles + [[neighbour, current]]));
    } else if neighbour !in currentUsed {
      var neighbourUsed := st.used[neighbour];
      var cycle := Climb(st.parent, neighbourUsed, st.parent[current], [neighbour, current]);
      match cycle
      case None =>
        r := Failure(WalkDiverges);
      case Some(c) =>
        r := Success(st.(cycles := st.cycles + [c], used := st.used[neighbour := neighbourUsed + {current}]));
    } else {
      r := Success(st);
    }
  }

  /** The loop over graph.allEdges(current). */
  method WalkEdges(graph: Graph, st: SearchState, current: Vertex, currentUsed: set<Vertex>, fixParallel: bool)
    returns (r: Result<SearchState, CycleError>)
    requires WF(st) && current in st.used && st.used.Keys <= Universe(graph.View())
    ensures r == EdgesFrom(graph.View(), st, current, currentUsed, EdgesAt(graph.edges, current), 0, fixParallel)
  {
    var g := graph.View();
    var es := graph.AllEdges(current);
    var s := st;
    var i := 0;
    while i < |es|
      invariant 0 <= i <= |es|
      invariant WF(s) && current in s.used && s.used.Keys <= Universe(g)
      invariant EdgesFrom(g, s, current, currentUsed, es, i, fixParallel) == EdgesFrom(g, st, current, currentUsed, es, 0, fixParallel)
    {
      EdgeStepGrows(g, s, current, currentUsed, es[i], fixParallel);
      EdgesFromNext(g, s, current, currentUsed, es, i, fixParallel);
      var step := VisitEdge(g, s, current, currentUsed, es[i], fixParallel);
      if step.Failure? {
        return step;
      }
      s, i := step.value, i + 1;
    }
    r := Success(s);
  }

  /** The while loop that pops the stack until the component is walked. */
  method Walk(graph: Graph, st: SearchState, fixParallel: bool) returns (r: Result<SearchState, CycleError>)
    requires WF(st) && st.used.Keys <= Universe(graph.View())
    ensures r == Drain(graph.View(), st, fixParallel)
  {
    var g := graph.View();
    var s := st;
    while s.stack != []
      invariant WF(s) && s.used.Keys <= Universe(g)
      invariant Drain(g, s, fixParallel) == Drain(g, st, fixParallel)
      decreases |Universe(g) - s.used.Keys|, |s.stack|
    {
      var current := s.stack[|s.stack| - 1];
      PopWF(s);
      var currentUsed := s.used[current];
      var step := WalkEdges(graph, Pop(s), current, currentUsed, fixParallel);
      assert step == PopStep(g, s, fixParallel);
      if step.Failure? {
        return step;
      }
      PopShrinks(g, s, step.value);
      s := step.value;
    }
    r := Success(s);
  }

  /** The search object of the source: the graph it was built with. */
  class PatonSimpleCycles {
    const graph: Graph?

    constructor(graph: Graph?)
      ensures this.graph == graph
    {
      this.graph := graph;
    }

    /** findSimpleCycles as written: the loop over the vertices, each one without a
        parent rooting a rooted walk. */
    method FindSimpleCycles() returns (r: Result<seq<seq<Vertex>>, CycleError>)
      ensures r == CyclesOf(if graph == null then None else Some(graph.View()), false)
    {
      if graph == null {
        return Failure(NullGraph);
      }
      var g := graph.View();
      var st := SearchState(map[], map[], [], []);
      var vs := graph.vertices;
      for i := 0 to |vs|
        invariant WF(st) && st.stack == []
        invariant Components(g, vs[i..], st, false) == Search(Some(g), false)
      {
        var root := vs[i];
        assert vs[i..][0] == root && vs[i..][1..] == vs[i + 1..];
        if root !in st.parent {
          var rooted := st.(used := map[]);
          rooted := rooted.(parent := rooted.parent[root := root], used := rooted.used[root := {}]);
          rooted := rooted.(stack := rooted.stack + [root]);
          assert rooted == Fresh(st, root);
          FreshWF(g, st, root);
          DrainSettles(g, rooted, false);
          var walked := Walk(graph, rooted, false);
          if walked.Failure? {
            return Failure(walked.error);
          }
          st := walked.value;
        }
      }
      assert vs[|vs|..] == [];
      r := Success(st.cycles);
    }
  }
}
