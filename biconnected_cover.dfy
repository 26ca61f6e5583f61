/** What findBiconnectedComponents returns on an undirected graph without self-loops or
    parallel edges (GraphDrawingTheory/src/graph/properties/splitting/BiconnectedSplitting.java):
    the edge stack is back to empty once each root's search ends, and every edge of an
    adjacency list lies in exactly one of the components.

    The argument: while the vertex at position i scans its list, the vertices being
    searched are i and its ancestors (active); every other visited vertex is done, all
    the edges of its list pushed. An edge the scan skips leads to a done vertex, whose
    list holds it too, or to i's parent, where it is the tree edge already pushed. A
    back edge never leads out of the current root's tree, whose vertices are numbered
    from lo on, so every low value there stays at least lo; at the root (numbered lo)
    every child therefore forms a component, which pops the stack back to where it
    was. */
module BiconnectedCover {
  import opened GraphElements
  import Properties
  import opened Biconnected
  import opened BiconnectedPushes

  /** The adjacency lists of an undirected graph without self-loops or parallel edges:
      no listed edge is a loop, an edge listed anywhere is listed at both its ends, and
      two edges listed at v lead to different vertices. */
  ghost predicate Simple(g: GraphData)
  {
    && (forall v, e :: v in g.adjacentLists && e in g.adjacentLists[v] ==>
          && e.origin != e.destination
          && e.origin in g.adjacentLists && e in g.adjacentLists[e.origin]
          && e.destination in g.adjacentLists && e in g.adjacentLists[e.destination])
    && (forall v, e, f :: v in g.adjacentLists && e in g.adjacentLists[v] && f in g.adjacentLists[v] ==>
          (FarEnd(e, v) == FarEnd(f, v) ==> e == f))
  }

  /** The edge f, listed at the vertex at position a, leads to the vertex at position b. */
  ghost predicate Joins(g: GraphData, f: Edge, a: int, b: int)
  {
    && 0 <= a < |g.vertices| && 0 <= b < |g.vertices| && g.vertices[a] in g.adjacentLists
    && f in g.adjacentLists[g.vertices[a]] && FarEnd(f, g.vertices[a]) == g.vertices[b]
  }

  /** Every edge in the list of the vertex at position x has been pushed. */
  ghost predicate Done(g: GraphData, st: SplitState, x: nat)
  {
    && x < |g.vertices| && g.vertices[x] in g.adjacentLists
    && forall f :: f in g.adjacentLists[g.vertices[x]] ==> f in PushedEdges(st.pushed)
  }

  /** Every visited vertex outside active, other than the one at position i, is done. */
  ghost predicate Finished(g: GraphData, st: SplitState, active: set<nat>, i: int)
  {
    forall x: nat :: x < |g.vertices| && x < |st.visited| && st.visited[x] && x !in active && x != i ==> Done(g, st, x)
  }

  /** The vertices being searched are visited and numbered from lo on, below bound. */
  ghost predicate Ancestors(st: SplitState, active: set<nat>, lo: int, bound: int)
  {
    forall a :: a in active ==> a < |st.visited| && a < |st.d| && st.visited[a] && lo <= st.d[a] < bound
  }

  /** Every visited vertex numbered from lo on has a low value of at least lo. */
  ghost predicate LowAbove(st: SplitState, lo: int)
  {
    forall x :: 0 <= x < |st.visited| && x < |st.d| && x < |st.low| && st.visited[x] && st.d[x] >= lo ==> st.low[x] >= lo
  }

  /** The tree edge into the vertex at position c, from its parent, has been pushed. */
  ghost predicate TreeEdge(g: GraphData, st: SplitState, c: nat)
  {
    c < |st.parent| && exists f :: f in PushedEdges(st.pushed) && Joins(g, f, st.parent[c], c)
  }

  /** An edge from a to b is also listed at b and leads back to a, and a and b differ. */
  lemma Flip(g: GraphData, f: Edge, a: int, b: int)
    requires Searchable(g) && Simple(g) && Joins(g, f, a, b)
    ensures Joins(g, f, b, a) && a != b
  {
    EndsOf(g, a, f);
  }

  /** An edge leading to a done vertex has been pushed. */
  lemma DonePushes(g: GraphData, st: SplitState, x: int, y: nat, f: Edge)
    requires Searchable(g) && Simple(g) && Done(g, st, y) && Joins(g, f, x, y)
    ensures f in PushedEdges(st.pushed)
  {
    Flip(g, f, x, y);
  }

  /** An edge not yet pushed leads to a vertex that is not done. */
  lemma FreshNotDone(g: GraphData, st: SplitState, x: int, y: nat, f: Edge)
    requires Searchable(g) && Simple(g) && Joins(g, f, x, y) && f !in PushedEdges(st.pushed)
    ensures !Done(g, st, y)
  {
    Flip(g, f, x, y);
  }

  lemma PushedGrow(st: SplitState, st': SplitState)
    requires st.pushed <= st'.pushed
    ensures forall f :: f in PushedEdges(st.pushed) ==> f in PushedEdges(st'.pushed)
  {
    forall f | f in PushedEdges(st.pushed) ensures f in PushedEdges(st'.pushed) {
      var q :| 0 <= q < |st.pushed| && PushedEdges(st.pushed)[q] == f;
      assert PushedEdges(st'.pushed)[q] == f;
    }
  }

  /** More pushes and nothing newly visited: what was done stays done. */
  lemma FinishedGrow(g: GraphData, st: SplitState, st': SplitState, active: set<nat>, i: int)
    requires Finished(g, st, active, i) && st.pushed <= st'.pushed && st'.visited == st.visited
    ensures Finished(g, st', active, i)
  {
    PushedGrow(st, st');
  }

  /** A later state keeps the pushed tree edge into a visited vertex. */
  lemma TreeEdgeStable(g: GraphData, st: SplitState, st': SplitState, c: nat)
    requires Stable(st, st', |g.vertices|) && c < |g.vertices| && st.visited[c] && TreeEdge(g, st, c)
    ensures TreeEdge(g, st', c)
  {
    PushedGrow(st, st');
    var f :| f in PushedEdges(st.pushed) && Joins(g, f, st.parent[c], c);
    assert f in PushedEdges(st'.pushed) && Joins(g, f, st'.parent[c], c);
  }

  /** A later state keeps what the scan of the vertex at position i relies on: its
      number and parent, the vertices being searched and its pushed tree edge. */
  lemma AncestorsStable(g: GraphData, st: SplitState, st': SplitState, i: nat, active: set<nat>, lo: int)
    requires Stable(st, st', |g.vertices|) && i < |g.vertices| && st.visited[i]
    requires Ancestors(st, active, lo, st.d[i]) && (st.parent[i] in active ==> TreeEdge(g, st, i))
    ensures st'.d[i] == st.d[i] && st'.parent[i] == st.parent[i]
    ensures Ancestors(st', active, lo, st'.d[i]) && (st'.parent[i] in active ==> TreeEdge(g, st', i))
  {
    if st.parent[i] in active {
      TreeEdgeStable(g, st, st', i);
    }
  }

  /** formComponent on a stack without repeats, for a tree edge e pushed onto s0: what
      is left is s0. */
  lemma PopsBackTo(stack: seq<Edge>, s0: seq<Edge>, e: Edge)
    requires NoDuplicates(stack) && s0 + [e] <= stack
    ensures e in stack && FormComponent(stack, e).1 == s0
  {
    assert stack[|s0|] == e;
    var rest := FormComponent(stack, e).1;
    assert stack[|rest|] == e;
    assert |rest| == |s0|;
    assert rest == stack[..|s0|] == s0;
  }

  /** What the scan of the list es of the vertex at position i relies on from its k-th
      entry on: the search invariants, the vertices being searched (active, numbered
      from lo on, below i), every other visited vertex done, i's tree edge pushed when
      its parent is being searched, low values from lo on at least lo, and the entries
      before k pushed. */
  ghost predicate Scanning(g: GraphData, st: SplitState, i: nat, es: seq<Edge>, k: nat, active: set<nat>, lo: int)
  {
    && Searchable(g) && Simple(g) && Sized(st, |g.vertices|) && i < |g.vertices| && st.visited[i]
    && es == g.adjacentLists[g.vertices[i]] && k <= |es|
    && Numbered(st, |g.vertices|) && PushInv(g, st, -1) && Scan(st, i, es, k)
    && Ancestors(st, active, lo, st.d[i]) && lo <= st.d[i] && Finished(g, st, active, i)
    && (st.parent[i] in active ==> TreeEdge(g, st, i))
    && LowAbove(st, lo) && forall q :: 0 <= q < k ==> es[q] in PushedEdges(st.pushed)
  }

  /** dfsVisit(u) for the vertex at position i, entered below the vertices in active,
      all numbered from lo on: afterwards every visited vertex outside active is done
      and low values from lo on stay at least lo. Entered as a root (nothing active, lo
      its own number), it leaves the stack as it found it. */
  lemma {:induction false} DfsVisitCover(g: GraphData, st: SplitState, i: nat, active: set<nat>, lo: int)
    requires Searchable(g) && Simple(g) && Sized(st, |g.vertices|) && i < |g.vertices| && !st.visited[i]
    requires Numbered(st, |g.vertices|) && PushInv(g, st, i)
    requires Ancestors(st, active, lo, st.count + 1) && Finished(g, st, active, -1)
    requires st.parent[i] in active ==> TreeEdge(g, st, i)
    requires LowAbove(st, lo) && lo <= st.count + 1
    ensures var r := DfsVisit(g, st, i);
      && Finished(g, r, active, -1) && LowAbove(r, lo)
      && (active == {} && lo == st.count + 1 ==> r.stack == st.stack)
    decreases Unvisited(st), 0, 0
  {
    var es := g.adjacentLists[g.vertices[i]];
    var st0 := Visit(st, i);
    VisitShrinks(st, i);
    VisitNumbered(st, i, |g.vertices|);
    VisitPushInv(g, st, i, es);
    assert Finished(g, st0, active, i);
    assert LowAbove(st0, lo);
    assert st0.parent[i] in active ==> TreeEdge(g, st0, i);
    assert Scanning(g, st0, i, es, 0, active, lo);
    EdgesLoopCover(g, st0, i, es, 0, active, lo);
    assert Scanned(g, DfsVisit(g, st, i), i, active, lo);
  }

  /** The scan from the k-th entry on: afterwards i is done too. */
  lemma {:induction false} EdgesLoopCover(g: GraphData, st: SplitState, i: nat, es: seq<Edge>, k: nat, active: set<nat>, lo: int)
    requires Scanning(g, st, i, es, k, active, lo)
    ensures var r := EdgesLoop(g, st, i, es, k);
      && Scanned(g, r, i, active, lo)
      && (active == {} && st.d[i] == lo ==> r.stack == st.stack)
    decreases Unvisited(st), 2, |es| - k, 1
  {
    if k == |es| {
      ScanDone(g, st, i, es, active, lo);
    } else {
      EdgesLoopCoverStep(g, st, i, es, k, active, lo);
    }
  }

  /** The scan from a k-th entry that exists: one step, then the rest. */
  lemma {:induction false} EdgesLoopCoverStep(g: GraphData, st: SplitState, i: nat, es: seq<Edge>, k: nat, active: set<nat>, lo: int)
    requires Scanning(g, st, i, es, k, active, lo) && k < |es|
    ensures var r := EdgesLoop(g, st, i, es, k);
      && Scanned(g, r, i, active, lo)
      && (active == {} && st.d[i] == lo ==> r.stack == st.stack)
    decreases Unvisited(st), 2, |es| - k, 0
  {
    var st' := StepOn(g, st, i, es, k, active, lo);
    EdgesLoopCover(g, st', i, es, k + 1, active, lo);
  }

  /** After the scan of the list of the vertex at position i: every visited vertex
      outside active is done, i included, and low values from lo on are at least lo. */
  ghost predicate Scanned(g: GraphData, st: SplitState, i: nat, active: set<nat>, lo: int)
  {
    Finished(g, st, active, i) && Done(g, st, i) && LowAbove(st, lo)
  }

  /** At the end of the list, the vertex at position i is done. */
  lemma ScanDone(g: GraphData, st: SplitState, i: nat, es: seq<Edge>, active: set<nat>, lo: int)
    requires Scanning(g, st, i, es, |es|, active, lo)
    ensures Scanned(g, st, i, active, lo)
  {
    forall f | f in es ensures f in PushedEdges(st.pushed) {
      var q :| 0 <= q < |es| && es[q] == f;
    }
  }

  /** One step keeps the scan going with the k-th entry pushed. */
  lemma {:induction false} StepOn(g: GraphData, st: SplitState, i: nat, es: seq<Edge>, k: nat, active: set<nat>, lo: int)
    returns (r: SplitState)
    requires Scanning(g, st, i, es, k, active, lo) && k < |es|
    ensures r == EdgeStep(g, st, i, es[k]) && Unvisited(r) <= Unvisited(st)
    ensures EdgesLoop(g, st, i, es, k) == EdgesLoop(g, r, i, es, k + 1)
    ensures Scanning(g, r, i, es, k + 1, active, lo) && r.d[i] == st.d[i]
    ensures active == {} && st.d[i] == lo ==> r.stack == st.stack
    decreases Unvisited(st), 1, 2
  {
    r := EdgeStep(g, st, i, es[k]);
    GrowsUnvisited(st, r);
    EdgeStepCover(g, st, i, es, k, active, lo);
    EdgeStepPushes(g, st, i, es, k);
    EdgeStepNumbered(g, st, i, es[k]);
    AncestorsStable(g, st, r, i, active, lo);
  }

  /** One step of the scan: afterwards the k-th entry is pushed too. */
  lemma {:induction false} EdgeStepCover(g: GraphData, st: SplitState, i: nat, es: seq<Edge>, k: nat, active: set<nat>, lo: int)
    requires Scanning(g, st, i, es, k, active, lo) && k < |es|
    ensures var r := EdgeStep(g, st, i, es[k]);
      && Finished(g, r, active, i) && LowAbove(r, lo)
      && (forall q :: 0 <= q <= k ==> es[q] in PushedEdges(r.pushed))
      && (active == {} && st.d[i] == lo ==> r.stack == st.stack)
    decreases Unvisited(st), 1, 1
  {
    var e := es[k];
    EndsOf(g, i, e);
    var vi := Properties.IndexOf(g.vertices, FarEnd(e, g.vertices[i]));
    assert vi == Other(g, Push(e, i));
    if !st.visited[vi] {
      TreeStepCover(g, st, i, es, k, active, lo);
    } else if st.parent[i] != vi && st.d[vi] < st.d[i] {
      BackStepCover(g, st, i, es, k, active, lo);
    } else {
      SkipStepCover(g, st, i, es, k, active, lo);
    }
  }

  /** A back edge leads into active, so it keeps low values from lo on at least lo; at
      a root, where nothing is active, there is none. */
  lemma BackStepCover(g: GraphData, st: SplitState, i: nat, es: seq<Edge>, k: nat, active: set<nat>, lo: int)
    requires Scanning(g, st, i, es, k, active, lo) && k < |es|
    requires var vi := Other(g, Push(es[k], i));
      st.visited[vi] && st.parent[i] != vi && st.d[vi] < st.d[i]
    ensures var e := es[k]; var vi := Other(g, Push(e, i));
      var r := st.(stack := st.stack + [e], pushed := st.pushed + [Push(e, i)], low := st.low[i := Min(st.low[i], st.d[vi])]);
      && vi in active
      && Finished(g, r, active, i) && LowAbove(r, lo)
      && (forall q :: 0 <= q <= k ==> es[q] in PushedEdges(r.pushed))
  {
    var e := es[k];
    var vi := Other(g, Push(e, i));
    var r := st.(stack := st.stack + [e], pushed := st.pushed + [Push(e, i)], low := st.low[i := Min(st.low[i], st.d[vi])]);
    EndsOf(g, i, e);
    assert Joins(g, e, i, vi);
    BackFresh(g, st, i, es, k);
    FreshNotDone(g, st, i, vi, e);
    assert vi != i;
    assert vi in active;
    FinishedGrow(g, st, r, active, i);
    PushedGrow(st, r);
    assert e == PushedEdges(r.pushed)[|st.pushed|];
  }

  /** An edge the scan skips leads to a done vertex or is the tree edge from the
      parent: it was pushed before. */
  lemma SkipStepCover(g: GraphData, st: SplitState, i: nat, es: seq<Edge>, k: nat, active: set<nat>, lo: int)
    requires Scanning(g, st, i, es, k, active, lo) && k < |es|
    requires var vi := Other(g, Push(es[k], i));
      st.visited[vi] && !(st.parent[i] != vi && st.d[vi] < st.d[i])
    ensures es[k] in PushedEdges(st.pushed)
  {
    var e := es[k];
    var vi := Other(g, Push(e, i));
    EndsOf(g, i, e);
    assert Joins(g, e, i, vi);
    Flip(g, e, i, vi);
    if vi in active {
      assert st.parent[i] == vi;
      var f :| f in PushedEdges(st.pushed) && Joins(g, f, st.parent[i], i);
      Flip(g, f, vi, i);
      assert e == f;
    } else {
      DonePushes(g, st, i, vi, e);
    }
  }

  /** The tree-edge step: the child's search finishes everything it visits, and at a
      root the component formed pops the stack back to where it was. */
  lemma {:induction false} TreeStepCover(g: GraphData, st: SplitState, i: nat, es: seq<Edge>, k: nat, active: set<nat>, lo: int)
    requires Scanning(g, st, i, es, k, active, lo) && k < |es|
    requires !st.visited[Other(g, Push(es[k], i))]
    ensures var r := EdgeStep(g, st, i, es[k]);
      && Finished(g, r, active, i) && LowAbove(r, lo)
      && (forall q :: 0 <= q <= k ==> es[q] in PushedEdges(r.pushed))
      && (active == {} && st.d[i] == lo ==> r.stack == st.stack)
    decreases Unvisited(st), 1, 0
  {
    var e := es[k];
    var vi := Other(g, Push(e, i));
    var st1 := st.(stack := st.stack + [e], pushed := st.pushed + [Push(e, i)], parent := st.parent[vi := i]);
    TreeChildCover(g, st, i, es, k, active, lo);
    TreeTailCover(g, st, DfsVisit(g, st1, vi), i, vi, es, k, active, lo);
  }

  /** The child's search, entered through the tree edge es[k]: everything visited
      outside active and i is done afterwards, low values from lo on stay at least lo,
      and the stack has grown on top of the tree edge. */
  lemma {:induction false} TreeChildCover(g: GraphData, st: SplitState, i: nat, es: seq<Edge>, k: nat, active: set<nat>, lo: int)
    requires Scanning(g, st, i, es, k, active, lo) && k < |es|
    requires !st.visited[Other(g, Push(es[k], i))]
    ensures var e := es[k]; var vi := Other(g, Push(e, i));
      var st1 := st.(stack := st.stack + [e], pushed := st.pushed + [Push(e, i)], parent := st.parent[vi := i]);
      Unvisited(st1) == Unvisited(st) && TreeTail(g, st, DfsVisit(g, st1, vi), i, vi, es, k, active, lo)
    decreases Unvisited(st), 1, -1
  {
    var e := es[k];
    var n := |g.vertices|;
    var vi := Other(g, Push(e, i));
    var st1 := st.(stack := st.stack + [e], pushed := st.pushed + [Push(e, i)], parent := st.parent[vi := i]);
    TreeEnterCover(g, st, i, es, k, active, lo);
    DfsVisitCover(g, st1, vi, active + {i}, lo);
    DfsVisitPushes(g, st1, vi);
    var st2 := DfsVisit(g, st1, vi);
    StableTrans(st1, Visit(st1, vi), st2, n);
    StableTrans(st, st1, st2, n);
    PushedGrow(st1, st2);
  }

  /** Pushing the tree edge to the unvisited vertex at position vi and making i its
      parent: the child is entered below active and i, with its tree edge pushed. */
  lemma TreeEnterCover(g: GraphData, st: SplitState, i: nat, es: seq<Edge>, k: nat, active: set<nat>, lo: int)
    requires Scanning(g, st, i, es, k, active, lo) && k < |es|
    requires !st.visited[Other(g, Push(es[k], i))]
    ensures var e := es[k]; var vi := Other(g, Push(e, i));
      var st1 := st.(stack := st.stack + [e], pushed := st.pushed + [Push(e, i)], parent := st.parent[vi := i]);
      && Unvisited(st1) == Unvisited(st) && Numbered(st1, |g.vertices|) && PushInv(g, st1, vi)
      && Stable(st, st1, |g.vertices|)
      && Ancestors(st1, active + {i}, lo, st1.count + 1) && Finished(g, st1, active + {i}, -1)
      && TreeEdge(g, st1, vi) && LowAbove(st1, lo) && lo <= st1.count + 1
      && (forall q :: 0 <= q <= k ==> es[q] in PushedEdges(st1.pushed))
  {
    var e := es[k];
    var vi := Other(g, Push(e, i));
    EndsOf(g, i, e);
    assert Joins(g, e, i, vi);
    var st1 := st.(stack := st.stack + [e], pushed := st.pushed + [Push(e, i)], parent := st.parent[vi := i]);
    TreePushInv(g, st, i, e);
    assert Unvisited(st1) == Unvisited(st);
    PushedGrow(st, st1);
    assert e == PushedEdges(st1.pushed)[|st.pushed|];
    assert TreeEdge(g, st1, vi) by {
      assert st1.parent[vi] == i;
    }
  }

  /** The state after the child's search from the tree edge es[k] at the vertex at
      position i to the one at position vi. */
  ghost predicate TreeTail(g: GraphData, st: SplitState, st2: SplitState, i: nat, vi: nat, es: seq<Edge>, k: nat, active: set<nat>, lo: int)
  {
    && Searchable(g) && i < |g.vertices| && vi < |g.vertices| && k < |es| && Sized(st, |g.vertices|)
    && Stable(st, st2, |g.vertices|) && st.visited[i] && st2.visited[vi] && lo <= st.d[i] && lo <= st2.d[vi]
    && PushInv(g, st2, -1) && st.stack + [es[k]] <= st2.stack
    && Finished(g, st2, active + {i}, -1) && LowAbove(st2, lo)
    && forall q :: 0 <= q <= k ==> es[q] in PushedEdges(st2.pushed)
  }

  /** The end of the tree-edge step: perhaps form a component, then take the child's
      low value. */
  lemma TreeTailCover(g: GraphData, st: SplitState, st2: SplitState, i: nat, vi: nat, es: seq<Edge>, k: nat, active: set<nat>, lo: int)
    requires TreeTail(g, st, st2, i, vi, es, k, active, lo)
    ensures es[k] in st2.stack
    ensures
      var st3 :=
        if st2.low[vi] >= st2.d[i] then
          var (component, rest) := FormComponent(st2.stack, es[k]);
          st2.(stack := rest, components := st2.components + [component])
        else st2;
      var r := st3.(low := st3.low[i := Min(st3.low[i], st3.low[vi])]);
      && Finished(g, r, active, i) && LowAbove(r, lo)
      && (forall q :: 0 <= q <= k ==> es[q] in PushedEdges(r.pushed))
      && (active == {} && st.d[i] == lo ==> r.stack == st.stack)
  {
    var e := es[k];
    assert st2.stack[|st.stack|] == e;
    var st3 :=
      if st2.low[vi] >= st2.d[i] then
        var (component, rest) := FormComponent(st2.stack, e);
        st2.(stack := rest, components := st2.components + [component])
      else st2;
    if active == {} && st.d[i] == lo {
      PopsBackTo(st2.stack, st.stack, e);
    }
    var r := st3.(low := st3.low[i := Min(st3.low[i], st3.low[vi])]);
    assert Finished(g, r, active, i) by {
      forall x: nat | x < |g.vertices| && x < |r.visited| && r.visited[x] && x !in active && x != i
        ensures Done(g, r, x)
      {
        assert Done(g, st2, x);
      }
    }
  }

  /** The outer loop: with nothing active between roots, every visited vertex is done
      and the stack stays empty. */
  lemma {:induction false} OuterCover(g: GraphData, st: SplitState, k: nat)
    requires Searchable(g) && Simple(g) && Sized(st, |g.vertices|) && k <= |g.vertices|
    requires Numbered(st, |g.vertices|) && PushInv(g, st, -1) && Finished(g, st, {}, -1) && st.stack == []
    ensures var r := Outer(g, st, k);
      Finished(g, r, {}, -1) && r.stack == []
    decreases |g.vertices| - k
  {
    if k < |g.vertices| {
      Properties.IndexOfUnique(g.vertices, k);
      var st' := if !st.visited[k] then DfsVisit(g, st, k) else st;
      if !st.visited[k] {
        EnterPushInv(g, st, k);
        assert LowAbove(st, st.count + 1);
        DfsVisitCover(g, st, k, {}, st.count + 1);
        DfsVisitNumbered(g, st, k);
        DfsVisitPushes(g, st, k);
      }
      OuterCover(g, st', k + 1);
    }
  }

  /** findBiconnectedComponents on an undirected graph without self-loops or parallel
      edges: the edge stack ends empty, and every edge of every vertex's adjacency list
      lies in one of the components. */
  lemma SplitSearchCovers(g: GraphData)
    requires Searchable(g) && Simple(g)
    ensures var st := SplitSearch(g);
      && st.stack == []
      && forall v, e :: v in g.vertices && e in g.adjacentLists[v] ==> InComponent(st.components, e)
  {
    var n := |g.vertices|;
    var st0 := Initial(n);
    InitialNumbered(g);
    assert PushedEdges(st0.pushed) == [];
    OuterCover(g, st0, 0);
    OuterPushes(g, st0, 0);
    SplitSearchNumbers(g);
    var st := SplitSearch(g);
    forall v, e | v in g.vertices && e in g.adjacentLists[v] ensures InComponent(st.components, e) {
      var x := Properties.IndexOf(g.vertices, v);
      assert st.visited[x];
      assert Done(g, st, x);
    }
  }

  /** The components partition the listed edges: every edge of an adjacency list lies
      in exactly one component, and every edge of a component is a listed edge. */
  lemma FindComponentsPartition(g: GraphData)
    requires Searchable(g) && Simple(g)
    ensures var cs := FindComponentsSpec(g);
      && (forall v, e :: v in g.vertices && e in g.adjacentLists[v] ==>
            exists a :: 0 <= a < |cs| && e in cs[a].edges && forall b :: 0 <= b < |cs| && b != a ==> e !in cs[b].edges)
      && (forall c, e :: c in cs && e in c.edges ==> Listed(g, e))
  {
    var cs := FindComponentsSpec(g);
    SplitSearchCovers(g);
    SplitSearchPushes(g);
    FindComponentsValid(g);
    forall v, e | v in g.vertices && e in g.adjacentLists[v]
      ensures exists a :: 0 <= a < |cs| && e in cs[a].edges && forall b :: 0 <= b < |cs| && b != a ==> e !in cs[b].edges
    {
      assert InComponent(SplitSearch(g).components, e);
      var c :| c in cs && e in c.edges;
      var a :| 0 <= a < |cs| && cs[a] == c;
      forall b | 0 <= b < |cs| && b != a ensures e !in cs[b].edges {
        if b < a {
          assert e !in cs[a].edges ==> true;
        }
      }
    }
  }
}
