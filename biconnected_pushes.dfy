/** What findBiconnectedComponents does with its edge stack
    (GraphDrawingTheory/src/graph/properties/splitting/BiconnectedSplitting.java):
    every push is a tree edge to a child or a back edge to an earlier ancestor-side
    vertex, no edge is pushed twice, and the components formed take disjoint parts of
    what was pushed, the rest staying on the stack.

    The argument: a tree edge leads to an unvisited vertex, while every edge pushed so
    far joins two visited ones; a back edge from u to v was not pushed from v (it
    would then be v's tree edge to u, or lead from v to a vertex numbered before v),
    and not earlier from u, whose adjacency list holds a non-loop edge once. */
module BiconnectedPushes {
  import opened GraphElements
  import Properties
  import opened Biconnected

  /** The edges pushed, in order. */
  function PushedEdges(ps: seq<Push>): (r: seq<Edge>)
    ensures |r| == |ps| && forall q :: 0 <= q < |ps| ==> r[q] == ps[q].edge
  {
    seq(|ps|, q requires 0 <= q < |ps| => ps[q].edge)
  }

  /** The position of the far end of a push's edge. */
  function Other(g: GraphData, p: Push): nat
    requires Splittable(g) && p.from < |g.vertices| && p.edge in g.adjacentLists[g.vertices[p.from]]
  {
    Properties.IndexOf(g.vertices, FarEnd(p.edge, g.vertices[p.from]))
  }

  /** The push p was taken from the list of a visited vertex x and is either the tree
      edge from x to the child y (y's parent is x, and y is numbered after x unless y
      is the vertex being entered) or a back edge from x to a vertex y numbered before
      x that is not x's parent. */
  ghost predicate PushOk(g: GraphData, st: SplitState, p: Push, enter: int)
    requires Splittable(g) && Sized(st, |g.vertices|)
  {
    && p.from < |g.vertices| && p.edge in g.adjacentLists[g.vertices[p.from]] && st.visited[p.from]
    && var y := Other(g, p);
      || (st.parent[y] == p.from && (y == enter || (st.visited[y] && st.d[p.from] < st.d[y])))
      || (st.visited[y] && st.d[y] < st.d[p.from] && st.parent[p.from] != y)
  }

  /** Some component formed holds f. */
  ghost predicate InComponent(cs: seq<GraphData>, f: Edge)
  {
    exists c :: c in cs && f in c.edges
  }

  /** No edge was pushed twice, and every pushed edge is either still on the stack or in
      exactly one component. */
  ghost predicate Accounted(st: SplitState)
  {
    && NoDuplicates(PushedEdges(st.pushed))
    && NoDuplicates(st.stack)
    && Covers(PushedEdges(st.pushed), st.stack, st.components)
    && OffStack(st.components, st.stack)
    && Disjoint(st.components)
  }

  /** The pushed edges are those on the stack and those in the components. */
  ghost predicate Covers(pushed: seq<Edge>, stack: seq<Edge>, cs: seq<GraphData>)
  {
    forall f :: f in pushed <==> f in stack || InComponent(cs, f)
  }

  /** No edge of a component is on the stack. */
  ghost predicate OffStack(cs: seq<GraphData>, stack: seq<Edge>)
  {
    forall c, f :: c in cs && f in c.edges ==> f !in stack
  }

  /** No two components share an edge. */
  ghost predicate Disjoint(cs: seq<GraphData>)
  {
    forall a, b, f :: 0 <= a < b < |cs| && f in cs[a].edges ==> f !in cs[b].edges
  }

  /** Every push so far is a tree or back edge, and the pushes are accounted for. */
  ghost predicate PushInv(g: GraphData, st: SplitState, enter: int)
    requires Splittable(g)
  {
    && Sized(st, |g.vertices|)
    && (forall q :: 0 <= q < |st.pushed| ==> PushOk(g, st, st.pushed[q], enter))
    && Accounted(st)
  }

  /** What a search step leaves alone: a visited vertex stays visited with its number
      and parent, and pushes are only added. */
  ghost predicate Stable(st: SplitState, st': SplitState, n: nat)
  {
    && Sized(st, n) && Sized(st', n)
    && (forall j :: 0 <= j < n && st.visited[j] ==> st'.visited[j] && st'.d[j] == st.d[j] && st'.parent[j] == st.parent[j])
    && st.pushed <= st'.pushed
  }

  /** The pushes added from st to st' are taken from the list of the vertex at
      position i or from lists of vertices not visited in st. */
  ghost predicate NewFrom(st: SplitState, st': SplitState, i: int)
  {
    forall q :: |st.pushed| <= q < |st'.pushed| ==>
      st'.pushed[q].from == i || (st'.pushed[q].from < |st.visited| && !st.visited[st'.pushed[q].from])
  }

  /** Every push taken so far from the list es of the vertex at position i comes from
      its first k entries. */
  ghost predicate Scan(st: SplitState, i: nat, es: seq<Edge>, k: nat)
  {
    k <= |es| && forall q :: 0 <= q < |st.pushed| && st.pushed[q].from == i ==> st.pushed[q].edge in es[..k]
  }

  /** The graph as the search needs it: positions for all ends, adjacency lists for all
      vertices, and adjacency lists as Graph builds them. */
  ghost predicate Searchable(g: GraphData)
  {
    Splittable(g) && EdgesValid(g)
  }

  lemma StableTrans(a: SplitState, b: SplitState, c: SplitState, n: nat)
    requires Stable(a, b, n) && Stable(b, c, n)
    ensures Stable(a, c, n)
  {
  }

  lemma NewFromTrans(a: SplitState, b: SplitState, c: SplitState, i: int, n: nat)
    requires Stable(a, b, n) && Stable(b, c, n) && NewFrom(a, b, i) && NewFrom(b, c, i)
    ensures NewFrom(a, c, i)
  {
    forall q | |a.pushed| <= q < |c.pushed|
      ensures c.pushed[q].from == i || (c.pushed[q].from < |a.visited| && !a.visited[c.pushed[q].from])
    {
      if q < |b.pushed| {
        assert c.pushed[q] == b.pushed[q];
      }
    }
  }

  /** A push that holds for a state holds for any later state. */
  lemma PushOkStable(g: GraphData, st: SplitState, st': SplitState, p: Push)
    requires Splittable(g) && Stable(st, st', |g.vertices|) && PushOk(g, st, p, -1)
    ensures PushOk(g, st', p, -1)
  {
  }

  lemma PushInvStable(g: GraphData, st: SplitState, st': SplitState)
    requires Splittable(g) && Stable(st, st', |g.vertices|) && PushInv(g, st, -1) && Accounted(st')
    requires st'.pushed == st.pushed
    ensures PushInv(g, st', -1)
  {
    forall q | 0 <= q < |st'.pushed| ensures PushOk(g, st', st'.pushed[q], -1) {
      PushOkStable(g, st, st', st.pushed[q]);
    }
  }

  /** An edge in the adjacency list of the vertex at position x has that vertex as an
      end, and its far end's position names the other end. */
  lemma EndsOf(g: GraphData, x: nat, e: Edge)
    requires Searchable(g) && x < |g.vertices| && e in g.adjacentLists[g.vertices[x]]
    ensures e.origin == g.vertices[x] || e.destination == g.vertices[x]
    ensures FarEnd(e, g.vertices[x]) in g.vertices
  {
    assert Incidences(e, g.vertices[x]) > 0;
  }

  /** Entering the vertex at position i: pushes taken while it was being entered now
      lead to a vertex numbered after their own, and none was taken from its list. */
  lemma VisitPushInv(g: GraphData, st: SplitState, i: nat, es: seq<Edge>)
    requires Splittable(g) && i < |g.vertices| && Numbered(st, |g.vertices|) && PushInv(g, st, i) && !st.visited[i]
    ensures PushInv(g, Visit(st, i), -1) && Scan(Visit(st, i), i, es, 0)
    ensures Stable(st, Visit(st, i), |g.vertices|)
  {
    var r := Visit(st, i);
    forall q | 0 <= q < |r.pushed| ensures PushOk(g, r, r.pushed[q], -1) {
      var p := st.pushed[q];
      assert PushOk(g, st, p, i);
      assert p.from != i;
    }
    forall q | 0 <= q < |r.pushed| ensures r.pushed[q].from != i {
      assert PushOk(g, st, st.pushed[q], i);
    }
  }

  /** A push onto the stack of an edge pushed never before keeps everything accounted
      for. */
  lemma PushAccounted(st: SplitState, st': SplitState, e: Edge, x: nat)
    requires Accounted(st) && e !in PushedEdges(st.pushed)
    requires st'.stack == st.stack + [e] && st'.pushed == st.pushed + [Push(e, x)] && st'.components == st.components
    ensures Accounted(st')
  {
    var es, es' := PushedEdges(st.pushed), PushedEdges(st'.pushed);
    assert es' == es + [e];
    assert e !in st.stack;
    forall c, f | c in st'.components && f in c.edges ensures f !in st'.stack {
      assert f in es;
    }
    forall f ensures f in es' <==> f in st'.stack || InComponent(st'.components, f) {
    }
  }

  /** Forming a component moves the edges above the tree edge e from the stack into the
      new component, and keeps everything accounted for. */
  lemma FormAccounted(st: SplitState, e: Edge)
    requires Accounted(st) && e in st.stack
    ensures var (c, rest) := FormComponent(st.stack, e);
      Accounted(st.(stack := rest, components := st.components + [c]))
  {
    var (c, rest) := FormComponent(st.stack, e);
    PopComponentEdges(st.stack, e, EmptyGraph(false));
    var top := st.stack[|rest|..];
    assert st.stack == rest + top;
    SplitCovers(PushedEdges(st.pushed), rest, top, st.components, c);
    SplitOffStack(rest, top, st.components, c);
    SplitDisjoint(rest + top, st.components, c);
  }

  lemma SplitCovers(pushed: seq<Edge>, rest: seq<Edge>, top: seq<Edge>, cs: seq<GraphData>, c: GraphData)
    requires Covers(pushed, rest + top, cs) && forall f :: f in c.edges <==> f in top
    ensures Covers(pushed, rest, cs + [c])
  {
    forall f ensures f in pushed <==> f in rest || InComponent(cs + [c], f) {
      if InComponent(cs + [c], f) {
        var c' :| c' in cs + [c] && f in c'.edges;
        if c' != c {
          assert c' in cs;
        }
      }
      if InComponent(cs, f) {
        var c' :| c' in cs && f in c'.edges;
        assert c' in cs + [c];
      }
      if f in top {
        assert c in cs + [c];
      }
    }
  }

  lemma SplitOffStack(rest: seq<Edge>, top: seq<Edge>, cs: seq<GraphData>, c: GraphData)
    requires NoDuplicates(rest + top) && OffStack(cs, rest + top) && forall f :: f in c.edges <==> f in top
    ensures OffStack(cs + [c], rest) && NoDuplicates(rest)
  {
    var stack := rest + top;
    forall c', f | c' in cs + [c] && f in c'.edges ensures f !in rest {
      if c' in cs {
        assert f !in stack;
      } else {
        var t :| 0 <= t < |top| && top[t] == f;
        assert stack[|rest| + t] == f;
        forall s | 0 <= s < |rest| ensures rest[s] != f {
          assert stack[s] == rest[s];
        }
      }
    }
    forall a, b | 0 <= a < b < |rest| ensures rest[a] != rest[b] {
      assert stack[a] == rest[a] && stack[b] == rest[b];
    }
  }

  lemma SplitDisjoint(stack: seq<Edge>, cs: seq<GraphData>, c: GraphData)
    requires Disjoint(cs) && OffStack(cs, stack) && forall f :: f in c.edges ==> f in stack
    ensures Disjoint(cs + [c])
  {
    var cs' := cs + [c];
    forall a, b, f | 0 <= a < b < |cs'| && f in cs'[a].edges ensures f !in cs'[b].edges {
      assert cs'[a] == cs[a];
      if b == |cs| {
        assert cs[a] in cs;
      } else {
        assert cs'[b] == cs[b];
      }
    }
  }

  /** A non-loop edge sits at most once in an adjacency list. */
  lemma ListedOnce(es: seq<Edge>, k: nat, e: Edge, u: Vertex)
    requires k < |es| && es[k] == e && multiset(es)[e] <= Incidences(e, u) && Incidences(e, u) == 1
    ensures e !in es[..k]
  {
    assert es == es[..k] + es[k..];
    assert multiset(es) == multiset(es[..k]) + multiset(es[k..]);
    assert e in es[k..];
  }

  /** A tree edge leads to an unvisited vertex, so it was never pushed. */
  lemma TreeFresh(g: GraphData, st: SplitState, i: nat, e: Edge)
    requires Searchable(g) && i < |g.vertices| && e in g.adjacentLists[g.vertices[i]]
    requires PushInv(g, st, -1) && !st.visited[Other(g, Push(e, i))]
    ensures e !in PushedEdges(st.pushed)
  {
    var u := g.vertices[i];
    var vi := Other(g, Push(e, i));
    if e in PushedEdges(st.pushed) {
      var q :| 0 <= q < |st.pushed| && PushedEdges(st.pushed)[q] == e;
      var p := st.pushed[q];
      assert PushOk(g, st, p, -1);
      EndsOf(g, p.from, e);
      EndsOf(g, i, e);
      var w := g.vertices[p.from];
      Properties.IndexOfUnique(g.vertices, p.from);
      assert false;
    }
  }

  /** A back edge from u to v at entry k of u's list was not pushed before: not from
      v, which would make it v's tree edge to u or lead from v to a vertex numbered
      before v, and not from u, which holds it once. */
  lemma BackFresh(g: GraphData, st: SplitState, i: nat, es: seq<Edge>, k: nat)
    requires Searchable(g) && i < |g.vertices| && es == g.adjacentLists[g.vertices[i]] && k < |es|
    requires PushInv(g, st, -1) && Scan(st, i, es, k)
    requires var vi := Other(g, Push(es[k], i));
      st.visited[vi] && st.parent[i] != vi && st.d[vi] < st.d[i]
    ensures es[k] !in PushedEdges(st.pushed)
  {
    var e, u := es[k], g.vertices[i];
    var vi := Other(g, Push(e, i));
    EndsOf(g, i, e);
    var v := FarEnd(e, u);
    assert vi != i;
    assert v != u;
    assert Incidences(e, u) == 1;
    if e in PushedEdges(st.pushed) {
      var q :| 0 <= q < |st.pushed| && PushedEdges(st.pushed)[q] == e;
      var p := st.pushed[q];
      assert PushOk(g, st, p, -1);
      EndsOf(g, p.from, e);
      var w := g.vertices[p.from];
      Properties.IndexOfUnique(g.vertices, p.from);
      Properties.IndexOfUnique(g.vertices, i);
      if w == u {
        assert p.from == i;
        ListedOnce(es, k, e, u);
        assert false;
      } else {
        assert false;
      }
    }
  }

  /** Pushing the tree edge e to the unvisited vertex at position vi and making i its
      parent: the invariant holds with vi as the vertex being entered. */
  lemma TreePushInv(g: GraphData, st: SplitState, i: nat, e: Edge)
    requires Searchable(g) && i < |g.vertices| && e in g.adjacentLists[g.vertices[i]]
    requires PushInv(g, st, -1) && st.visited[i] && !st.visited[Other(g, Push(e, i))]
    ensures var vi := Other(g, Push(e, i));
      var st1 := st.(stack := st.stack + [e], pushed := st.pushed + [Push(e, i)], parent := st.parent[vi := i]);
      PushInv(g, st1, vi) && Stable(st, st1, |g.vertices|)
  {
    var vi := Other(g, Push(e, i));
    var st1 := st.(stack := st.stack + [e], pushed := st.pushed + [Push(e, i)], parent := st.parent[vi := i]);
    TreeFresh(g, st, i, e);
    PushAccounted(st, st1, e, i);
    forall q | 0 <= q < |st1.pushed| ensures PushOk(g, st1, st1.pushed[q], vi) {
      if q < |st.pushed| {
        var p := st.pushed[q];
        assert PushOk(g, st, p, -1);
        assert Other(g, p) != vi;
      }
    }
  }

  /** Pushing the back edge es[k] from the vertex at position i. */
  lemma BackPushInv(g: GraphData, st: SplitState, i: nat, es: seq<Edge>, k: nat)
    requires Searchable(g) && i < |g.vertices| && es == g.adjacentLists[g.vertices[i]] && k < |es|
    requires PushInv(g, st, -1) && st.visited[i] && Scan(st, i, es, k)
    requires var vi := Other(g, Push(es[k], i));
      st.visited[vi] && st.parent[i] != vi && st.d[vi] < st.d[i]
    ensures var e := es[k]; var vi := Other(g, Push(e, i));
      var r := st.(stack := st.stack + [e], pushed := st.pushed + [Push(e, i)], low := st.low[i := Min(st.low[i], st.d[vi])]);
      PushInv(g, r, -1) && Stable(st, r, |g.vertices|) && Scan(r, i, es, k + 1)
  {
    var e := es[k];
    var vi := Other(g, Push(e, i));
    var r := st.(stack := st.stack + [e], pushed := st.pushed + [Push(e, i)], low := st.low[i := Min(st.low[i], st.d[vi])]);
    BackFresh(g, st, i, es, k);
    PushAccounted(st, r, e, i);
    assert es[..k + 1] == es[..k] + [e];
    forall q | 0 <= q < |r.pushed| ensures PushOk(g, r, r.pushed[q], -1) {
      if q < |st.pushed| {
        assert PushOk(g, st, st.pushed[q], -1);
      }
    }
  }

  /** dfsVisit keeps the invariant: every push is a tree or back edge, no edge is pushed
      twice, and the pushes are accounted for. */
  lemma {:induction false} DfsVisitPushes(g: GraphData, st: SplitState, i: nat)
    requires Searchable(g) && Sized(st, |g.vertices|) && i < |g.vertices| && !st.visited[i]
    requires Numbered(st, |g.vertices|) && PushInv(g, st, i)
    ensures var r := DfsVisit(g, st, i);
      PushInv(g, r, -1) && Stable(Visit(st, i), r, |g.vertices|) && NewFrom(st, r, -1)
    decreases Unvisited(st), 0, 0
  {
    var es := g.adjacentLists[g.vertices[i]];
    VisitShrinks(st, i);
    VisitNumbered(st, i, |g.vertices|);
    VisitPushInv(g, st, i, es);
    EdgesLoopPushes(g, Visit(st, i), i, es, 0);
  }

  lemma {:induction false} EdgesLoopPushes(g: GraphData, st: SplitState, i: nat, es: seq<Edge>, k: nat)
    requires Searchable(g) && Sized(st, |g.vertices|) && i < |g.vertices| && st.visited[i]
    requires es == g.adjacentLists[g.vertices[i]] && k <= |es|
    requires Numbered(st, |g.vertices|) && PushInv(g, st, -1) && Scan(st, i, es, k)
    ensures var r := EdgesLoop(g, st, i, es, k);
      PushInv(g, r, -1) && Stable(st, r, |g.vertices|) && NewFrom(st, r, i)
    decreases Unvisited(st), 2, |es| - k
  {
    if k < |es| {
      EdgeStepPushes(g, st, i, es, k);
      EdgeStepNumbered(g, st, i, es[k]);
      var st' := EdgeStep(g, st, i, es[k]);
      GrowsUnvisited(st, st');
      EdgesLoopPushes(g, st', i, es, k + 1);
      var r := EdgesLoop(g, st', i, es, k + 1);
      StableTrans(st, st', r, |g.vertices|);
      NewFromTrans(st, st', r, i, |g.vertices|);
    }
  }

  lemma {:induction false} EdgeStepPushes(g: GraphData, st: SplitState, i: nat, es: seq<Edge>, k: nat)
    requires Searchable(g) && Sized(st, |g.vertices|) && i < |g.vertices| && st.visited[i]
    requires es == g.adjacentLists[g.vertices[i]] && k < |es|
    requires Numbered(st, |g.vertices|) && PushInv(g, st, -1) && Scan(st, i, es, k)
    ensures var r := EdgeStep(g, st, i, es[k]);
      PushInv(g, r, -1) && Stable(st, r, |g.vertices|) && NewFrom(st, r, i) && Scan(r, i, es, k + 1)
    decreases Unvisited(st), 1, 1
  {
    var e := es[k];
    var vi := Properties.IndexOf(g.vertices, FarEnd(e, g.vertices[i]));
    assert vi == Other(g, Push(e, i));
    if !st.visited[vi] {
      TreeStepPushes(g, st, i, es, k);
    } else if st.parent[i] != vi && st.d[vi] < st.d[i] {
      BackPushInv(g, st, i, es, k);
    } else {
      assert es[..k + 1] == es[..k] + [e];
    }
  }

  /** The tree-edge branch of one step: push, search the child, perhaps form a
      component, and take the child's low value. */
  lemma {:induction false} TreeStepPushes(g: GraphData, st: SplitState, i: nat, es: seq<Edge>, k: nat)
    requires Searchable(g) && Sized(st, |g.vertices|) && i < |g.vertices| && st.visited[i]
    requires es == g.adjacentLists[g.vertices[i]] && k < |es|
    requires Numbered(st, |g.vertices|) && PushInv(g, st, -1) && Scan(st, i, es, k)
    requires !st.visited[Other(g, Push(es[k], i))]
    ensures var r := EdgeStep(g, st, i, es[k]);
      PushInv(g, r, -1) && Stable(st, r, |g.vertices|) && NewFrom(st, r, i) && Scan(r, i, es, k + 1)
    decreases Unvisited(st), 1, 0
  {
    var e := es[k];
    var n := |g.vertices|;
    var vi := Other(g, Push(e, i));
    var st1 := st.(stack := st.stack + [e], pushed := st.pushed + [Push(e, i)], parent := st.parent[vi := i]);
    TreePushInv(g, st, i, e);
    assert Unvisited(st1) == Unvisited(st);
    assert Numbered(st1, n);
    DfsVisitPushes(g, st1, vi);
    var st2 := DfsVisit(g, st1, vi);
    ChildPushes(g, st, st1, st2, i, es, k);
    assert st2.stack[|st.stack|] == e;
    TreeTail(g, st, st2, i, vi, es, k);
  }

  /** After the child search: the pushes so far satisfy the bookkeeping of the scan of
      the list of the vertex at position i. */
  lemma ChildPushes(g: GraphData, st: SplitState, st1: SplitState, st2: SplitState, i: nat, es: seq<Edge>, k: nat)
    requires Searchable(g) && Sized(st, |g.vertices|) && i < |g.vertices| && st.visited[i]
    requires es == g.adjacentLists[g.vertices[i]] && k < |es| && Scan(st, i, es, k)
    requires var vi := Other(g, Push(es[k], i));
      && !st.visited[vi]
      && st1 == st.(stack := st.stack + [es[k]], pushed := st.pushed + [Push(es[k], i)], parent := st.parent[vi := i])
      && Stable(Visit(st1, vi), st2, |g.vertices|) && NewFrom(st1, st2, -1)
    ensures Stable(st, st2, |g.vertices|) && NewFrom(st, st2, i) && Scan(st2, i, es, k + 1)
  {
    var n := |g.vertices|;
    var e := es[k];
    var vi := Other(g, Push(e, i));
    StableTrans(st, Visit(st1, vi), st2, n);
    assert es[..k + 1] == es[..k] + [e];
    forall q | |st.pushed| <= q < |st2.pushed|
      ensures st2.pushed[q].from == i || (st2.pushed[q].from < |st.visited| && !st.visited[st2.pushed[q].from])
    {
      if q == |st.pushed| {
        assert st2.pushed[q] == st1.pushed[q];
      }
    }
    forall q | 0 <= q < |st2.pushed| && st2.pushed[q].from == i ensures st2.pushed[q].edge in es[..k + 1] {
      if q < |st.pushed| {
        assert st.pushed[q] == st2.pushed[q];
      } else if q == |st.pushed| {
        assert st2.pushed[q] == st1.pushed[q];
      }
    }
  }

  /** The end of the tree-edge step: perhaps form a component, then take the child's
      low value; the pushes are unchanged. */
  lemma TreeTail(g: GraphData, st: SplitState, st2: SplitState, i: nat, vi: nat, es: seq<Edge>, k: nat)
    requires Searchable(g) && i < |g.vertices| && vi < |g.vertices| && k < |es|
    requires PushInv(g, st2, -1) && Stable(st, st2, |g.vertices|) && NewFrom(st, st2, i) && Scan(st2, i, es, k + 1)
    requires |st.stack| < |st2.stack| && st2.stack[|st.stack|] == es[k]
    ensures
      var st3 :=
        if st2.low[vi] >= st2.d[i] then
          var (component, rest) := FormComponent(st2.stack, es[k]);
          st2.(stack := rest, components := st2.components + [component])
        else st2;
      var r := st3.(low := st3.low[i := Min(st3.low[i], st3.low[vi])]);
      PushInv(g, r, -1) && Stable(st, r, |g.vertices|) && NewFrom(st, r, i) && Scan(r, i, es, k + 1)
  {
    var e := es[k];
    var st3 :=
      if st2.low[vi] >= st2.d[i] then
        var (component, rest) := FormComponent(st2.stack, e);
        st2.(stack := rest, components := st2.components + [component])
      else st2;
    if st2.low[vi] >= st2.d[i] {
      assert e in st2.stack;
      FormAccounted(st2, e);
      PushInvStable(g, st2, st3);
    }
    var r := st3.(low := st3.low[i := Min(st3.low[i], st3.low[vi])]);
    PushInvStable(g, st3, r);
  }

  /** Before a new root is entered, every push already holds with that root as the
      vertex being entered. */
  lemma EnterPushInv(g: GraphData, st: SplitState, k: nat)
    requires Splittable(g) && k < |g.vertices| && PushInv(g, st, -1) && !st.visited[k]
    ensures PushInv(g, st, k)
  {
    forall q | 0 <= q < |st.pushed| ensures PushOk(g, st, st.pushed[q], k) {
      assert PushOk(g, st, st.pushed[q], -1);
    }
  }

  /** The outer loop keeps the invariant. */
  lemma {:induction false} OuterPushes(g: GraphData, st: SplitState, k: nat)
    requires Searchable(g) && Sized(st, |g.vertices|) && k <= |g.vertices|
    requires Numbered(st, |g.vertices|) && PushInv(g, st, -1)
    ensures PushInv(g, Outer(g, st, k), -1)
    decreases |g.vertices| - k
  {
    if k < |g.vertices| {
      Properties.IndexOfUnique(g.vertices, k);
      var st' := if !st.visited[k] then DfsVisit(g, st, k) else st;
      if !st.visited[k] {
        EnterPushInv(g, st, k);
        DfsVisitNumbered(g, st, k);
        DfsVisitPushes(g, st, k);
      }
      OuterPushes(g, st', k + 1);
    }
  }

  /** findBiconnectedComponents pushes no edge twice, and every push is either the tree
      edge from a vertex x to its child y (y's parent is x, y numbered after x) or a back
      edge from x to a vertex y numbered before x other than x's parent, taken from x's
      adjacency list. The components hold disjoint sets of pushed edges, none of them
      left on the stack, and the pushed edges are exactly the edges of the components
      and those left on the stack. */
  lemma SplitSearchPushes(g: GraphData)
    requires Searchable(g)
    ensures var st := SplitSearch(g);
      && NoDuplicates(PushedEdges(st.pushed))
      && (forall q :: 0 <= q < |st.pushed| ==> PushOk(g, st, st.pushed[q], -1))
      && (forall f :: f in PushedEdges(st.pushed) <==> f in st.stack || InComponent(st.components, f))
      && (forall c, f :: c in st.components && f in c.edges ==> f !in st.stack)
      && (forall a, b, f :: 0 <= a < b < |st.components| && f in st.components[a].edges ==> f !in st.components[b].edges)
  {
    InitialNumbered(g);
    var st0 := Initial(|g.vertices|);
    assert PushedEdges(st0.pushed) == [];
    OuterPushes(g, st0, 0);
  }
}
