/** Structural queries on a graph (GraphDrawingTheory/src/graph/properties/GraphProperties.java):
    connectivity and cut vertices by a depth-first search that fills six arrays indexed
    by a vertex's position in the vertex list, the tree test, tree leaves, the parallel
    edges between each pair of vertices and the ring test.

    The search is specified by the functions Dfs, DfsAdj and DfsStep on a DfsState whose
    six sequences are the six arrays; the class DfsArrays follows the source's recursion
    on real arrays and is proved equal to them. The source's arrays hold Java objects
    that start as null: visited, depth, low, childCount and isArticulation are only ever
    set together, when a vertex is visited, so `null` in them is "not visited" here, and
    parent, which is tested against null, is an Option. */
module Properties {
  import opened Wrappers
  import opened GraphElements

  /** The source indexes its arrays by a vertex's position in the vertex list: every
      vertex is listed once, and the ends of every edge in an adjacency list are listed. */
  ghost predicate Indexed(g: GraphData)
  {
    && NoDuplicates(g.vertices)
    && forall v, e :: v in g.adjacentLists && e in g.adjacentLists[v] ==> e.origin in g.vertices && e.destination in g.vertices
  }

  /** indexOf: the first position of v. */
  function IndexOf(vs: seq<Vertex>, v: Vertex): (r: nat)
    requires v in vs
    ensures r < |vs| && vs[r] == v && v !in vs[..r]
  {
    if vs[0] == v then 0
    else
      var r := 1 + IndexOf(vs[1..], v);
      assert vs[..r] == [vs[0]] + vs[1..][..r - 1];
      r
  }

  /** In a list without duplicates the position of a vertex is the only one holding it. */
  lemma IndexOfUnique(vs: seq<Vertex>, j: nat)
    requires NoDuplicates(vs) && j < |vs|
    ensures IndexOf(vs, vs[j]) == j
  {
    var r := IndexOf(vs, vs[j]);
    assert vs[r] == vs[j];
  }

  /** Every adjacent vertex of a listed graph is listed. */
  lemma AdjacentAreListed(g: GraphData, v: Vertex)
    requires Indexed(g)
    ensures forall u :: u in AdjacentVerticesSpec(g, v) ==> u in g.vertices
  {
    if v in g.adjacentLists {
      var es := g.adjacentLists[v];
      NeighbourFoldSpec(es, v);
      forall u | u in AdjacentVerticesSpec(g, v) ensures u in g.vertices {
        var i :| 0 <= i < |es| && Neighbour(es[i], v) == u;
        assert es[i] in es;
      }
    }
  }

  function Min(a: int, b: int): (m: int)
    ensures m <= a && m <= b && (m == a || m == b)
  {
    if a <= b then a else b
  }

  /** The six arrays of the search: visited, depth, low, parent (a position, or None
      for null), childCount and isArticulation. */
  datatype DfsState = DfsState(
    visited: seq<bool>,
    depth: seq<int>,
    low: seq<int>,
    parent: seq<Option<nat>>,
    childCount: seq<int>,
    isArticulation: seq<bool>)

  /** All six arrays have length n. */
  predicate Sized(st: DfsState, n: nat)
  {
    && |st.visited| == n && |st.depth| == n && |st.low| == n
    && |st.parent| == n && |st.childCount| == n && |st.isArticulation| == n
  }

  /** The positions not yet visited. */
  function Unvisited(st: DfsState): set<nat>
  {
    set j: nat | j < |st.visited| && !st.visited[j]
  }

  /** Nothing visited is forgotten. */
  ghost predicate Grows(st: DfsState, st': DfsState)
  {
    |st'.visited| == |st.visited| && forall j :: 0 <= j < |st.visited| && st.visited[j] ==> st'.visited[j]
  }

  lemma GrowsUnvisited(st: DfsState, st': DfsState)
    requires Grows(st, st')
    ensures Unvisited(st') <= Unvisited(st)
  {
  }

  /** Entering a vertex at position i and depth d. */
  function Visit(st: DfsState, i: nat, d: int): (r: DfsState)
    requires i < |st.visited| && Sized(st, |st.visited|)
  {
    st.(visited := st.visited[i := true], depth := st.depth[i := d], low := st.low[i := d],
        childCount := st.childCount[i := 0], isArticulation := st.isArticulation[i := false])
  }

  lemma VisitShrinks(st: DfsState, i: nat, d: int)
    requires i < |st.visited| && Sized(st, |st.visited|) && !st.visited[i]
    ensures Grows(st, Visit(st, i, d)) && Unvisited(Visit(st, i, d)) < Unvisited(st)
  {
    assert i in Unvisited(st) && i !in Unvisited(Visit(st, i, d));
  }

  /** dfs(current, d): the vertex is marked, then its adjacent vertices are taken in turn. */
  function Dfs(g: GraphData, st: DfsState, current: Vertex, d: int): (r: DfsState)
    requires Indexed(g) && current in g.vertices && Sized(st, |g.vertices|)
    requires !st.visited[IndexOf(g.vertices, current)]
    ensures Sized(r, |g.vertices|) && Grows(st, r) && Unvisited(r) < Unvisited(st)
    decreases Unvisited(st), 0, 0
  {
    var i := IndexOf(g.vertices, current);
    var adj := AdjacentVerticesSpec(g, current);
    VisitShrinks(st, i, d);
    AdjacentAreListed(g, current);
    var r := DfsAdj(g, Visit(st, i, d), i, d, adj, 0);
    GrowsUnvisited(Visit(st, i, d), r);
    r
  }

  /** The loop over the adjacent vertices of the vertex at position i, from the k-th on. */
  function DfsAdj(g: GraphData, st: DfsState, i: nat, d: int, adj: seq<Vertex>, k: nat): (r: DfsState)
    requires Indexed(g) && Sized(st, |g.vertices|) && i < |g.vertices| && st.visited[i]
    requires (forall u :: u in adj ==> u in g.vertices) && k <= |adj|
    ensures Sized(r, |g.vertices|) && Grows(st, r) && r.visited[i]
    decreases Unvisited(st), 2, |adj| - k
  {
    if k == |adj| then st
    else
      var st' := DfsStep(g, st, i, d, adj[k]);
      GrowsUnvisited(st, st');
      DfsAdj(g, st', i, d, adj, k + 1)
  }

  /** One adjacent vertex: an unvisited one becomes a child, is searched, and passes its
      low value up (setting isArticulation when it cannot climb above i); a visited one
      other than i's parent lowers low[i] to its depth. */
  function DfsStep(g: GraphData, st: DfsState, i: nat, d: int, adjacent: Vertex): (r: DfsState)
    requires Indexed(g) && Sized(st, |g.vertices|) && i < |g.vertices| && st.visited[i]
    requires adjacent in g.vertices
    ensures Sized(r, |g.vertices|) && Grows(st, r) && r.visited[i]
    decreases Unvisited(st), 1, 0
  {
    var ni := IndexOf(g.vertices, adjacent);
    if !st.visited[ni] then
      var st2 := Dfs(g, st.(parent := st.parent[ni := Some(i)]), adjacent, d + 1);
      st2.(childCount := st2.childCount[i := st2.childCount[i] + 1],
           isArticulation := if st2.low[ni] >= st2.depth[i] then st2.isArticulation[i := true] else st2.isArticulation,
           low := st2.low[i := Min(st2.low[i], st2.low[ni])])
    else if st.parent[i].None? || ni != st.parent[i].value then
      st.(low := st.low[i := Min(st.low[i], st.depth[ni])])
    else st
  }

  /** The six fresh arrays: every entry null. */
  function Initial(n: nat): (st: DfsState)
    ensures Sized(st, n) && forall j :: 0 <= j < n ==> !st.visited[j]
  {
    DfsState(seq(n, _ => false), seq(n, _ => 0), seq(n, _ => 0), seq(n, _ => None), seq(n, _ => 0), seq(n, _ => false))
  }

  /** The search from the first vertex, as isConnected and getCutVertices start it;
      None for a graph without vertices, where the source's get(0) throws. */
  function SearchFromFirst(g: GraphData): (r: Option<DfsState>)
    requires Indexed(g)
    ensures r.Some? ==> Sized(r.value, |g.vertices|)
  {
    if g.vertices == [] then None
    else
      IndexOfUnique(g.vertices, 0);
      Some(Dfs(g, Initial(|g.vertices|), g.vertices[0], 0))
  }

  /** Reachability along adjacent vertices. */
  ghost predicate StepAt(g: GraphData, p: seq<Vertex>, j: int)
  {
    0 <= j < |p| - 1 && p[j + 1] in AdjacentVerticesSpec(g, p[j])
  }

  ghost predicate Walk(g: GraphData, p: seq<Vertex>)
  {
    |p| >= 1 && forall j :: 0 <= j < |p| - 1 ==> StepAt(g, p, j)
  }

  ghost predicate Reaches(g: GraphData, u: Vertex, v: Vertex)
  {
    exists p :: Walk(g, p) && p[0] == u && p[|p| - 1] == v
  }

  lemma ReachesSelf(g: GraphData, u: Vertex)
    ensures Reaches(g, u, u)
  {
    assert Walk(g, [u]);
  }

  /** A walk from an adjacent vertex extends back to u. */
  lemma ReachesPrepend(g: GraphData, u: Vertex, w: Vertex, v: Vertex)
    requires w in AdjacentVerticesSpec(g, u) && Reaches(g, w, v)
    ensures Reaches(g, u, v)
  {
    var p :| Walk(g, p) && p[0] == w && p[|p| - 1] == v;
    var q := [u] + p;
    forall j | 0 <= j < |q| - 1 ensures StepAt(g, q, j) {
      if j > 0 {
        assert StepAt(g, p, j - 1);
      }
    }
    assert Walk(g, q) && q[0] == u && q[|q| - 1] == v;
  }

  /** The positions visited in st' that were not visited in st. */
  ghost predicate NewAt(st: DfsState, st': DfsState, j: int)
  {
    0 <= j < |st.visited| && j < |st'.visited| && !st.visited[j] && st'.visited[j]
  }

  /** Soundness: what a search from current newly visits is reachable from current. */
  lemma {:induction false} DfsReaches(g: GraphData, st: DfsState, current: Vertex, d: int)
    requires Indexed(g) && current in g.vertices && Sized(st, |g.vertices|)
    requires !st.visited[IndexOf(g.vertices, current)]
    ensures forall j :: NewAt(st, Dfs(g, st, current, d), j) ==> Reaches(g, current, g.vertices[j])
    decreases Unvisited(st), 0, 0
  {
    var i := IndexOf(g.vertices, current);
    var adj := AdjacentVerticesSpec(g, current);
    var st1 := Visit(st, i, d);
    VisitShrinks(st, i, d);
    AdjacentAreListed(g, current);
    DfsAdjReaches(g, st1, i, d, adj, 0);
    ReachesSelf(g, current);
    assert Dfs(g, st, current, d) == DfsAdj(g, st1, i, d, adj, 0);
    forall j | NewAt(st, Dfs(g, st, current, d), j) ensures Reaches(g, current, g.vertices[j]) {
      if j != i {
        assert NewAt(st1, DfsAdj(g, st1, i, d, adj, 0), j);
      }
    }
  }

  lemma {:induction false} DfsAdjReaches(g: GraphData, st: DfsState, i: nat, d: int, adj: seq<Vertex>, k: nat)
    requires Indexed(g) && Sized(st, |g.vertices|) && i < |g.vertices| && st.visited[i]
    requires adj == AdjacentVerticesSpec(g, g.vertices[i])
    requires (forall u :: u in adj ==> u in g.vertices) && k <= |adj|
    ensures forall j :: NewAt(st, DfsAdj(g, st, i, d, adj, k), j) ==> Reaches(g, g.vertices[i], g.vertices[j])
    decreases Unvisited(st), 2, |adj| - k
  {
    if k < |adj| {
      var st' := DfsStep(g, st, i, d, adj[k]);
      GrowsUnvisited(st, st');
      DfsStepReaches(g, st, i, d, adj[k]);
      DfsAdjReaches(g, st', i, d, adj, k + 1);
      var r := DfsAdj(g, st', i, d, adj, k + 1);
      assert DfsAdj(g, st, i, d, adj, k) == r;
      forall j | NewAt(st, r, j) ensures Reaches(g, g.vertices[i], g.vertices[j]) {
        if st'.visited[j] {
          assert NewAt(st, st', j);
        } else {
          assert NewAt(st', r, j);
        }
      }
    }
  }

  lemma {:induction false} DfsStepReaches(g: GraphData, st: DfsState, i: nat, d: int, adjacent: Vertex)
    requires Indexed(g) && Sized(st, |g.vertices|) && i < |g.vertices| && st.visited[i]
    requires adjacent in AdjacentVerticesSpec(g, g.vertices[i]) && adjacent in g.vertices
    ensures forall j :: NewAt(st, DfsStep(g, st, i, d, adjacent), j) ==> Reaches(g, g.vertices[i], g.vertices[j])
    decreases Unvisited(st), 1, 0
  {
    var ni := IndexOf(g.vertices, adjacent);
    if !st.visited[ni] {
      var st1 := st.(parent := st.parent[ni := Some(i)]);
      DfsReaches(g, st1, adjacent, d + 1);
      var st2 := Dfs(g, st1, adjacent, d + 1);
      forall j | NewAt(st, DfsStep(g, st, i, d, adjacent), j) ensures Reaches(g, g.vertices[i], g.vertices[j]) {
        assert NewAt(st1, st2, j);
        ReachesPrepend(g, g.vertices[i], adjacent, g.vertices[j]);
      }
    }
  }

  /** w is a listed vertex whose position st has visited. */
  ghost predicate Seen(g: GraphData, st: DfsState, w: Vertex)
  {
    w in g.vertices && |st.visited| == |g.vertices| && st.visited[IndexOf(g.vertices, w)]
  }

  /** Every vertex adjacent to the one at position j is visited. */
  ghost predicate ClosedAt(g: GraphData, st: DfsState, j: int)
  {
    0 <= j < |g.vertices| && forall w :: w in AdjacentVerticesSpec(g, g.vertices[j]) ==> Seen(g, st, w)
  }

  lemma ClosedGrows(g: GraphData, st: DfsState, st': DfsState, j: int)
    requires Grows(st, st') && ClosedAt(g, st, j)
    ensures ClosedAt(g, st', j)
  {
  }

  /** Closure: after a search from current, current and all it newly visited have all
      their adjacent vertices visited. */
  lemma {:induction false} DfsCloses(g: GraphData, st: DfsState, current: Vertex, d: int)
    requires Indexed(g) && current in g.vertices && Sized(st, |g.vertices|)
    requires !st.visited[IndexOf(g.vertices, current)]
    ensures Seen(g, Dfs(g, st, current, d), current)
    ensures forall j :: NewAt(st, Dfs(g, st, current, d), j) ==> ClosedAt(g, Dfs(g, st, current, d), j)
    decreases Unvisited(st), 0, 0
  {
    var i := IndexOf(g.vertices, current);
    var adj := AdjacentVerticesSpec(g, current);
    var st1 := Visit(st, i, d);
    VisitShrinks(st, i, d);
    AdjacentAreListed(g, current);
    DfsAdjCloses(g, st1, i, d, adj, 0);
    var r := DfsAdj(g, st1, i, d, adj, 0);
    assert Dfs(g, st, current, d) == r;
    forall j | NewAt(st, r, j) ensures ClosedAt(g, r, j) {
      if j != i {
        assert NewAt(st1, r, j);
      } else {
        forall w | w in adj ensures Seen(g, r, w) {
          var m :| 0 <= m < |adj| && adj[m] == w;
        }
      }
    }
  }

  lemma {:induction false} DfsAdjCloses(g: GraphData, st: DfsState, i: nat, d: int, adj: seq<Vertex>, k: nat)
    requires Indexed(g) && Sized(st, |g.vertices|) && i < |g.vertices| && st.visited[i]
    requires (forall u :: u in adj ==> u in g.vertices) && k <= |adj|
    ensures forall m :: k <= m < |adj| ==> Seen(g, DfsAdj(g, st, i, d, adj, k), adj[m])
    ensures forall j :: NewAt(st, DfsAdj(g, st, i, d, adj, k), j) ==> ClosedAt(g, DfsAdj(g, st, i, d, adj, k), j)
    decreases Unvisited(st), 2, |adj| - k
  {
    if k < |adj| {
      var st' := DfsStep(g, st, i, d, adj[k]);
      GrowsUnvisited(st, st');
      DfsStepCloses(g, st, i, d, adj[k]);
      DfsAdjCloses(g, st', i, d, adj, k + 1);
      var r := DfsAdj(g, st', i, d, adj, k + 1);
      assert DfsAdj(g, st, i, d, adj, k) == r;
      assert Seen(g, r, adj[k]);
      forall j | NewAt(st, r, j) ensures ClosedAt(g, r, j) {
        if st'.visited[j] {
          assert NewAt(st, st', j);
          ClosedGrows(g, st', r, j);
        } else {
          assert NewAt(st', r, j);
        }
      }
    }
  }

  lemma {:induction false} DfsStepCloses(g: GraphData, st: DfsState, i: nat, d: int, adjacent: Vertex)
    requires Indexed(g) && Sized(st, |g.vertices|) && i < |g.vertices| && st.visited[i]
    requires adjacent in g.vertices
    ensures Seen(g, DfsStep(g, st, i, d, adjacent), adjacent)
    ensures forall j :: NewAt(st, DfsStep(g, st, i, d, adjacent), j) ==> ClosedAt(g, DfsStep(g, st, i, d, adjacent), j)
    decreases Unvisited(st), 1, 0
  {
    var ni := IndexOf(g.vertices, adjacent);
    if !st.visited[ni] {
      var st1 := st.(parent := st.parent[ni := Some(i)]);
      DfsCloses(g, st1, adjacent, d + 1);
      var st2 := Dfs(g, st1, adjacent, d + 1);
      var r := DfsStep(g, st, i, d, adjacent);
      assert r.visited == st2.visited;
      forall j | NewAt(st, r, j) ensures ClosedAt(g, r, j) {
        assert NewAt(st1, st2, j);
      }
    }
  }

  /** Along a walk out of a visited vertex, in a state closed at every visited position,
      every vertex is visited. */
  lemma {:induction false} WalkSeen(g: GraphData, st: DfsState, p: seq<Vertex>)
    requires Indexed(g) && Sized(st, |g.vertices|) && Walk(g, p) && Seen(g, st, p[0])
    requires forall j :: 0 <= j < |g.vertices| && st.visited[j] ==> ClosedAt(g, st, j)
    ensures Seen(g, st, p[|p| - 1])
    decreases |p|
  {
    if |p| > 1 {
      var q := p[..|p| - 1];
      assert Walk(g, q) by {
        forall j | 0 <= j < |q| - 1 ensures StepAt(g, q, j) {
          assert StepAt(g, p, j);
        }
      }
      WalkSeen(g, st, q);
      var u := q[|q| - 1];
      assert StepAt(g, p, |p| - 2);
      assert ClosedAt(g, st, IndexOf(g.vertices, u));
    }
  }

  /** The search from the first vertex visits exactly the vertices reachable from it. */
  lemma SearchVisitsReachable(g: GraphData)
    requires Indexed(g) && g.vertices != []
    ensures var st := SearchFromFirst(g).value;
      forall j :: 0 <= j < |g.vertices| ==> (st.visited[j] <==> Reaches(g, g.vertices[0], g.vertices[j]))
  {
    var vs := g.vertices;
    var st0 := Initial(|vs|);
    IndexOfUnique(vs, 0);
    var st := Dfs(g, st0, vs[0], 0);
    assert SearchFromFirst(g).value == st;
    DfsReaches(g, st0, vs[0], 0);
    DfsCloses(g, st0, vs[0], 0);
    assert forall j :: 0 <= j < |vs| && st.visited[j] ==> NewAt(st0, st, j);
    forall j | 0 <= j < |vs| && Reaches(g, vs[0], vs[j]) ensures st.visited[j] {
      var p :| Walk(g, p) && p[0] == vs[0] && p[|p| - 1] == vs[j];
      WalkSeen(g, st, p);
      IndexOfUnique(vs, j);
    }
  }

  /** isConnected: None where the source's get(0) throws on a graph without vertices;
      otherwise whether the search left no position unvisited. */
  function IsConnectedSpec(g: GraphData): Option<bool>
    requires Indexed(g)
  {
    match SearchFromFirst(g)
    case None => None
    case Some(st) => Some(forall j :: 0 <= j < |st.visited| ==> st.visited[j])
  }

  /** The graph is connected exactly when every vertex is reachable from the first. */
  lemma IsConnectedMeans(g: GraphData)
    requires Indexed(g)
    ensures g.vertices == [] <==> IsConnectedSpec(g).None?
    ensures g.vertices != [] ==>
      IsConnectedSpec(g) == Some(forall v :: v in g.vertices ==> Reaches(g, g.vertices[0], v))
  {
    if g.vertices != [] {
      var vs := g.vertices;
      SearchVisitsReachable(g);
      var st := SearchFromFirst(g).value;
      if forall v :: v in vs ==> Reaches(g, vs[0], v) {
        forall j | 0 <= j < |st.visited| ensures st.visited[j] {
          assert vs[j] in vs;
        }
      } else {
        var v :| v in vs && !Reaches(g, vs[0], v);
        var j := IndexOf(vs, v);
        assert !st.visited[j];
      }
    }
  }

  /** Every visited position has low no deeper than its depth. */
  ghost predicate LowOk(st: DfsState)
  {
    forall j :: 0 <= j < |st.visited| && j < |st.low| && j < |st.depth| && st.visited[j] ==> st.low[j] <= st.depth[j]
  }

  /** The depth of a position visited in st never changes. */
  ghost predicate DepthKept(st: DfsState, st': DfsState)
  {
    forall j :: 0 <= j < |st.visited| && j < |st.depth| && j < |st'.depth| && st.visited[j] ==> st'.depth[j] == st.depth[j]
  }

  lemma {:induction false} DfsLow(g: GraphData, st: DfsState, current: Vertex, d: int)
    requires Indexed(g) && current in g.vertices && Sized(st, |g.vertices|)
    requires !st.visited[IndexOf(g.vertices, current)] && LowOk(st)
    ensures LowOk(Dfs(g, st, current, d)) && DepthKept(st, Dfs(g, st, current, d))
    decreases Unvisited(st), 0, 0
  {
    var i := IndexOf(g.vertices, current);
    var adj := AdjacentVerticesSpec(g, current);
    var st1 := Visit(st, i, d);
    VisitShrinks(st, i, d);
    AdjacentAreListed(g, current);
    DfsAdjLow(g, st1, i, d, adj, 0);
    assert Dfs(g, st, current, d) == DfsAdj(g, st1, i, d, adj, 0);
  }

  lemma {:induction false} DfsAdjLow(g: GraphData, st: DfsState, i: nat, d: int, adj: seq<Vertex>, k: nat)
    requires Indexed(g) && Sized(st, |g.vertices|) && i < |g.vertices| && st.visited[i]
    requires (forall u :: u in adj ==> u in g.vertices) && k <= |adj| && LowOk(st)
    ensures LowOk(DfsAdj(g, st, i, d, adj, k)) && DepthKept(st, DfsAdj(g, st, i, d, adj, k))
    decreases Unvisited(st), 2, |adj| - k
  {
    if k < |adj| {
      var st' := DfsStep(g, st, i, d, adj[k]);
      GrowsUnvisited(st, st');
      DfsStepLow(g, st, i, d, adj[k]);
      DfsAdjLow(g, st', i, d, adj, k + 1);
      assert DfsAdj(g, st, i, d, adj, k) == DfsAdj(g, st', i, d, adj, k + 1);
    }
  }

  lemma {:induction false} DfsStepLow(g: GraphData, st: DfsState, i: nat, d: int, adjacent: Vertex)
    requires Indexed(g) && Sized(st, |g.vertices|) && i < |g.vertices| && st.visited[i]
    requires adjacent in g.vertices && LowOk(st)
    ensures LowOk(DfsStep(g, st, i, d, adjacent)) && DepthKept(st, DfsStep(g, st, i, d, adjacent))
    decreases Unvisited(st), 1, 0
  {
    var ni := IndexOf(g.vertices, adjacent);
    if !st.visited[ni] {
      var st1 := st.(parent := st.parent[ni := Some(i)]);
      DfsLow(g, st1, adjacent, d + 1);
    }
  }

  /** The six arrays dfs fills, allocated null (false, 0 or None) as isConnected and
      getCutVertices allocate them. */
  class DfsArrays {
    const visited: array<bool>
    const depth: array<int>
    const low: array<int>
    const parent: array<Option<nat>>
    const childCount: array<int>
    const isArticulation: array<bool>

    /** Six distinct arrays of length n. */
    ghost predicate Valid(n: nat)
      reads this
    {
      && visited.Length == n && depth.Length == n && low.Length == n
      && parent.Length == n && childCount.Length == n && isArticulation.Length == n
      && depth != low && depth != childCount && low != childCount && visited != isArticulation
    }

    function State(): DfsState
      reads this, visited, depth, low, parent, childCount, isArticulation
    {
      DfsState(visited[..], depth[..], low[..], parent[..], childCount[..], isArticulation[..])
    }

    constructor(n: nat)
      ensures Valid(n) && State() == Initial(n)
      ensures fresh(visited) && fresh(depth) && fresh(low) && fresh(parent) && fresh(childCount) && fresh(isArticulation)
    {
      visited := new bool[n](_ => false);
      depth := new int[n](_ => 0);
      low := new int[n](_ => 0);
      parent := new Option<nat>[n](_ => None);
      childCount := new int[n](_ => 0);
      isArticulation := new bool[n](_ => false);
    }

    /** dfs(graph, current, d, ...). */
    method DepthFirst(graph: Graph, current: Vertex, d: int)
      requires Valid(|graph.vertices|) && Indexed(graph.View()) && current in graph.vertices
      requires !visited[IndexOf(graph.vertices, current)]
      modifies visited, depth, low, parent, childCount, isArticulation
      ensures State() == Dfs(graph.View(), old(State()), current, d)
      decreases Unvisited(State()), 0
    {
      var g := graph.View();
      ghost var st := State();
      var i := IndexOf(graph.vertices, current);
      visited[i] := true;
      depth[i] := d;
      low[i] := d;
      childCount[i] := 0;
      isArticulation[i] := false;
      assert State() == Visit(st, i, d);
      VisitShrinks(st, i, d);
      var adj := graph.AdjacentVertices(current);
      AdjacentAreListed(g, current);
      var k := 0;
      while k < |adj|
        invariant k <= |adj| && Sized(State(), |g.vertices|) && visited[i]
        invariant Unvisited(State()) < Unvisited(st)
        invariant DfsAdj(g, State(), i, d, adj, k) == Dfs(g, st, current, d)
      {
        ghost var before := State();
        Step(graph, i, d, adj[k]);
        GrowsUnvisited(before, State());
        k := k + 1;
      }
    }

    /** One turn of dfs's loop over the adjacent vertices. */
    method Step(graph: Graph, i: nat, d: int, adjacent: Vertex)
      requires Valid(|graph.vertices|) && Indexed(graph.View()) && i < |graph.vertices| && visited[i]
      requires adjacent in graph.vertices
      modifies visited, depth, low, parent, childCount, isArticulation
      ensures State() == DfsStep(graph.View(), old(State()), i, d, adjacent)
      decreases Unvisited(State()), 2
    {
      var ni := IndexOf(graph.vertices, adjacent);
      if !visited[ni] {
        Descend(graph, i, d, adjacent, ni);
      } else if parent[i].None? || ni != parent[i].value {
        low[i] := Min(low[i], depth[ni]);
      }
    }

    /** An unvisited adjacent vertex at position ni: it becomes i's child and is searched,
        then i counts it and takes its low value. */
    method Descend(graph: Graph, i: nat, d: int, adjacent: Vertex, ni: nat)
      requires Valid(|graph.vertices|) && Indexed(graph.View()) && i < |graph.vertices| && visited[i]
      requires adjacent in graph.vertices && ni == IndexOf(graph.vertices, adjacent) && !visited[ni]
      modifies visited, depth, low, parent, childCount, isArticulation
      ensures State() == DfsStep(graph.View(), old(State()), i, d, adjacent)
      decreases Unvisited(State()), 1
    {
      ghost var st := State();
      parent[ni] := Some(i);
      assert State() == st.(parent := st.parent[ni := Some(i)]);
      DepthFirst(graph, adjacent, d + 1);
      ghost var st2 := State();
      childCount[i] := childCount[i] + 1;
      if low[ni] >= depth[i] {
        isArticulation[i] := true;
      }
      low[i] := Min(low[i], low[ni]);
      assert childCount[..] == st2.childCount[i := st2.childCount[i] + 1];
      assert low[..] == st2.low[i := Min(st2.low[i], st2.low[ni])];
      assert visited[..] == st2.visited && depth[..] == st2.depth && parent[..] == st2.parent;
    }
  }

  /** getCutVertices' test at position j: a vertex with a parent whose isArticulation is
      set, or a vertex without one (the start) with more than one child. */
  predicate IsCut(st: DfsState, j: nat)
    requires j < |st.parent| && j < |st.isArticulation| && j < |st.childCount|
  {
    (st.parent[j].Some? && st.isArticulation[j]) || (st.parent[j].None? && st.childCount[j] > 1)
  }

  /** The vertices among the first i positions that pass the test, in list order. */
  function CutsUpTo(vs: seq<Vertex>, st: DfsState, i: nat): seq<Vertex>
    requires i <= |vs| && Sized(st, |vs|)
  {
    if i == 0 then []
    else CutsUpTo(vs, st, i - 1) + (if IsCut(st, i - 1) then [vs[i - 1]] else [])
  }

  lemma {:induction false} CutsUpToMembers(vs: seq<Vertex>, st: DfsState, i: nat)
    requires NoDuplicates(vs) && i <= |vs| && Sized(st, |vs|)
    ensures forall v :: v in CutsUpTo(vs, st, i) <==> v in vs[..i] && IsCut(st, IndexOf(vs, v))
  {
    if i > 0 {
      CutsUpToMembers(vs, st, i - 1);
      assert vs[..i] == vs[..i - 1] + [vs[i - 1]];
      IndexOfUnique(vs, i - 1);
      forall v | v in vs[..i - 1] ensures IndexOf(vs, v) < i - 1 {
        var m :| 0 <= m < i - 1 && vs[m] == v;
        IndexOfUnique(vs, m);
      }
    }
  }

  /** getCutVertices: None where get(0) throws on a graph without vertices, and where the
      test meets an unvisited position, whose childCount or isArticulation is still null. */
  function CutVerticesSpec(g: GraphData): Option<seq<Vertex>>
    requires Indexed(g)
  {
    match SearchFromFirst(g)
    case None => None
    case Some(st) =>
      if forall j :: 0 <= j < |st.visited| ==> st.visited[j] then Some(CutsUpTo(g.vertices, st, |g.vertices|))
      else None
  }

  /** The cut vertices are defined exactly on a connected graph, and then they are the
      vertices passing the test, each once. */
  lemma CutVerticesMeans(g: GraphData)
    requires Indexed(g)
    ensures CutVerticesSpec(g).Some? <==> IsConnectedSpec(g) == Some(true)
    ensures CutVerticesSpec(g).Some? ==>
      forall v :: v in CutVerticesSpec(g).value <==> v in g.vertices && IsCut(SearchFromFirst(g).value, IndexOf(g.vertices, v))
  {
    if g.vertices != [] {
      CutsUpToMembers(g.vertices, SearchFromFirst(g).value, |g.vertices|);
      assert g.vertices[..|g.vertices|] == g.vertices;
    }
  }

  /** isBiconnected: no cut vertices; None where getCutVertices throws. */
  function IsBiconnectedSpec(g: GraphData): Option<bool>
    requires Indexed(g)
  {
    match CutVerticesSpec(g)
    case None => None
    case Some(cuts) => Some(|cuts| == 0)
  }

  lemma IsBiconnectedMeans(g: GraphData)
    requires Indexed(g)
    ensures IsBiconnectedSpec(g).Some? <==> IsConnectedSpec(g) == Some(true)
    ensures IsBiconnectedSpec(g) == Some(true) <==>
      IsConnectedSpec(g) == Some(true) && forall v :: v in g.vertices ==> !IsCut(SearchFromFirst(g).value, IndexOf(g.vertices, v))
  {
    CutVerticesMeans(g);
    if CutVerticesSpec(g).Some? {
      var cuts := CutVerticesSpec(g).value;
      if |cuts| > 0 {
        assert cuts[0] in cuts;
      }
    }
  }

  /** isTree, with the result of isCyclic (a traversal outside this model) as a parameter,
      None where it throws; isConnected is not called when the graph is cyclic. */
  function IsTreeSpec(g: GraphData, cyclic: Option<bool>): Option<bool>
    requires Indexed(g)
  {
    match cyclic
    case None => None
    case Some(c) => if c then Some(false) else IsConnectedSpec(g)
  }

  /** A tree is an acyclic graph whose every vertex is reachable from the first. */
  lemma IsTreeMeans(g: GraphData, cyclic: bool)
    requires Indexed(g) && g.vertices != []
    ensures IsTreeSpec(g, Some(cyclic)) == Some(!cyclic && forall v :: v in g.vertices ==> Reaches(g, g.vertices[0], v))
  {
    IsConnectedMeans(g);
  }

  /** treeLeaves' test: a vertex other than root whose adjacency list has one edge. */
  predicate LeafAt(g: GraphData, root: Vertex, v: Vertex)
  {
    v != root && v in g.adjacentLists && |g.adjacentLists[v]| == 1
  }

  /** The first i vertices passing the leaf test, in list order. */
  function LeavesUpTo(g: GraphData, root: Vertex, i: nat): seq<Vertex>
    requires i <= |g.vertices|
  {
    if i == 0 then []
    else LeavesUpTo(g, root, i - 1) + (if LeafAt(g, root, g.vertices[i - 1]) then [g.vertices[i - 1]] else [])
  }

  /** treeLeaves(root): None where a vertex other than root has no adjacency list (the
      source's size() on null throws). */
  function TreeLeavesSpec(g: GraphData, root: Vertex): Option<seq<Vertex>>
  {
    if exists v :: v in g.vertices && v != root && v !in g.adjacentLists then None
    else Some(LeavesUpTo(g, root, |g.vertices|))
  }

  lemma {:induction false} LeavesUpToMembers(g: GraphData, root: Vertex, i: nat)
    requires i <= |g.vertices|
    ensures forall v :: v in LeavesUpTo(g, root, i) <==> v in g.vertices[..i] && LeafAt(g, root, v)
  {
    if i > 0 {
      LeavesUpToMembers(g, root, i - 1);
      assert g.vertices[..i] == g.vertices[..i - 1] + [g.vertices[i - 1]];
    }
  }

  /** The leaves are the listed vertices other than root with exactly one adjacent edge;
      a graph that keeps an adjacency list for every vertex always has them. */
  lemma TreeLeavesMeans(g: GraphData, root: Vertex)
    ensures TreeLeavesSpec(g, root).Some? ==>
      forall v :: v in TreeLeavesSpec(g, root).value <==> v in g.vertices && v != root && v in g.adjacentLists && |g.adjacentLists[v]| == 1
    ensures Valid(g) ==> TreeLeavesSpec(g, root).Some?
  {
    LeavesUpToMembers(g, root, |g.vertices|);
    assert g.vertices[..|g.vertices|] == g.vertices;
  }

  /** The edges of es whose destination is w, in list order. */
  function DestIs(es: seq<Edge>, w: Vertex): (r: seq<Edge>)
    ensures forall e :: e in r <==> e in es && e.destination == w
  {
    if es == [] then []
    else DestIs(es[..|es| - 1], w) + (if es[|es| - 1].destination == w then [es[|es| - 1]] else [])
  }

  /** edgeesBetween(v1, v2) (Graph.java): the edges in v1's adjacency list that end at
      v2 and, in an undirected graph, those in v2's list that end at v1. */
  function EdgesBetweenSpec(g: GraphData, v1: Vertex, v2: Vertex): seq<Edge>
  {
    (if v1 in g.adjacentLists then DestIs(g.adjacentLists[v1], v2) else [])
    + (if !g.directed && v2 in g.adjacentLists then DestIs(g.adjacentLists[v2], v1) else [])
  }

  /** Every edge edgeesBetween reports ends at one of the two vertices: at v2 when it
      comes from v1's list, at v1 when it comes from v2's. */
  lemma EdgesBetweenEnds(g: GraphData, v1: Vertex, v2: Vertex)
    ensures forall e :: e in EdgesBetweenSpec(g, v1, v2) ==>
      (v1 in g.adjacentLists && e in g.adjacentLists[v1] && e.destination == v2)
      || (!g.directed && v2 in g.adjacentLists && e in g.adjacentLists[v2] && e.destination == v1)
  {
  }

  /** The edge runs between v1 and v2: from v1 to v2 or, in an undirected graph, the
      other way round. */
  predicate Joins(g: GraphData, e: Edge, v1: Vertex, v2: Vertex)
  {
    (e.origin == v1 && e.destination == v2) || (!g.directed && e.origin == v2 && e.destination == v1)
  }

  /** The edges of es joining v1 and v2, in list order. */
  function Joining(g: GraphData, es: seq<Edge>, v1: Vertex, v2: Vertex): seq<Edge>
  {
    if es == [] then []
    else Joining(g, es[..|es| - 1], v1, v2) + (if Joins(g, es[|es| - 1], v1, v2) then [es[|es| - 1]] else [])
  }

  /** Exactly the edges of es that join v1 and v2 are picked. */
  lemma {:induction false} JoiningMembers(g: GraphData, es: seq<Edge>, v1: Vertex, v2: Vertex)
    ensures forall e :: e in Joining(g, es, v1, v2) <==> e in es && Joins(g, e, v1, v2)
  {
    if es != [] {
      JoiningMembers(g, es[..|es| - 1], v1, v2);
      assert es == es[..|es| - 1] + [es[|es| - 1]];
    }
  }

  /** Picking the joining edges out of a list without duplicates repeats none. */
  lemma {:induction false} JoiningDistinct(g: GraphData, es: seq<Edge>, v1: Vertex, v2: Vertex)
    requires NoDuplicates(es)
    ensures NoDuplicates(Joining(g, es, v1, v2))
  {
    if es != [] {
      var init := es[..|es| - 1];
      assert NoDuplicates(init);
      JoiningDistinct(g, init, v1, v2);
      JoiningMembers(g, init, v1, v2);
      assert es[|es| - 1] !in init;
    }
  }

  /** The edges listMultiEdges reports for a pair: edgeesBetween as written, or, with
      fixPairs, the graph's edges joining the two vertices, each once. */
  function PairLists(g: GraphData, fixPairs: bool): (Vertex, Vertex) -> seq<Edge>
  {
    if fixPairs then (v1, v2) => Joining(g, g.edges, v1, v2) else (v1, v2) => EdgesBetweenSpec(g, v1, v2)
  }

  /** The lists with more than one edge between vs[i] and vs[j], for i <= j < n in
      turn, as lists gives them. */
  function Row(vs: seq<Vertex>, lists: (Vertex, Vertex) -> seq<Edge>, i: nat, j: nat): seq<seq<Edge>>
    requires i < |vs| && j <= |vs|
  {
    if j <= i then []
    else
      var between := lists(vs[i], vs[j - 1]);
      Row(vs, lists, i, j - 1) + (if |between| > 1 then [between] else [])
  }

  /** One more position of a row. */
  lemma RowStep(vs: seq<Vertex>, lists: (Vertex, Vertex) -> seq<Edge>, i: nat, j: nat, row: seq<seq<Edge>>, between: seq<Edge>)
    requires i <= j < |vs| && row == Row(vs, lists, i, j) && between == lists(vs[i], vs[j])
    ensures row + (if |between| > 1 then [between] else []) == Row(vs, lists, i, j + 1)
  {
  }

  /** The rows of the first i vertices. */
  function MultiUpTo(vs: seq<Vertex>, lists: (Vertex, Vertex) -> seq<Edge>, i: nat): seq<seq<Edge>>
    requires i <= |vs|
  {
    if i == 0 then [] else MultiUpTo(vs, lists, i - 1) + Row(vs, lists, i - 1, |vs|)
  }

  /** listMultiEdges: over the pairs of positions i <= j, the lists PairLists gives
      that hold more than one edge. */
  function ListMultiEdgesSpec(g: GraphData, fixPairs: bool): seq<seq<Edge>>
  {
    MultiUpTo(g.vertices, PairLists(g, fixPairs), |g.vertices|)
  }

  /** The list for positions a and b is reported: it has more than one edge. */
  ghost predicate ReportedAt(vs: seq<Vertex>, lists: (Vertex, Vertex) -> seq<Edge>, a: nat, b: nat, l: seq<Edge>)
  {
    a < |vs| && b < |vs| && l == lists(vs[a], vs[b]) && |l| > 1
  }

  /** Every list in the row of position i, up to j, is reported for i and a position k
      between i and j. */
  lemma {:induction false} RowSound(vs: seq<Vertex>, lists: (Vertex, Vertex) -> seq<Edge>, i: nat, j: nat, l: seq<Edge>)
    requires i < |vs| && j <= |vs| && l in Row(vs, lists, i, j)
    ensures exists k :: i <= k < j && ReportedAt(vs, lists, i, k, l)
  {
    var between := lists(vs[i], vs[j - 1]);
    var tail := if |between| > 1 then [between] else [];
    assert Row(vs, lists, i, j) == Row(vs, lists, i, j - 1) + tail;
    if l in tail {
      assert ReportedAt(vs, lists, i, j - 1, l);
    } else {
      RowSound(vs, lists, i, j - 1, l);
    }
  }

  /** A list reported for i and a position k between i and j is in the row of i up to j. */
  lemma {:induction false} RowComplete(vs: seq<Vertex>, lists: (Vertex, Vertex) -> seq<Edge>, i: nat, j: nat, k: nat, l: seq<Edge>)
    requires i <= k < j <= |vs| && ReportedAt(vs, lists, i, k, l)
    ensures l in Row(vs, lists, i, j)
  {
    var between := lists(vs[i], vs[j - 1]);
    var tail := if |between| > 1 then [between] else [];
    assert Row(vs, lists, i, j) == Row(vs, lists, i, j - 1) + tail;
    if k == j - 1 {
      assert l in tail;
    } else {
      RowComplete(vs, lists, i, j - 1, k, l);
    }
  }

  /** Every list in the rows of the first i positions is reported for a pair of
      positions a <= b with a < i. */
  lemma {:induction false} MultiUpToSound(vs: seq<Vertex>, lists: (Vertex, Vertex) -> seq<Edge>, i: nat, l: seq<Edge>)
    requires i <= |vs| && l in MultiUpTo(vs, lists, i)
    ensures exists a, b :: 0 <= a < i && a <= b && ReportedAt(vs, lists, a, b, l)
  {
    var before, row := MultiUpTo(vs, lists, i - 1), Row(vs, lists, i - 1, |vs|);
    assert MultiUpTo(vs, lists, i) == before + row;
    if l in row {
      RowSound(vs, lists, i - 1, |vs|, l);
      var k :| i - 1 <= k < |vs| && ReportedAt(vs, lists, i - 1, k, l);
      assert 0 <= i - 1 < i && i - 1 <= k;
    } else {
      MultiUpToSound(vs, lists, i - 1, l);
    }
  }

  /** A list reported for positions a <= b with a < i is in the rows of the first i
      positions. */
  lemma {:induction false} MultiUpToComplete(vs: seq<Vertex>, lists: (Vertex, Vertex) -> seq<Edge>, i: nat, a: nat, b: nat, l: seq<Edge>)
    requires a < i <= |vs| && a <= b && ReportedAt(vs, lists, a, b, l)
    ensures l in MultiUpTo(vs, lists, i)
    decreases i
  {
    var before, row := MultiUpTo(vs, lists, i - 1), Row(vs, lists, i - 1, |vs|);
    if a == i - 1 {
      RowComplete(vs, lists, a, |vs|, b, l);
    } else {
      MultiUpToComplete(vs, lists, i - 1, a, b, l);
    }
    InEither(l, before, row);
    MultiUpToStep(vs, lists, i);
  }

  /** The rows of the first i positions end with the row of position i - 1. */
  lemma MultiUpToStep(vs: seq<Vertex>, lists: (Vertex, Vertex) -> seq<Edge>, i: nat)
    requires 0 < i <= |vs|
    ensures MultiUpTo(vs, lists, i) == MultiUpTo(vs, lists, i - 1) + Row(vs, lists, i - 1, |vs|)
  {
  }

  /** What is in either part is in the concatenation. */
  lemma InEither<T>(x: T, s: seq<T>, t: seq<T>)
    requires x in s || x in t
    ensures x in s + t
  {
  }

  /** listMultiEdges lists, for every pair of positions a <= b, what edgeesBetween gives
      for them whenever that has more than one edge, and nothing else. */
  lemma ListMultiEdgesMeans(g: GraphData)
    ensures forall l :: l in ListMultiEdgesSpec(g, false) <==>
      exists a, b :: 0 <= a <= b < |g.vertices| && l == EdgesBetweenSpec(g, g.vertices[a], g.vertices[b]) && |l| > 1
  {
    forall l ensures l in ListMultiEdgesSpec(g, false) <==>
      exists a, b :: 0 <= a <= b < |g.vertices| && l == EdgesBetweenSpec(g, g.vertices[a], g.vertices[b]) && |l| > 1
    {
      if l in ListMultiEdgesSpec(g, false) {
        MultiUpToSound(g.vertices, PairLists(g, false), |g.vertices|, l);
        var a, b :| 0 <= a < |g.vertices| && a <= b && ReportedAt(g.vertices, PairLists(g, false), a, b, l);
      }
      if exists a, b :: 0 <= a <= b < |g.vertices| && l == EdgesBetweenSpec(g, g.vertices[a], g.vertices[b]) && |l| > 1 {
        var a, b :| 0 <= a <= b < |g.vertices| && l == EdgesBetweenSpec(g, g.vertices[a], g.vertices[b]) && |l| > 1;
        assert ReportedAt(g.vertices, PairLists(g, false), a, b, l);
        MultiUpToComplete(g.vertices, PairLists(g, false), |g.vertices|, a, b, l);
      }
    }
  }

  /** With the pairs handled, every reported list holds at least two distinct edges of
      the graph, all joining the same two listed vertices, and every edge joining them;
      each pair of vertices with two or more edges between them is reported. */
  lemma ListMultiEdgesIntended(g: GraphData)
    requires NoDuplicates(g.edges)
    ensures forall l :: l in ListMultiEdgesSpec(g, true) ==>
      |l| > 1 && NoDuplicates(l) &&
      exists a, b :: 0 <= a <= b < |g.vertices| &&
        forall e :: e in l <==> e in g.edges && Joins(g, e, g.vertices[a], g.vertices[b])
    ensures forall a, b :: 0 <= a <= b < |g.vertices| && |Joining(g, g.edges, g.vertices[a], g.vertices[b])| > 1 ==>
      Joining(g, g.edges, g.vertices[a], g.vertices[b]) in ListMultiEdgesSpec(g, true)
  {
    forall l | l in ListMultiEdgesSpec(g, true)
      ensures |l| > 1 && NoDuplicates(l) &&
        exists a, b :: 0 <= a <= b < |g.vertices| &&
          forall e :: e in l <==> e in g.edges && Joins(g, e, g.vertices[a], g.vertices[b])
    {
      MultiUpToSound(g.vertices, PairLists(g, true), |g.vertices|, l);
      var a, b :| 0 <= a < |g.vertices| && a <= b && ReportedAt(g.vertices, PairLists(g, true), a, b, l);
      JoiningDistinct(g, g.edges, g.vertices[a], g.vertices[b]);
      JoiningMembers(g, g.edges, g.vertices[a], g.vertices[b]);
    }
    forall a, b | 0 <= a <= b < |g.vertices| && |Joining(g, g.edges, g.vertices[a], g.vertices[b])| > 1
      ensures Joining(g, g.edges, g.vertices[a], g.vertices[b]) in ListMultiEdgesSpec(g, true)
    {
      assert ReportedAt(g.vertices, PairLists(g, true), a, b, Joining(g, g.edges, g.vertices[a], g.vertices[b]));
      MultiUpToComplete(g.vertices, PairLists(g, true), |g.vertices|, a, b, Joining(g, g.edges, g.vertices[a], g.vertices[b]));
    }
  }

  /** isRing's walk: from the current edge take its destination, or its origin when the
      destination was already traversed; record both; continue along the other edge of
      that vertex's adjacency list, failing where it does not have exactly two. After as
      many steps as there are edges the source compares the number of traversed vertices
      with the number of vertices; with fixEnd it asks instead that every vertex was
      traversed. None where an adjacency list is missing (size() on null). */
  function RingWalk(g: GraphData, current: Edge, traversedVertices: seq<Vertex>, traversedEdges: seq<Edge>, fixEnd: bool): Option<bool>
    decreases |g.edges| - |traversedEdges|
  {
    if |traversedEdges| >= |g.edges| then
      if fixEnd then Some(forall v | v in g.vertices :: v in traversedVertices)
      else Some(|traversedVertices| == |g.vertices|)
    else
      var next := if current.destination in traversedVertices then current.origin else current.destination;
      if next !in g.adjacentLists then None
      else
        var adjacent := g.adjacentLists[next];
        if |adjacent| != 2 then Some(false)
        else RingWalk(g, if adjacent[0] == current then adjacent[1] else adjacent[0], traversedVertices + [next], traversedEdges + [current], fixEnd)
  }

  /** isRing: false unless there are as many vertices as edges; None where there are
      none of either (get(0) on the empty edge list throws). */
  function IsRingSpec(g: GraphData, fixEnd: bool): Option<bool>
  {
    if |g.vertices| != |g.edges| then Some(false)
    else if g.edges == [] then None
    else RingWalk(g, g.edges[0], [], [], fixEnd)
  }

  /** The vertex has an adjacency list of exactly two edges. */
  ghost predicate Degree2(g: GraphData, v: Vertex)
  {
    v in g.adjacentLists && |g.adjacentLists[v]| == 2
  }

  /** A walk that accepts ends with the traversed vertices t, which extend tv by
      vertices of degree two and number as many as the graph's vertices or, with fixEnd,
      include all of them. */
  lemma {:induction false} RingWalkAccepts(g: GraphData, current: Edge, tv: seq<Vertex>, te: seq<Edge>, fixEnd: bool) returns (t: seq<Vertex>)
    requires RingWalk(g, current, tv, te, fixEnd) == Some(true)
    ensures |tv| <= |t| && t[..|tv|] == tv
    ensures forall k :: |tv| <= k < |t| ==> Degree2(g, t[k])
    ensures if fixEnd then forall v :: v in g.vertices ==> v in t else |t| == |g.vertices|
    decreases |g.edges| - |te|
  {
    if |te| >= |g.edges| {
      t := tv;
    } else {
      var next := if current.destination in tv then current.origin else current.destination;
      var adjacent := g.adjacentLists[next];
      var tv' := tv + [next];
      t := RingWalkAccepts(g, if adjacent[0] == current then adjacent[1] else adjacent[0], tv', te + [current], fixEnd);
      assert t[..|tv|] == t[..|tv'|][..|tv|];
      assert t[|tv|] == tv'[|tv|];
    }
  }

  /** A ring in the source's sense has as many vertices as edges, and its walk lists as
      many vertices as there are, each with exactly two adjacent edges. */
  lemma IsRingMeans(g: GraphData)
    ensures IsRingSpec(g, false).None? <==>
      (|g.vertices| == |g.edges| == 0 || (|g.vertices| == |g.edges| > 0 && RingWalk(g, g.edges[0], [], [], false).None?))
    ensures IsRingSpec(g, false) == Some(true) ==>
      |g.vertices| == |g.edges| > 0 && exists t: seq<Vertex> :: |t| == |g.vertices| && forall k :: 0 <= k < |t| ==> Degree2(g, t[k])
  {
    if IsRingSpec(g, false) == Some(true) {
      var t := RingWalkAccepts(g, g.edges[0], [], [], false);
    }
  }

  /** With the final check corrected, a graph reported as a ring has as many edges as
      vertices, and every one of its vertices was reached by the walk and has exactly two
      adjacent edges. */
  lemma IsRingIntended(g: GraphData)
    ensures IsRingSpec(g, true) == Some(true) ==>
      |g.vertices| == |g.edges| > 0 && forall v :: v in g.vertices ==> Degree2(g, v)
  {
    if IsRingSpec(g, true) == Some(true) {
      var t := RingWalkAccepts(g, g.edges[0], [], [], true);
      forall v | v in g.vertices ensures Degree2(g, v) {
        var k :| 0 <= k < |t| && t[k] == v;
      }
    }
  }

  /** Graph.edgeesBetween(v1, v2): the two loops over the adjacency lists. */
  method EdgesBetween(graph: Graph, v1: Vertex, v2: Vertex) returns (ret: seq<Edge>)
    ensures ret == EdgesBetweenSpec(graph.View(), v1, v2)
  {
    ret := [];
    if v1 in graph.adjacentLists {
      ret := AddEdgesEndingAt(ret, graph.adjacentLists[v1], v2);
    }
    if !graph.directed && v2 in graph.adjacentLists {
      ret := AddEdgesEndingAt(ret, graph.adjacentLists[v2], v1);
    }
  }

  /** One loop of edgeesBetween: the edges of es ending at w, appended to ret in list
      order. */
  method AddEdgesEndingAt(ret0: seq<Edge>, es: seq<Edge>, w: Vertex) returns (ret: seq<Edge>)
    ensures ret == ret0 + DestIs(es, w)
  {
    ret := ret0;
    for k := 0 to |es|
      invariant ret == ret0 + DestIs(es[..k], w)
    {
      assert es[..k + 1][..k] == es[..k];
      if es[k].destination == w {
        ret := ret + [es[k]];
      }
    }
    assert es[..|es|] == es;
  }

  /** The object of the source: the graph its queries read. */
  class GraphProperties {
    const graph: Graph

    constructor(graph: Graph)
      ensures this.graph == graph
    {
      this.graph := graph;
    }

    /** A fresh set of arrays, filled by dfs from the first vertex. */
    method SearchArrays() returns (arrays: DfsArrays)
      requires Indexed(graph.View()) && graph.vertices != []
      ensures arrays.Valid(|graph.vertices|) && SearchFromFirst(graph.View()) == Some(arrays.State())
    {
      arrays := new DfsArrays(|graph.vertices|);
      IndexOfUnique(graph.vertices, 0);
      arrays.DepthFirst(graph, graph.vertices[0], 0);
    }

    method IsConnected() returns (r: Option<bool>)
      requires Indexed(graph.View())
      ensures r == IsConnectedSpec(graph.View())
    {
      if graph.vertices == [] {
        return None;
      }
      var arrays := SearchArrays();
      for j := 0 to arrays.visited.Length
        invariant forall m :: 0 <= m < j ==> arrays.visited[m]
      {
        if !arrays.visited[j] {
          return Some(false);
        }
      }
      return Some(true);
    }

    method GetCutVertices() returns (r: Option<seq<Vertex>>)
      requires Indexed(graph.View())
      ensures r == CutVerticesSpec(graph.View())
    {
      if graph.vertices == [] {
        return None;
      }
      var arrays := SearchArrays();
      var ret := [];
      for i := 0 to |graph.vertices|
        invariant forall m :: 0 <= m < i ==> arrays.visited[m]
        invariant ret == CutsUpTo(graph.vertices, arrays.State(), i)
      {
        if !arrays.visited[i] {
          return None;
        }
        if (arrays.parent[i].Some? && arrays.isArticulation[i]) || (arrays.parent[i].None? && arrays.childCount[i] > 1) {
          ret := ret + [graph.vertices[i]];
        }
      }
      return Some(ret);
    }

    method IsBiconnected() returns (r: Option<bool>)
      requires Indexed(graph.View())
      ensures r == IsBiconnectedSpec(graph.View())
    {
      var cuts := GetCutVertices();
      if cuts.None? {
        return None;
      }
      return Some(|cuts.value| == 0);
    }

    method IsTree(cyclic: Option<bool>) returns (r: Option<bool>)
      requires Indexed(graph.View())
      ensures r == IsTreeSpec(graph.View(), cyclic)
    {
      if cyclic.None? {
        return None;
      }
      if cyclic.value {
        return Some(false);
      }
      r := IsConnected();
    }
    method TreeLeaves(root: Vertex) returns (r: Option<seq<Vertex>>)
      ensures r == TreeLeavesSpec(graph.View(), root)
    {
      var g := graph.View();
      var ret := [];
      for i := 0 to |graph.vertices|
        invariant forall m :: 0 <= m < i ==> g.vertices[m] == root || g.vertices[m] in g.adjacentLists
        invariant ret == LeavesUpTo(g, root, i)
      {
        var v := graph.vertices[i];
        if v != root {
          if v !in graph.adjacentLists {
            return None;
          }
          if |graph.adjacentLists[v]| == 1 {
            ret := ret + [v];
          }
        }
      }
      assert !exists v :: v in g.vertices && v != root && v !in g.adjacentLists;
      return Some(ret);
    }

    /** The inner loop of listMultiEdges: the pairs (i, j) with i <= j. */
    method MultiRow(i: nat) returns (row: seq<seq<Edge>>)
      requires i < |graph.vertices|
      ensures row == Row(graph.vertices, PairLists(graph.View(), false), i, |graph.vertices|)
    {
      ghost var g := graph.View();
      ghost var lists := PairLists(g, false);
      var vs := graph.vertices;
      row := [];
      for j := i to |vs|
        invariant row == Row(vs, lists, i, j)
      {
        var between := EdgesBetween(graph, vs[i], vs[j]);
        assert between == lists(vs[i], vs[j]);
        RowStep(vs, lists, i, j, row, between);
        row := row + (if |between| > 1 then [between] else []);
      }
    }

    method ListMultiEdges() returns (ret: seq<seq<Edge>>)
      ensures ret == ListMultiEdgesSpec(graph.View(), false)
    {
      ghost var g := graph.View();
      ret := [];
      for i := 0 to |graph.vertices|
        invariant ret == MultiUpTo(g.vertices, PairLists(g, false), i)
      {
        var row := MultiRow(i);
        ret := ret + row;
      }
    }

    method IsRing() returns (r: Option<bool>)
      ensures r == IsRingSpec(graph.View(), false)
    {
      var g := graph.View();
      if |graph.vertices| != |graph.edges| {
        return Some(false);
      }
      if graph.edges == [] {
        return None;
      }
      var traversedEdges: seq<Edge> := [];
      var traversedVertices: seq<Vertex> := [];
      var currentEdge := graph.edges[0];
      while |traversedEdges| < |graph.edges|
        invariant RingWalk(g, currentEdge, traversedVertices, traversedEdges, false) == IsRingSpec(g, false)
        decreases |graph.edges| - |traversedEdges|
      {
        var next := currentEdge.destination;
        if next in traversedVertices {
          next := currentEdge.origin;
        }
        traversedVertices := traversedVertices + [next];
        traversedEdges := traversedEdges + [currentEdge];
        if next !in graph.adjacentLists {
          return None;
        }
        var adjacent := graph.adjacentLists[next];
        if |adjacent| != 2 {
          return Some(false);
        }
        if adjacent[0] == currentEdge {
          currentEdge := adjacent[1];
        } else {
          currentEdge := adjacent[0];
        }
      }
      return Some(|traversedVertices| == |graph.vertices|);
    }
  }
}
