/** The depth-first search tree (GraphDrawingTheory/src/graph/trees/DFSTree.java).

    A tree keeps its root, the DFS index of each of its vertices, its tree edges and its
    back edges; being a graph as well, it also keeps the graph its vertices and tree
    edges were added to. The queries walk these lists; each is proved equal to a
    specification function of the tree's state, and what the queries promise is proved
    about those functions. `getIndex` of a vertex without an index unboxes null
    (a NullPointerException): the queries require the vertices they look up to have one.
    compareVertices(v, w) == -1 is written as index(v) < index(w). */
module DFSTrees {
  import opened Wrappers
  import opened GraphElements

  /** The tree's state: its root, the index map, the tree edges and the back edges. */
  datatype TreeData = TreeData(root: Vertex, index: map<Vertex, int>, treeEdges: seq<Edge>, backEdges: seq<Edge>)

  /** Every endpoint of a tree edge or a back edge has a DFS index. */
  ghost predicate Indexed(t: TreeData)
  {
    && (forall e :: e in t.treeEdges ==> e.origin in t.index && e.destination in t.index)
    && (forall e :: e in t.backEdges ==> e.origin in t.index && e.destination in t.index)
  }

  /** The edges of es that are not listed, in order. */
  function Unlisted(es: seq<Edge>, listed: seq<Edge>): (r: seq<Edge>)
    ensures forall e :: e in r <==> e in es && e !in listed
  {
    if es == [] then []
    else
      var r := Unlisted(es[..|es| - 1], listed);
      var e := es[|es| - 1];
      assert forall x :: x in es <==> x in es[..|es| - 1] || x == e;
      if e in listed then r else r + [e]
  }

  /** allEdges(v), as DFSTree overrides it: the tree edges and then the back edges with
      v as an endpoint. */
  function EdgesOf(t: TreeData, v: Vertex): seq<Edge>
  {
    EdgesAt(t.treeEdges + t.backEdges, v)
  }

  /** allOutgoingTreeEdges(v) over the edges es at v: each tree edge leading to a vertex
      of higher index, once. */
  function OutgoingFold(t: TreeData, v: Vertex, es: seq<Edge>): (r: seq<Edge>)
    requires Indexed(t) && v in t.index
    ensures forall e :: e in r ==> e in es && e in t.treeEdges
  {
    if es == [] then []
    else
      var ret := OutgoingFold(t, v, es[..|es| - 1]);
      var e := es[|es| - 1];
      if e in t.treeEdges && t.index[v] < t.index[FarEnd(e, v)] && e !in ret then ret + [e] else ret
  }

  function Outgoing(t: TreeData, v: Vertex): seq<Edge>
    requires Indexed(t) && v in t.index
  {
    OutgoingFold(t, v, EdgesOf(t, v))
  }

  /** The outgoing tree edges of v are, without repetition, exactly the tree edges at v
      whose far end has a higher index. */
  lemma {:induction false} OutgoingFoldMembers(t: TreeData, v: Vertex, es: seq<Edge>)
    requires Indexed(t) && v in t.index
    ensures NoDuplicates(OutgoingFold(t, v, es))
    ensures forall e :: e in OutgoingFold(t, v, es) <==>
      e in es && e in t.treeEdges && t.index[v] < t.index[FarEnd(e, v)]
  {
    if es != [] {
      var pre := es[..|es| - 1];
      OutgoingFoldMembers(t, v, pre);
      assert forall x :: x in es <==> x in pre || x == es[|es| - 1];
    }
  }

  lemma OutgoingMembers(t: TreeData, v: Vertex)
    requires Indexed(t) && v in t.index
    ensures NoDuplicates(Outgoing(t, v))
    ensures forall e :: e in Outgoing(t, v) <==>
      && e in t.treeEdges && (e.origin == v || e.destination == v)
      && t.index[v] < t.index[FarEnd(e, v)]
  {
    OutgoingFoldMembers(t, v, EdgesOf(t, v));
  }

  /** directDescendantsOf(v) over v's outgoing tree edges es: the far ends of higher
      index, once each. */
  function DirectFold(t: TreeData, v: Vertex, es: seq<Edge>): seq<Vertex>
    requires Indexed(t) && v in t.index && forall e :: e in es ==> e in t.treeEdges
  {
    if es == [] then []
    else
      var ret := DirectFold(t, v, es[..|es| - 1]);
      var other := FarEnd(es[|es| - 1], v);
      if t.index[v] < t.index[other] && other !in ret then ret + [other] else ret
  }

  function Direct(t: TreeData, v: Vertex): seq<Vertex>
    requires Indexed(t) && v in t.index
  {
    DirectFold(t, v, Outgoing(t, v))
  }

  lemma {:induction false} DirectFoldMembers(t: TreeData, v: Vertex, es: seq<Edge>)
    requires Indexed(t) && v in t.index && forall e :: e in es ==> e in t.treeEdges
    ensures NoDuplicates(DirectFold(t, v, es))
    ensures forall u :: u in DirectFold(t, v, es) <==>
      exists e :: e in es && FarEnd(e, v) == u && t.index[v] < t.index[u]
  {
    if es != [] {
      var pre := es[..|es| - 1];
      DirectFoldMembers(t, v, pre);
      assert forall x :: x in es <==> x in pre || x == es[|es| - 1];
    }
  }

  /** The direct descendants of v are, without repetition, exactly the far ends of the
      tree edges at v that have a higher index than v. */
  lemma DirectMembers(t: TreeData, v: Vertex)
    requires Indexed(t) && v in t.index
    ensures NoDuplicates(Direct(t, v))
    ensures forall u :: u in Direct(t, v) <==>
      exists e :: e in t.treeEdges && (e.origin == v || e.destination == v) && FarEnd(e, v) == u
        && t.index[v] < t.index[u]
  {
    OutgoingMembers(t, v);
    DirectFoldMembers(t, v, Outgoing(t, v));
  }

  /** The vertices that are endpoints of tree edges: the descendant search stays among
      them. */
  function TreeEnds(t: TreeData): set<Vertex>
  {
    (set e | e in t.treeEdges :: e.origin) + (set e | e in t.treeEdges :: e.destination)
  }

  function Elems(s: seq<Vertex>): set<Vertex>
  {
    set x | x in s
  }

  /** Taking more vertices out of a set leaves fewer. */
  lemma DiffShrinks(u: set<Vertex>, a: set<Vertex>, b: set<Vertex>)
    requires a <= b
    ensures |u - b| <= |u - a|
  {
    assert u - a == (u - b) + ((u - a) - (u - b));
  }

  /** Listing a tree-edge endpoint that is not listed yet leaves fewer unlisted ones. */
  lemma ListOne(t: TreeData, e: Edge, v: Vertex, acc: seq<Vertex>)
    requires e in t.treeEdges && FarEnd(e, v) !in acc
    ensures |TreeEnds(t) - Elems(acc + [FarEnd(e, v)])| < |TreeEnds(t) - Elems(acc)|
  {
    var x := FarEnd(e, v);
    assert x in TreeEnds(t) by {
      if x == e.origin {
        assert e.origin in (set e | e in t.treeEdges :: e.origin);
      } else {
        assert e.destination in (set e | e in t.treeEdges :: e.destination);
      }
    }
    assert Elems(acc + [x]) == Elems(acc) + {x};
    assert TreeEnds(t) - Elems(acc + [x]) == (TreeEnds(t) - Elems(acc)) - {x};
  }

  /** A longer list lists at least as many vertices. */
  lemma PrefixElems(a: seq<Vertex>, b: seq<Vertex>, u: set<Vertex>)
    requires a <= b
    ensures Elems(a) <= Elems(b) && |u - Elems(b)| <= |u - Elems(a)|
  {
    forall x | x in Elems(a) ensures x in Elems(b) {
      var i :| 0 <= i < |a| && a[i] == x;
      assert b[i] == x;
    }
    DiffShrinks(u, Elems(a), Elems(b));
  }

  /** The private allDescendantsOf(current, descendants): for each outgoing tree edge
      of current whose far end has a higher index and is not listed yet, list the far
      end and continue from it. */
  function DescVisit(t: TreeData, current: Vertex, acc: seq<Vertex>): (r: seq<Vertex>)
    requires Indexed(t) && current in t.index
    ensures acc <= r
    decreases |TreeEnds(t) - Elems(acc)|, 1, 0
  {
    DescEdges(t, current, Outgoing(t, current), acc)
  }

  /** One step of the loop over current's outgoing tree edges: the list after edge e. */
  function DescStep(t: TreeData, current: Vertex, e: Edge, acc: seq<Vertex>): (r: seq<Vertex>)
    requires Indexed(t) && current in t.index && e in t.treeEdges
    ensures acc <= r
    decreases |TreeEnds(t) - Elems(acc)|, 0, 0
  {
    var other := FarEnd(e, current);
    if t.index[current] < t.index[other] && other !in acc then
      ListOne(t, e, current, acc);
      DescVisit(t, other, acc + [other])
    else acc
  }

  function DescEdges(t: TreeData, current: Vertex, es: seq<Edge>, acc: seq<Vertex>): (r: seq<Vertex>)
    requires Indexed(t) && current in t.index && forall e :: e in es ==> e in t.treeEdges
    ensures acc <= r
    decreases |TreeEnds(t) - Elems(acc)|, 0, 1 + |es|
  {
    if es == [] then acc
    else
      var acc' := DescStep(t, current, es[0], acc);
      PrefixElems(acc, acc', TreeEnds(t));
      DescEdges(t, current, es[1..], acc')
  }

  /** allDescendantsOf(v, includeVertex). */
  function Descendants(t: TreeData, v: Vertex, includeVertex: bool): seq<Vertex>
    requires Indexed(t) && v in t.index
  {
    (if includeVertex then [v] else []) + DescVisit(t, v, [])
  }

  /** Every vertex listed after acc by a search from current has a higher index. */
  ghost predicate AddedAbove(t: TreeData, current: Vertex, acc: seq<Vertex>, r: seq<Vertex>)
    requires current in t.index
  {
    forall i :: |acc| <= i < |r| ==> r[i] in t.index && t.index[r[i]] > t.index[current]
  }

  /** A search from current lists only vertices of higher index than current. */
  lemma {:induction false} DescVisitAbove(t: TreeData, current: Vertex, acc: seq<Vertex>)
    requires Indexed(t) && current in t.index
    ensures AddedAbove(t, current, acc, DescVisit(t, current, acc))
    decreases |TreeEnds(t) - Elems(acc)|, 1, 0
  {
    DescEdgesAbove(t, current, Outgoing(t, current), acc);
  }

  lemma {:induction false} DescStepAbove(t: TreeData, current: Vertex, e: Edge, acc: seq<Vertex>)
    requires Indexed(t) && current in t.index && e in t.treeEdges
    ensures AddedAbove(t, current, acc, DescStep(t, current, e, acc))
    decreases |TreeEnds(t) - Elems(acc)|, 0, 0
  {
    var other := FarEnd(e, current);
    if t.index[current] < t.index[other] && other !in acc {
      ListOne(t, e, current, acc);
      var r := DescVisit(t, other, acc + [other]);
      DescVisitAbove(t, other, acc + [other]);
      assert r[|acc|] == other;
    }
  }

  lemma {:induction false} DescEdgesAbove(t: TreeData, current: Vertex, es: seq<Edge>, acc: seq<Vertex>)
    requires Indexed(t) && current in t.index && forall e :: e in es ==> e in t.treeEdges
    ensures AddedAbove(t, current, acc, DescEdges(t, current, es, acc))
    decreases |TreeEnds(t) - Elems(acc)|, 0, 1 + |es|
  {
    if es != [] {
      var acc' := DescStep(t, current, es[0], acc);
      DescStepAbove(t, current, es[0], acc);
      PrefixElems(acc, acc', TreeEnds(t));
      DescEdgesAbove(t, current, es[1..], acc');
      var r := DescEdges(t, current, es, acc);
      assert r == DescEdges(t, current, es[1..], acc');
      forall i | |acc| <= i < |r| ensures r[i] in t.index && t.index[r[i]] > t.index[current] {
        if i < |acc'| {
          assert r[i] == acc'[i];
        }
      }
    }
  }

  /** A search from current never lists a vertex twice. */
  lemma {:induction false} DescVisitDistinct(t: TreeData, current: Vertex, acc: seq<Vertex>)
    requires Indexed(t) && current in t.index && NoDuplicates(acc)
    ensures NoDuplicates(DescVisit(t, current, acc))
    decreases |TreeEnds(t) - Elems(acc)|, 1, 0
  {
    DescEdgesDistinct(t, current, Outgoing(t, current), acc);
  }

  lemma {:induction false} DescStepDistinct(t: TreeData, current: Vertex, e: Edge, acc: seq<Vertex>)
    requires Indexed(t) && current in t.index && e in t.treeEdges && NoDuplicates(acc)
    ensures NoDuplicates(DescStep(t, current, e, acc))
    decreases |TreeEnds(t) - Elems(acc)|, 0, 0
  {
    var other := FarEnd(e, current);
    if t.index[current] < t.index[other] && other !in acc {
      ListOne(t, e, current, acc);
      DescVisitDistinct(t, other, acc + [other]);
    }
  }

  lemma {:induction false} DescEdgesDistinct(t: TreeData, current: Vertex, es: seq<Edge>, acc: seq<Vertex>)
    requires Indexed(t) && current in t.index && forall e :: e in es ==> e in t.treeEdges
    requires NoDuplicates(acc)
    ensures NoDuplicates(DescEdges(t, current, es, acc))
    decreases |TreeEnds(t) - Elems(acc)|, 0, 1 + |es|
  {
    if es != [] {
      var acc' := DescStep(t, current, es[0], acc);
      DescStepDistinct(t, current, es[0], acc);
      PrefixElems(acc, acc', TreeEnds(t));
      DescEdgesDistinct(t, current, es[1..], acc');
    }
  }

  /** allDescendantsOf(v, includeVertex) lists no vertex twice; with includeVertex it
      starts with v, without it v is absent, and every other listed vertex has a higher
      index than v. */
  lemma DescendantsShape(t: TreeData, v: Vertex, includeVertex: bool)
    requires Indexed(t) && v in t.index
    ensures var d := Descendants(t, v, includeVertex);
      && NoDuplicates(d)
      && (includeVertex ==> |d| > 0 && d[0] == v)
      && (!includeVertex ==> v !in d)
      && forall x :: x in d && x != v ==> x in t.index && t.index[x] > t.index[v]
  {
    DescVisitAbove(t, v, []);
    DescVisitDistinct(t, v, []);
    var r := DescVisit(t, v, []);
    var d := Descendants(t, v, includeVertex);
    if includeVertex {
      assert d == [v] + r;
      forall i, j | 0 <= i < j < |d| ensures d[i] != d[j] {
        if i == 0 {
          assert d[j] == r[j - 1];
        }
      }
    } else {
      assert d == r;
    }
  }

  /** The index a back edge returns to from the vertices desc: its origin's when its
      destination is among them, its destination's otherwise. */
  function ReturnPoint(t: TreeData, desc: seq<Vertex>, b: Edge): int
    requires b.origin in t.index && b.destination in t.index
  {
    if b.destination in desc then t.index[b.origin] else t.index[b.destination]
  }

  /** A back edge with an endpoint among desc that returns below bound. */
  predicate Returns(t: TreeData, desc: seq<Vertex>, b: Edge, bound: int)
    requires b.origin in t.index && b.destination in t.index
  {
    (b.destination in desc || b.origin in desc) && ReturnPoint(t, desc, b) < bound
  }

  ghost predicate EndsIndexed(t: TreeData, bs: seq<Edge>)
  {
    forall b :: b in bs ==> b.origin in t.index && b.destination in t.index
  }

  /** The return points below bound of the edges bs reaching desc, in list order. */
  function PointsBelow(t: TreeData, desc: seq<Vertex>, bs: seq<Edge>, bound: int): seq<int>
    requires EndsIndexed(t, bs)
  {
    if bs == [] then []
    else
      var pre := PointsBelow(t, desc, bs[..|bs| - 1], bound);
      var b := bs[|bs| - 1];
      if Returns(t, desc, b, bound) then pre + [ReturnPoint(t, desc, b)] else pre
  }

  /** The points are exactly the return points below bound of the edges reaching desc. */
  lemma {:induction false} PointsBelowMembers(t: TreeData, desc: seq<Vertex>, bs: seq<Edge>, bound: int)
    requires EndsIndexed(t, bs)
    ensures forall p :: p in PointsBelow(t, desc, bs, bound) <==>
      exists b :: b in bs && Returns(t, desc, b, bound) && ReturnPoint(t, desc, b) == p
    ensures forall p :: p in PointsBelow(t, desc, bs, bound) ==> p < bound
  {
    if bs != [] {
      var pre := bs[..|bs| - 1];
      PointsBelowMembers(t, desc, pre, bound);
      assert forall x :: x in bs <==> x in pre || x == bs[|bs| - 1];
    }
  }

  function MinOf(s: seq<int>): (m: int)
    requires s != []
    ensures m in s && forall x :: x in s ==> m <= x
  {
    if |s| == 1 then s[0]
    else
      var m := MinOf(s[..|s| - 1]);
      assert forall x :: x in s <==> x in s[..|s| - 1] || x == s[|s| - 1];
      if s[|s| - 1] < m then s[|s| - 1] else m
  }

  function MaxOf(s: seq<int>): (m: int)
    requires s != []
    ensures m in s && forall x :: x in s ==> x <= m
  {
    if |s| == 1 then s[0]
    else
      var m := MaxOf(s[..|s| - 1]);
      assert forall x :: x in s <==> x in s[..|s| - 1] || x == s[|s| - 1];
      if s[|s| - 1] > m then s[|s| - 1] else m
  }

  /** The values of s above m, in order. */
  function Above(s: seq<int>, m: int): (r: seq<int>)
    ensures forall x :: x in r <==> x in s && x > m
  {
    if s == [] then []
    else
      var r := Above(s[..|s| - 1], m);
      assert forall x :: x in s <==> x in s[..|s| - 1] || x == s[|s| - 1];
      if s[|s| - 1] > m then r + [s[|s| - 1]] else r
  }

  /** lowpt(v): the lowest index below v's that a back edge reaches from v or a
      descendant of v, or -1. */
  function LowptSpec(t: TreeData, v: Vertex): int
    requires Indexed(t) && v in t.index
  {
    var pts := PointsBelow(t, Descendants(t, v, true), t.backEdges, t.index[v]);
    if pts == [] then -1 else MinOf(pts)
  }

  /** highpt(v): the highest index below v's that a back edge reaches from a proper
      descendant of v, or -1. */
  function HighptSpec(t: TreeData, v: Vertex): int
    requires Indexed(t) && v in t.index
  {
    var pts := PointsBelow(t, Descendants(t, v, false), t.backEdges, t.index[v]);
    if pts == [] then -1 else MaxOf(pts)
  }

  /** lowpts(v): the lowest such index and the next higher one, v's own index standing
      in for a missing value. */
  function LowptsSpec(t: TreeData, v: Vertex): (int, int)
    requires Indexed(t) && v in t.index
  {
    var pts := PointsBelow(t, Descendants(t, v, true), t.backEdges, t.index[v]);
    if pts == [] then (t.index[v], t.index[v])
    else (MinOf(pts), match SecondLowest(pts) case None => t.index[v] case Some(l2) => l2)
  }

  /** The least value of pts above its least one, if any. */
  function SecondLowest(pts: seq<int>): Option<int>
  {
    if pts == [] then None
    else
      var second := Above(pts, MinOf(pts));
      if second == [] then None else Some(MinOf(second))
  }

  /** Two lists with the same members have the same least member. */
  lemma MinOfSameMembers(a: seq<int>, b: seq<int>)
    requires a != [] && b != [] && forall x :: x in a <==> x in b
    ensures MinOf(a) == MinOf(b)
  {
  }

  /** How lowpts updates its two values on one more return point x: a new least value
      pushes the old least one into second place; a value above the least one
      competes for second place; a value equal to it changes nothing. */
  lemma SecondStep(pts: seq<int>, x: int)
    ensures pts == [] ==> SecondLowest(pts + [x]) == None
    ensures pts != [] && x < MinOf(pts) ==> SecondLowest(pts + [x]) == Some(MinOf(pts))
    ensures pts != [] && x == MinOf(pts) ==> SecondLowest(pts + [x]) == SecondLowest(pts)
    ensures pts != [] && x > MinOf(pts) ==>
      SecondLowest(pts + [x]) == (match SecondLowest(pts) case None => Some(x) case Some(l2) => Some(if x < l2 then x else l2))
  {
    var s := pts + [x];
    assert s[..|s| - 1] == pts;
    if pts == [] {
      assert Above(s, MinOf(s)) == [];
    } else {
      var m := MinOf(pts);
      if x < m {
        assert MinOf(s) == x;
        var a := Above(s, x);
        assert m in a;
        MinOfSameMembers(a, pts);
      } else if x == m {
        assert MinOf(s) == m;
        assert Above(s, m) == Above(pts, m);
      } else {
        assert MinOf(s) == m;
        assert Above(s, m) == Above(pts, m) + [x];
        var a := Above(pts, m);
        if a != [] {
          var a' := a + [x];
          assert a'[..|a'| - 1] == a;
        }
      }
    }
  }

  /** The tree edge or back edge e oriented by index: its endpoint of lower index (the
      destination when the two are equal) and the other one. */
  function Lower(t: TreeData, e: Edge): Vertex
    requires e.origin in t.index && e.destination in t.index
  {
    if t.index[e.origin] < t.index[e.destination] then e.origin else e.destination
  }

  function Upper(t: TreeData, e: Edge): Vertex
    requires e.origin in t.index && e.destination in t.index
  {
    if t.index[e.origin] < t.index[e.destination] then e.destination else e.origin
  }

  /** lowpt(e): for a back edge the index of its lower end; for a tree edge lowpt of its
      upper end, or the upper end's index when that is -1. */
  function LowptEdgeSpec(t: TreeData, e: Edge): int
    requires Indexed(t) && e.origin in t.index && e.destination in t.index
  {
    if e in t.backEdges then t.index[Lower(t, e)]
    else
      var l := LowptSpec(t, Upper(t, e));
      if l != -1 then l else t.index[Upper(t, e)]
  }

  /** highpt(e): for a back edge the index of its upper end; for a tree edge highpt of
      its upper end, or the lower end's index when that is -1. */
  function HighptEdgeSpec(t: TreeData, e: Edge): int
    requires Indexed(t) && e.origin in t.index && e.destination in t.index
  {
    if e in t.backEdges then t.index[Upper(t, e)]
    else
      var h := HighptSpec(t, Upper(t, e));
      if h != -1 then h else t.index[Lower(t, e)]
  }

  /** lowpt(e) and highpt(e) never exceed the index of e's upper end; for a back edge
      they are the indexes of its two ends, lower first. */
  lemma EdgePointsBounded(t: TreeData, e: Edge)
    requires Indexed(t) && e.origin in t.index && e.destination in t.index
    ensures LowptEdgeSpec(t, e) <= t.index[Upper(t, e)]
    ensures HighptEdgeSpec(t, e) <= t.index[Upper(t, e)]
    ensures e in t.backEdges ==> LowptEdgeSpec(t, e) <= HighptEdgeSpec(t, e)
  {
    var u := Upper(t, e);
    PointsBelowMembers(t, Descendants(t, u, true), t.backEdges, t.index[u]);
    PointsBelowMembers(t, Descendants(t, u, false), t.backEdges, t.index[u]);
  }

  /** The edges of bs that reach desc and return below bound, in list order. */
  function ReturningAmong(t: TreeData, desc: seq<Vertex>, bs: seq<Edge>, bound: int): (r: seq<Edge>)
    requires EndsIndexed(t, bs)
    ensures forall b :: b in r ==> b in bs
  {
    if bs == [] then []
    else
      var pre := ReturningAmong(t, desc, bs[..|bs| - 1], bound);
      var b := bs[|bs| - 1];
      if Returns(t, desc, b, bound) then pre + [b] else pre
  }

  lemma {:induction false} ReturningAmongMembers(t: TreeData, desc: seq<Vertex>, bs: seq<Edge>, bound: int)
    requires EndsIndexed(t, bs)
    ensures forall b :: b in ReturningAmong(t, desc, bs, bound) <==> b in bs && Returns(t, desc, b, bound)
  {
    if bs != [] {
      var pre := bs[..|bs| - 1];
      ReturningAmongMembers(t, desc, pre, bound);
      assert forall x :: x in bs <==> x in pre || x == bs[|bs| - 1];
    }
  }

  /** returningEdges(e): a back edge alone; for a tree edge the back edges that reach
      the subtree of its upper end and return below its lower end. */
  function ReturningSpec(t: TreeData, e: Edge): seq<Edge>
    requires Indexed(t) && e.origin in t.index && e.destination in t.index
  {
    if e in t.backEdges then [e]
    else ReturningAmong(t, Descendants(t, Upper(t, e), true), t.backEdges, t.index[Lower(t, e)])
  }

  /** The returning edges of a back edge are that edge alone; those of any other edge
      are exactly the back edges with an endpoint in the subtree of its upper end whose
      return point lies below its lower end. */
  lemma ReturningMeaning(t: TreeData, e: Edge)
    requires Indexed(t) && e.origin in t.index && e.destination in t.index
    ensures e in t.backEdges ==> ReturningSpec(t, e) == [e]
    ensures e !in t.backEdges ==> forall b :: b in ReturningSpec(t, e) <==>
      b in t.backEdges && Returns(t, Descendants(t, Upper(t, e), true), b, t.index[Lower(t, e)])
  {
    if e !in t.backEdges {
      ReturningAmongMembers(t, Descendants(t, Upper(t, e), true), t.backEdges, t.index[Lower(t, e)]);
    }
  }

  /** A back edge joins v to a vertex of lower index. */
  predicate LowerNeighbour(t: TreeData, v: Vertex, b: Edge)
    requires b.origin in t.index && b.destination in t.index && v in t.index
  {
    (b.origin == v || b.destination == v) && t.index[v] > t.index[FarEnd(b, v)]
  }

  /** leastAncestor(v) over the back edges bs: the first of the lower-index back-edge
      neighbours of v with the least index. */
  function LeastFold(t: TreeData, v: Vertex, bs: seq<Edge>): (r: Option<Vertex>)
    requires EndsIndexed(t, bs) && v in t.index
    ensures r.Some? ==> r.value in t.index
  {
    if bs == [] then None
    else
      var least := LeastFold(t, v, bs[..|bs| - 1]);
      var b := bs[|bs| - 1];
      if LowerNeighbour(t, v, b) && (least.None? || t.index[FarEnd(b, v)] < t.index[least.value])
      then Some(FarEnd(b, v)) else least
  }

  /** leastAncestor(v) is null exactly when no back edge joins v to a vertex of lower
      index, and otherwise such a neighbour with the least index of all of them. */
  lemma {:induction false} LeastMeaning(t: TreeData, v: Vertex, bs: seq<Edge>)
    requires EndsIndexed(t, bs) && v in t.index
    ensures LeastFold(t, v, bs).None? <==> forall b :: b in bs ==> !LowerNeighbour(t, v, b)
    ensures LeastFold(t, v, bs).Some? ==>
      && (exists b :: b in bs && LowerNeighbour(t, v, b) && FarEnd(b, v) == LeastFold(t, v, bs).value)
      && forall b :: b in bs && LowerNeighbour(t, v, b) ==> t.index[LeastFold(t, v, bs).value] <= t.index[FarEnd(b, v)]
  {
    if bs != [] {
      var pre := bs[..|bs| - 1];
      LeastMeaning(t, v, pre);
      assert forall x :: x in bs <==> x in pre || x == bs[|bs| - 1];
    }
  }


  /** The return points below bound are the points of the edges that return there. */
  lemma PointOfEdge(t: TreeData, d: seq<Vertex>, bs: seq<Edge>, bound: int, b: Edge)
    requires EndsIndexed(t, bs) && b in bs && b.origin in t.index && b.destination in t.index
    requires Returns(t, d, b, bound)
    ensures ReturnPoint(t, d, b) in PointsBelow(t, d, bs, bound)
  {
    PointsBelowMembers(t, d, bs, bound);
  }

  /** lowpt(v) is -1 when no back edge returns below v from v's subtree, and otherwise
      the lowest index such an edge returns to. */
  lemma LowptMeaning(t: TreeData, v: Vertex)
    requires Indexed(t) && v in t.index
    ensures var d := Descendants(t, v, true);
      && ((forall b :: b in t.backEdges ==> !Returns(t, d, b, t.index[v])) ==> LowptSpec(t, v) == -1)
      && forall b :: b in t.backEdges && Returns(t, d, b, t.index[v]) ==>
           && LowptSpec(t, v) <= ReturnPoint(t, d, b)
           && exists b' :: b' in t.backEdges && Returns(t, d, b', t.index[v]) && ReturnPoint(t, d, b') == LowptSpec(t, v)
  {
    var d := Descendants(t, v, true);
    var pts := PointsBelow(t, d, t.backEdges, t.index[v]);
    PointsBelowMembers(t, d, t.backEdges, t.index[v]);
    forall b | b in t.backEdges && Returns(t, d, b, t.index[v])
      ensures LowptSpec(t, v) <= ReturnPoint(t, d, b)
      ensures exists b' :: b' in t.backEdges && Returns(t, d, b', t.index[v]) && ReturnPoint(t, d, b') == LowptSpec(t, v)
    {
      PointOfEdge(t, d, t.backEdges, t.index[v], b);
      assert MinOf(pts) in pts;
    }
  }

  /** lowpts(v) gives lowpt1 <= lowpt2 <= v's index, both v's index when no back edge
      returns below v from v's subtree; otherwise lowpt1 is lowpt(v), and lowpt2 is the
      least return point above lowpt1, or v's index when there is none. */
  lemma LowptsOrdered(t: TreeData, v: Vertex)
    requires Indexed(t) && v in t.index
    ensures var (l1, l2) := LowptsSpec(t, v);
      var d := Descendants(t, v, true);
      && l1 <= l2 <= t.index[v]
      && ((forall b :: b in t.backEdges ==> !Returns(t, d, b, t.index[v])) ==> l1 == l2 == t.index[v])
      && ((exists b :: b in t.backEdges && Returns(t, d, b, t.index[v])) ==>
            && l1 == LowptSpec(t, v)
            && (l2 == t.index[v] || exists b :: b in t.backEdges && Returns(t, d, b, t.index[v]) && ReturnPoint(t, d, b) == l2)
            && forall b :: b in t.backEdges && Returns(t, d, b, t.index[v]) && ReturnPoint(t, d, b) > l1 ==> l2 <= ReturnPoint(t, d, b))
  {
    var d := Descendants(t, v, true);
    var pts := PointsBelow(t, d, t.backEdges, t.index[v]);
    PointsBelowMembers(t, d, t.backEdges, t.index[v]);
    if b :| b in t.backEdges && Returns(t, d, b, t.index[v]) {
      PointOfEdge(t, d, t.backEdges, t.index[v], b);
      var m := MinOf(pts);
      var second := Above(pts, m);
      forall b' | b' in t.backEdges && Returns(t, d, b', t.index[v]) && ReturnPoint(t, d, b') > m
        ensures ReturnPoint(t, d, b') in second
      {
        PointOfEdge(t, d, t.backEdges, t.index[v], b');
      }
      if second != [] {
        assert MinOf(second) in pts;
      }
    }
  }

  /** highpt(v) is -1 when no back edge returns below v from a proper descendant, and
      otherwise the highest index such an edge returns to. */
  lemma HighptMeaning(t: TreeData, v: Vertex)
    requires Indexed(t) && v in t.index
    ensures var d := Descendants(t, v, false);
      && ((forall b :: b in t.backEdges ==> !Returns(t, d, b, t.index[v])) ==> HighptSpec(t, v) == -1)
      && forall b :: b in t.backEdges && Returns(t, d, b, t.index[v]) ==>
           && ReturnPoint(t, d, b) <= HighptSpec(t, v) < t.index[v]
           && exists b' :: b' in t.backEdges && Returns(t, d, b', t.index[v]) && ReturnPoint(t, d, b') == HighptSpec(t, v)
  {
    var d := Descendants(t, v, false);
    var pts := PointsBelow(t, d, t.backEdges, t.index[v]);
    PointsBelowMembers(t, d, t.backEdges, t.index[v]);
    forall b | b in t.backEdges && Returns(t, d, b, t.index[v])
      ensures ReturnPoint(t, d, b) <= HighptSpec(t, v) < t.index[v]
      ensures exists b' :: b' in t.backEdges && Returns(t, d, b', t.index[v]) && ReturnPoint(t, d, b') == HighptSpec(t, v)
    {
      PointOfEdge(t, d, t.backEdges, t.index[v], b);
      assert MaxOf(pts) in pts;
    }
  }

  /** The least of the points, if any. */
  function Lowest(pts: seq<int>): Option<int>
  {
    if pts == [] then None else Some(MinOf(pts))
  }

  /** The greatest of the points, if any. */
  function Highest(pts: seq<int>): Option<int>
  {
    if pts == [] then None else Some(MaxOf(pts))
  }

  /** lowpt taking one more return point into its running least value. */
  method LowestTake(ghost pts: seq<int>, low: Option<int>, index: int) returns (n: Option<int>)
    requires low == Lowest(pts)
    ensures n == Lowest(pts + [index])
  {
    var pts' := pts + [index];
    assert pts'[..|pts'| - 1] == pts;
    n := low;
    if n.None? || n.value > index {
      n := Some(index);
    }
  }

  /** highpt taking one more return point into its running greatest value. */
  method HighestTake(ghost pts: seq<int>, high: Option<int>, index: int) returns (n: Option<int>)
    requires high == Highest(pts)
    ensures n == Highest(pts + [index])
  {
    var pts' := pts + [index];
    assert pts'[..|pts'| - 1] == pts;
    n := high;
    if n.None? || n.value < index {
      n := Some(index);
    }
  }

  /** lowpts taking one more return point into its two running values: a new least
      value pushes the old least one into second place, a value above the least one
      competes for second place, a value equal to it changes nothing. */
  method LowptsTake(ghost pts: seq<int>, low1: Option<int>, low2: Option<int>, index: int)
    returns (n1: Option<int>, n2: Option<int>)
    requires low1 == Lowest(pts) && low2 == SecondLowest(pts)
    ensures n1 == Lowest(pts + [index]) && n2 == SecondLowest(pts + [index])
  {
    var pts' := pts + [index];
    assert pts'[..|pts'| - 1] == pts;
    SecondStep(pts, index);
    n1, n2 := low1, low2;
    if n1.None? || n1.value > index {
      if n1.Some? {
        n2 := n1;
      }
      n1 := Some(index);
    } else if n1.Some? && index > n1.value {
      if n2.None? || n2.value > index {
        n2 := Some(index);
      }
    }
  }

  /** A DFS tree. Being a graph as well, it keeps the graph its vertices and tree edges
      were added to in `graph`; its own queries read only the index map and the two edge
      lists. */
  class DFSTree {
    var root: Vertex
    var graph: GraphData
    var verticesWithIndexes: map<Vertex, int>
    var treeEdges: seq<Edge>
    var backEdges: seq<Edge>

    function View(): TreeData
      reads this
    {
      TreeData(root, verticesWithIndexes, treeEdges, backEdges)
    }

    /** DFSTree(root): an empty undirected graph and empty index map and edge lists. */
    constructor (root: Vertex)
      ensures this.root == root && graph == EmptyGraph(false)
      ensures verticesWithIndexes == map[] && treeEdges == [] && backEdges == []
    {
      this.root := root;
      graph := EmptyGraph(false);
      verticesWithIndexes := map[];
      treeEdges := [];
      backEdges := [];
    }

    /** formBackEdges: every listed edge that is not a tree edge becomes a back edge. */
    method FormBackEdges(allEdges: seq<Edge>)
      modifies this
      ensures backEdges == old(backEdges) + Unlisted(allEdges, treeEdges)
      ensures forall e :: e in allEdges ==> e in treeEdges || e in backEdges
      ensures root == old(root) && graph == old(graph) && verticesWithIndexes == old(verticesWithIndexes)
      ensures treeEdges == old(treeEdges)
    {
      for i := 0 to |allEdges|
        invariant backEdges == old(backEdges) + Unlisted(allEdges[..i], treeEdges)
        invariant root == old(root) && graph == old(graph) && verticesWithIndexes == old(verticesWithIndexes)
        invariant treeEdges == old(treeEdges)
      {
        assert allEdges[..i + 1][..i] == allEdges[..i];
        if allEdges[i] !in treeEdges {
          backEdges := backEdges + [allEdges[i]];
        }
      }
      assert allEdges[..|allEdges|] == allEdges;
    }

    /** getIndex(v): the index addVertex recorded for v. */
    method GetIndex(v: Vertex) returns (r: int)
      requires v in verticesWithIndexes
      ensures r == verticesWithIndexes[v] && r in verticesWithIndexes.Values
    {
      r := verticesWithIndexes[v];
    }

    /** addVertex(v, index): v joins the graph and gets the index. */
    method AddVertex(v: Vertex, index: int)
      modifies this
      ensures graph == AddVertexTo(old(graph), v) && verticesWithIndexes == old(verticesWithIndexes)[v := index]
      ensures root == old(root) && treeEdges == old(treeEdges) && backEdges == old(backEdges)
    {
      graph := AddVertexTo(graph, v);
      verticesWithIndexes := verticesWithIndexes[v := index];
    }

    /** addTreeEdge(e): e becomes a tree edge and joins the graph. */
    method AddTreeEdge(e: Edge)
      modifies this
      ensures treeEdges == old(treeEdges) + [e] && graph == AddEdgeTo(old(graph), e)
      ensures root == old(root) && verticesWithIndexes == old(verticesWithIndexes) && backEdges == old(backEdges)
    {
      treeEdges := treeEdges + [e];
      graph := AddEdgeTo(graph, e);
    }

    /** allEdges(v): the tree edges and then the back edges at v. */
    method AllEdgesOf(v: Vertex) returns (ret: seq<Edge>)
      ensures ret == EdgesOf(View(), v)
      ensures forall e :: e in ret <==> (e in treeEdges || e in backEdges) && (e.origin == v || e.destination == v)
    {
      var all := treeEdges + backEdges;
      ret := [];
      for i := 0 to |all|
        invariant ret == EdgesAt(all[..i], v)
      {
        EdgesAtStep(all, i, v);
        if all[i].destination == v || all[i].origin == v {
          ret := ret + [all[i]];
        }
      }
      assert all[..|all|] == all;
    }

    /** allOutgoingTreeEdges(v): the tree edges at v to a higher index, once each. */
    method AllOutgoingTreeEdges(v: Vertex) returns (ret: seq<Edge>)
      requires Indexed(View()) && v in verticesWithIndexes
      ensures ret == Outgoing(View(), v)
      ensures NoDuplicates(ret)
      ensures forall e :: e in ret <==>
        e in treeEdges && (e.origin == v || e.destination == v) && verticesWithIndexes[v] < verticesWithIndexes[FarEnd(e, v)]
    {
      var es := AllEdgesOf(v);
      ret := OutgoingAmong(v, es);
      OutgoingMembers(View(), v);
    }

    /** The loop of allOutgoingTreeEdges over the edges es at v. */
    method OutgoingAmong(v: Vertex, es: seq<Edge>) returns (ret: seq<Edge>)
      requires Indexed(View()) && v in verticesWithIndexes
      ensures ret == OutgoingFold(View(), v, es)
    {
      ret := [];
      for i := 0 to |es|
        invariant ret == OutgoingFold(View(), v, es[..i])
      {
        assert es[..i + 1][..i] == es[..i];
        var e := es[i];
        if e in treeEdges {
          var other := if e.origin == v then e.destination else e.origin;
          if verticesWithIndexes[v] < verticesWithIndexes[other] && e !in ret {
            ret := ret + [e];
          }
        }
      }
      assert es[..|es|] == es;
    }

    /** directDescendantsOf(v): the far ends of higher index of v's tree edges, once
      each. */
    method DirectDescendantsOf(v: Vertex) returns (ret: seq<Vertex>)
      requires Indexed(View()) && v in verticesWithIndexes
      ensures ret == Direct(View(), v)
      ensures NoDuplicates(ret)
      ensures forall u :: u in ret <==>
        exists e :: e in treeEdges && (e.origin == v || e.destination == v) && FarEnd(e, v) == u
          && verticesWithIndexes[v] < verticesWithIndexes[u]
    {
      var es := AllOutgoingTreeEdges(v);
      ret := [];
      for i := 0 to |es|
        invariant ret == DirectFold(View(), v, es[..i])
      {
        assert es[..i + 1][..i] == es[..i];
        var other := if es[i].origin == v then es[i].destination else es[i].origin;
        if verticesWithIndexes[v] < verticesWithIndexes[other] && other !in ret {
          ret := ret + [other];
        }
      }
      assert es[..|es|] == es;
      DirectMembers(View(), v);
    }

    /** The private allDescendantsOf(current, descendants), returning the grown list. */
    method DescendantsInto(current: Vertex, descendants: seq<Vertex>) returns (r: seq<Vertex>)
      requires Indexed(View()) && current in verticesWithIndexes
      ensures r == DescVisit(View(), current, descendants)
      decreases |TreeEnds(View()) - Elems(descendants)|, 0
    {
      var es := AllOutgoingTreeEdges(current);
      r := descendants;
      for k := 0 to |es|
        invariant descendants <= r
        invariant DescEdges(View(), current, es[k..], r) == DescVisit(View(), current, descendants)
      {
        assert es[k..][1..] == es[k + 1..];
        var other := if es[k].origin == current then es[k].destination else es[k].origin;
        if verticesWithIndexes[current] < verticesWithIndexes[other] && other !in r {
          ListOne(View(), es[k], current, r);
          PrefixElems(descendants, r, TreeEnds(View()));
          var r' := DescendantsInto(other, r + [other]);
          r := r';
        }
      }
    }

    /** allDescendantsOf(v, includeVertex): v's descendants in the tree, without
        repetition, v first when includeVertex holds and absent otherwise. */
    method AllDescendantsOf(v: Vertex, includeVertex: bool) returns (ret: seq<Vertex>)
      requires Indexed(View()) && v in verticesWithIndexes
      ensures ret == Descendants(View(), v, includeVertex)
      ensures NoDuplicates(ret)
      ensures includeVertex ==> |ret| > 0 && ret[0] == v
      ensures !includeVertex ==> v !in ret
      ensures forall x :: x in ret && x != v ==> x in verticesWithIndexes && verticesWithIndexes[x] > verticesWithIndexes[v]
    {
      ret := DescendantsInto(v, []);
      if includeVertex {
        ret := [v] + ret;
      }
      DescendantsShape(View(), v, includeVertex);
    }

    /** The return point of back edge b from the descendants desc, as lowpt computes it. */
    method ReturnIndex(desc: seq<Vertex>, b: Edge) returns (index: int)
      requires b.origin in verticesWithIndexes && b.destination in verticesWithIndexes
      ensures index == ReturnPoint(View(), desc, b)
    {
      if b.destination in desc {
        index := verticesWithIndexes[b.origin];
      } else {
        index := verticesWithIndexes[b.destination];
      }
    }

    /** lowpt(v). */
    method Lowpt(v: Vertex) returns (r: int)
      requires Indexed(View()) && v in verticesWithIndexes
      ensures r == LowptSpec(View(), v)
    {
      var descendants := AllDescendantsOf(v, true);
      var t, backs := View(), backEdges;
      var currentIndex := verticesWithIndexes[v];
      var lowest: Option<int> := None;
      for i := 0 to |backs|
        invariant lowest == Lowest(PointsBelow(t, descendants, backs[..i], currentIndex))
      {
        ghost var pts := PointsBelow(t, descendants, backs[..i], currentIndex);
        assert backs[..i + 1][..i] == backs[..i];
        var back := backs[i];
        if back.destination in descendants || back.origin in descendants {
          var index := ReturnIndex(descendants, back);
          if index < currentIndex {
            lowest := LowestTake(pts, lowest, index);
          }
        }
      }
      assert backs[..|backs|] == backs;
      r := if lowest.None? then -1 else lowest.value;
    }

    /** highpt(v). */
    method Highpt(v: Vertex) returns (r: int)
      requires Indexed(View()) && v in verticesWithIndexes
      ensures r == HighptSpec(View(), v)
    {
      var descendants := AllDescendantsOf(v, false);
      var t, backs := View(), backEdges;
      var currentIndex := verticesWithIndexes[v];
      var highest: Option<int> := None;
      for i := 0 to |backs|
        invariant highest == Highest(PointsBelow(t, descendants, backs[..i], currentIndex))
      {
        ghost var pts := PointsBelow(t, descendants, backs[..i], currentIndex);
        assert backs[..i + 1][..i] == backs[..i];
        var back := backs[i];
        if back.destination in descendants || back.origin in descendants {
          var index := ReturnIndex(descendants, back);
          if index < currentIndex {
            highest := HighestTake(pts, highest, index);
          }
        }
      }
      assert backs[..|backs|] == backs;
      r := if highest.None? then -1 else highest.value;
    }

    /** lowpts(v): lowpt1 and lowpt2. */
    method Lowpts(v: Vertex) returns (lowpt1: int, lowpt2: int)
      requires Indexed(View()) && v in verticesWithIndexes
      ensures (lowpt1, lowpt2) == LowptsSpec(View(), v)
    {
      var descendants := AllDescendantsOf(v, true);
      var t, backs := View(), backEdges;
      var currentIndex := verticesWithIndexes[v];
      var low1: Option<int> := None;
      var low2: Option<int> := None;
      for i := 0 to |backs|
        invariant low1 == Lowest(PointsBelow(t, descendants, backs[..i], currentIndex))
        invariant low2 == SecondLowest(PointsBelow(t, descendants, backs[..i], currentIndex))
      {
        ghost var pts := PointsBelow(t, descendants, backs[..i], currentIndex);
        assert backs[..i + 1][..i] == backs[..i];
        var back := backs[i];
        if back.destination in descendants || back.origin in descendants {
          var index := ReturnIndex(descendants, back);
          if index < currentIndex {
            low1, low2 := LowptsTake(pts, low1, low2, index);
          }
        }
      }
      assert backs[..|backs|] == backs;
      if low1.None? {
        lowpt1, lowpt2 := currentIndex, currentIndex;
      } else {
        lowpt1 := low1.value;
        lowpt2 := if low2.None? then currentIndex else low2.value;
      }
    }

    /** lowpt(e). */
    method LowptEdge(e: Edge) returns (r: int)
      requires Indexed(View()) && e.origin in verticesWithIndexes && e.destination in verticesWithIndexes
      ensures r == LowptEdgeSpec(View(), e)
    {
      var origin, destination;
      if verticesWithIndexes[e.origin] < verticesWithIndexes[e.destination] {
        origin, destination := e.origin, e.destination;
      } else {
        destination, origin := e.origin, e.destination;
      }
      if e in backEdges {
        return verticesWithIndexes[origin];
      }
      var lowpt := Lowpt(destination);
      if lowpt != -1 {
        return lowpt;
      }
      return verticesWithIndexes[destination];
    }

    /** highpt(e). */
    method HighptEdge(e: Edge) returns (r: int)
      requires Indexed(View()) && e.origin in verticesWithIndexes && e.destination in verticesWithIndexes
      ensures r == HighptEdgeSpec(View(), e)
    {
      var origin, destination;
      if verticesWithIndexes[e.origin] < verticesWithIndexes[e.destination] {
        origin, destination := e.origin, e.destination;
      } else {
        destination, origin := e.origin, e.destination;
      }
      if e in backEdges {
        return verticesWithIndexes[destination];
      }
      var highpt := Highpt(destination);
      if highpt != -1 {
        return highpt;
      }
      return verticesWithIndexes[origin];
    }

    /** returningEdges(e). */
    method ReturningEdges(e: Edge) returns (ret: seq<Edge>)
      requires Indexed(View()) && e.origin in verticesWithIndexes && e.destination in verticesWithIndexes
      ensures ret == ReturningSpec(View(), e)
    {
      if e in backEdges {
        return [e];
      }
      var origin, destination;
      if verticesWithIndexes[e.origin] < verticesWithIndexes[e.destination] {
        origin, destination := e.origin, e.destination;
      } else {
        destination, origin := e.origin, e.destination;
      }
      var originIndex := verticesWithIndexes[origin];
      var descendants := AllDescendantsOf(destination, true);
      var t, backs := View(), backEdges;
      ret := [];
      for i := 0 to |backs|
        invariant ret == ReturningAmong(t, descendants, backs[..i], originIndex)
      {
        assert backs[..i + 1][..i] == backs[..i];
        var back := backs[i];
        if back.destination in descendants || back.origin in descendants {
          var index := ReturnIndex(descendants, back);
          if index < originIndex {
            ret := ret + [back];
          }
        }
      }
      assert backs[..|backs|] == backs;
    }

    /** leastAncestor(v); None stands for null. */
    method LeastAncestor(v: Vertex) returns (least: Option<Vertex>)
      requires Indexed(View()) && v in verticesWithIndexes
      ensures least == LeastFold(View(), v, backEdges)
    {
      least := None;
      for i := 0 to |backEdges|
        invariant least == LeastFold(View(), v, backEdges[..i])
      {
        assert backEdges[..i + 1][..i] == backEdges[..i];
        var backEdge := backEdges[i];
        var other: Option<Vertex> := None;
        if backEdge.origin == v {
          other := Some(backEdge.destination);
        } else if backEdge.destination == v {
          other := Some(backEdge.origin);
        }
        if other.Some? && verticesWithIndexes[v] > verticesWithIndexes[other.value] {
          if least.None? || verticesWithIndexes[other.value] < verticesWithIndexes[least.value] {
            least := other;
          }
        }
      }
      assert backEdges[..|backEdges|] == backEdges;
    }
  }
}
