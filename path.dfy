/** A path: a list of edges, the direction in which each is traversed, and the
    distinct vertices it touches (GraphDrawingTheory/src/graph/elements/Path.java).

    EdgeDirection.java is not part of this model: TO_DESTINATION is the one value the
    path tests for, and every other value traverses an edge from its destination. */
module Paths {
  import opened Wrappers
  import opened GraphElements

  datatype EdgeDirection = ToDestination | ToOrigin

  /** The vertex at which a traversal of e in direction d starts. */
  function Start(e: Edge, d: EdgeDirection): Vertex
  {
    if d == ToDestination then e.origin else e.destination
  }

  /** The vertex at which a traversal of e in direction d ends. */
  function End(e: Edge, d: EdgeDirection): Vertex
  {
    if d == ToDestination then e.destination else e.origin
  }

  /** `if (!list.contains(v)) list.add(v)` */
  function AddUnique(s: seq<Vertex>, v: Vertex): (r: seq<Vertex>)
    ensures forall u :: u in r <==> u in s || u == v
    ensures NoDuplicates(s) ==> NoDuplicates(r)
  {
    if v in s then s else s + [v]
  }

  /** A vertex is an endpoint of one of the edges. */
  ghost predicate Touches(edges: seq<Edge>, v: Vertex)
  {
    exists i :: 0 <= i < |edges| && (edges[i].origin == v || edges[i].destination == v)
  }

  /** The walk: the start of the first edge, then the end of every edge in turn. */
  function Walk(edges: seq<Edge>, dirs: seq<EdgeDirection>): (r: seq<Vertex>)
    requires |dirs| == |edges|
    ensures |r| == if edges == [] then 0 else |edges| + 1
  {
    if edges == [] then []
    else if |edges| == 1 then [Start(edges[0], dirs[0]), End(edges[0], dirs[0])]
    else Walk(edges[..|edges| - 1], dirs[..|edges| - 1]) + [End(edges[|edges| - 1], dirs[|edges| - 1])]
  }

  /** A walk starts where the first edge starts and its (i+1)-th vertex is where the
      i-th edge ends. */
  lemma {:induction false} WalkShape(edges: seq<Edge>, dirs: seq<EdgeDirection>)
    requires |dirs| == |edges| && edges != []
    ensures Walk(edges, dirs)[0] == Start(edges[0], dirs[0])
    ensures forall i :: 0 <= i < |edges| ==> Walk(edges, dirs)[i + 1] == End(edges[i], dirs[i])
  {
    if |edges| > 1 {
      var n := |edges| - 1;
      WalkShape(edges[..n], dirs[..n]);
      forall i | 0 <= i < |edges| ensures Walk(edges, dirs)[i + 1] == End(edges[i], dirs[i]) {
        if i < n {
          assert edges[..n][i] == edges[i] && dirs[..n][i] == dirs[i];
        }
      }
    }
  }

  /** The walk without repeats, as pathVertivesWithoutDuplicates builds it. */
  function WalkOnce(edges: seq<Edge>, dirs: seq<EdgeDirection>): seq<Vertex>
    requires |dirs| == |edges|
  {
    if edges == [] then []
    else if |edges| == 1 then AddUnique(AddUnique([], Start(edges[0], dirs[0])), End(edges[0], dirs[0]))
    else AddUnique(WalkOnce(edges[..|edges| - 1], dirs[..|edges| - 1]), End(edges[|edges| - 1], dirs[|edges| - 1]))
  }

  /** pathVertivesWithoutDuplicates lists every vertex of the walk, and each once. */
  lemma {:induction false} WalkOnceSpec(edges: seq<Edge>, dirs: seq<EdgeDirection>)
    requires |dirs| == |edges|
    ensures NoDuplicates(WalkOnce(edges, dirs))
    ensures forall v :: v in WalkOnce(edges, dirs) <==> v in Walk(edges, dirs)
  {
    if |edges| > 1 {
      var n := |edges| - 1;
      WalkOnceSpec(edges[..n], dirs[..n]);
    }
  }

  /** Path.isCyclic as written: it compares the start of the first edge with the START
      of the last one. An empty path reads a missing direction: None. */
  function IsCyclicAsWritten(edges: seq<Edge>, dirs: seq<EdgeDirection>): Option<bool>
    requires |dirs| == |edges|
  {
    if edges == [] then None
    else Some(Start(edges[0], dirs[0]) == Start(edges[|edges| - 1], dirs[|edges| - 1]))
  }

  /** The evident intent: the walk ends where it started. */
  function IsCyclic(edges: seq<Edge>, dirs: seq<EdgeDirection>): Option<bool>
    requires |dirs| == |edges|
  {
    if edges == [] then None
    else Some(Start(edges[0], dirs[0]) == End(edges[|edges| - 1], dirs[|edges| - 1]))
  }

  /** A path of one edge between two different vertices is reported cyclic. */
  lemma SingleEdgeCalledCyclic(e: Edge)
    requires e.origin != e.destination
    ensures IsCyclicAsWritten([e], [ToDestination]) == Some(true)
    ensures IsCyclic([e], [ToDestination]) == Some(false)
  {
  }

  /** The intended isCyclic holds exactly when the first and the last vertex of the
      walk are the same. */
  lemma IsCyclicClosesWalk(edges: seq<Edge>, dirs: seq<EdgeDirection>)
    requires |dirs| == |edges| && edges != []
    ensures IsCyclic(edges, dirs) == Some(Walk(edges, dirs)[0] == Walk(edges, dirs)[|edges|])
  {
    WalkShape(edges, dirs);
  }

  /** The path object: its edges, their directions and the distinct vertices touched. */
  class Path {
    var path: seq<Edge>
    var directions: seq<EdgeDirection>
    var uniqueVertices: seq<Vertex>

    /** What addEdge keeps: one direction per edge, and the unique vertices are the
        endpoints of the edges, each once. */
    ghost predicate Valid()
      reads this
    {
      && |directions| == |path|
      && NoDuplicates(uniqueVertices)
      && (forall v :: v in uniqueVertices <==> Touches(path, v))
    }

    /** Path(): the empty path. */
    constructor()
      ensures path == [] && directions == [] && uniqueVertices == []
      ensures Valid()
    {
      path := [];
      directions := [];
      uniqueVertices := [];
    }

    /** addEdge: the edge and its direction are appended in lockstep, and both endpoints
        join the unique vertices (destination first) unless already there. */
    method AddEdge(e: Edge, direction: EdgeDirection)
      requires Valid()
      modifies this
      ensures path == old(path) + [e] && directions == old(directions) + [direction]
      ensures uniqueVertices == AddUnique(AddUnique(old(uniqueVertices), e.destination), e.origin)
      ensures Valid()
    {
      path := path + [e];
      directions := directions + [direction];
      var v1 := e.destination;
      var v2 := e.origin;
      if v1 !in uniqueVertices {
        uniqueVertices := uniqueVertices + [v1];
      }
      if v2 !in uniqueVertices {
        uniqueVertices := uniqueVertices + [v2];
      }
      forall v ensures Touches(path, v) <==> Touches(old(path), v) || v == e.origin || v == e.destination {
        if Touches(path, v) {
          var i :| 0 <= i < |path| && (path[i].origin == v || path[i].destination == v);
          if i < |old(path)| {
            assert old(path)[i] == path[i];
          }
        }
        if Touches(old(path), v) {
          var i :| 0 <= i < |old(path)| && (old(path)[i].origin == v || old(path)[i].destination == v);
          assert path[i] == old(path)[i];
        }
        if v == e.origin || v == e.destination {
          assert path[|path| - 1] == e;
        }
      }
    }

    /** size(): the number of edges. */
    function Size(): (n: nat)
      reads this
      ensures n == |path|
      ensures Valid() ==> n == |directions|
    {
      |path|
    }

    /** containsDuplicates as written: it compares the number of distinct edges with the
        number of edges, so it answers true exactly when NO edge repeats. */
    function ContainsDuplicates(): (r: bool)
      reads this
      ensures r <==> NoDuplicates(path)
    {
      DistinctCount(path);
      |set e | e in path| == |path|
    }

    /** The answer the method's name and documentation promise. */
    function ContainsDuplicatesIntended(): (r: bool)
      reads this
      ensures r <==> !NoDuplicates(path)
    {
      DistinctCount(path);
      |set e | e in path| != |path|
    }

    /** pathVertices: the walk, built edge by edge. */
    method PathVertices() returns (ret: seq<Vertex>)
      requires Valid()
      ensures ret == Walk(path, directions)
      ensures path != [] ==> |ret| == Size() + 1
    {
      ret := [];
      for i := 0 to |path|
        invariant ret == Walk(path[..i], directions[..i])
      {
        assert path[..i + 1][..i] == path[..i] && directions[..i + 1][..i] == directions[..i];
        if directions[i] == ToDestination {
          if i == 0 {
            ret := ret + [path[i].origin];
          }
          ret := ret + [path[i].destination];
        } else {
          if i == 0 {
            ret := ret + [path[i].destination];
          }
          ret := ret + [path[i].origin];
        }
      }
      assert path[..|path|] == path && directions[..|path|] == directions;
      if path != [] {
        WalkShape(path, directions);
      }
    }

    /** pathVertivesWithoutDuplicates: the walk with every repeat skipped. */
    method PathVerticesWithoutDuplicates() returns (ret: seq<Vertex>)
      requires Valid()
      ensures ret == WalkOnce(path, directions)
      ensures NoDuplicates(ret)
      ensures forall v :: v in ret <==> v in Walk(path, directions)
    {
      ret := [];
      for i := 0 to |path|
        invariant ret == WalkOnce(path[..i], directions[..i])
      {
        assert path[..i + 1][..i] == path[..i] && directions[..i + 1][..i] == directions[..i];
        var first := if directions[i] == ToDestination then path[i].origin else path[i].destination;
        var next := if directions[i] == ToDestination then path[i].destination else path[i].origin;
        if i == 0 {
          if first !in ret {
            ret := ret + [first];
          }
        }
        if next !in ret {
          ret := ret + [next];
        }
      }
      assert path[..|path|] == path && directions[..|path|] == directions;
      WalkOnceSpec(path, directions);
    }

    /** isCyclic as written; None for an empty path (IndexOutOfBoundsException). */
    method IsCyclic() returns (r: Option<bool>)
      requires Valid()
      ensures r == IsCyclicAsWritten(path, directions)
    {
      if |path| == 0 {
        return None;
      }
      var first := if directions[0] == ToDestination then path[0].origin else path[0].destination;
      var n := |path| - 1;
      var last := if directions[n] == ToDestination then path[n].origin else path[n].destination;
      return Some(first == last);
    }
  }
}
