/** The per-edge bookkeeping of the LR planarity test
    (GraphDrawingTheory/src/graph/algorithms/lrpartition/LRPartitionEdge.java).

    An edge keeps the edges that must lie in the same partition as itself and those that
    must lie in the other one; adding an edge to one list that is already in the other
    makes the record invalid. A `Set<E>` argument is modelled as the sequence its
    iterator yields, and edge identity (`==`) as equality of edge values. */
module LRPartitionEdges {
  import opened GraphElements

  /** The edges one call of addToSame/addToDifferent appends when the other list is
      `blocked`, and whether it succeeds: the owning edge is skipped, and the first edge
      found in `blocked` stops the loop with a failure, after the earlier edges have been
      appended. */
  function Appended(edge: Edge, blocked: seq<Edge>, toBeAdded: seq<Edge>): (r: (seq<Edge>, bool))
    ensures forall x :: x in r.0 ==> x in toBeAdded && x != edge && x !in blocked
    ensures |r.0| <= |toBeAdded|
  {
    if toBeAdded == [] then ([], true)
    else if toBeAdded[0] == edge then Appended(edge, blocked, toBeAdded[1..])
    else if toBeAdded[0] in blocked then ([], false)
    else
      var rest := Appended(edge, blocked, toBeAdded[1..]);
      ([toBeAdded[0]] + rest.0, rest.1)
  }

  /** The edges of `toBeAdded` other than the owning edge, in order. */
  function Others(edge: Edge, toBeAdded: seq<Edge>): seq<Edge>
  {
    if toBeAdded == [] then []
    else if toBeAdded[0] == edge then Others(edge, toBeAdded[1..])
    else [toBeAdded[0]] + Others(edge, toBeAdded[1..])
  }

  /** A call succeeds exactly when no edge other than the owning one is blocked; then it
      appends every such edge, in order. */
  lemma {:induction false} AppendedSucceeds(edge: Edge, blocked: seq<Edge>, toBeAdded: seq<Edge>)
    ensures Appended(edge, blocked, toBeAdded).1
      <==> forall x :: x in toBeAdded && x != edge ==> x !in blocked
    ensures Appended(edge, blocked, toBeAdded).1 ==> Appended(edge, blocked, toBeAdded).0 == Others(edge, toBeAdded)
  {
    if toBeAdded != [] {
      AppendedSucceeds(edge, blocked, toBeAdded[1..]);
      assert toBeAdded == [toBeAdded[0]] + toBeAdded[1..];
    }
  }

  /** On failure, what was appended is the run of unblocked edges before the first
      blocked one: a prefix of the successful result. */
  lemma {:induction false} AppendedPrefix(edge: Edge, blocked: seq<Edge>, toBeAdded: seq<Edge>)
    ensures Appended(edge, blocked, toBeAdded).0 <= Others(edge, toBeAdded)
  {
    if toBeAdded != [] {
      AppendedPrefix(edge, blocked, toBeAdded[1..]);
    }
  }

  /** No edge is in both lists, and the owning edge in neither. */
  ghost predicate Consistent(edge: Edge, same: seq<Edge>, different: seq<Edge>)
  {
    && edge !in same && edge !in different
    && forall x :: x in same ==> x !in different
  }

  /** The record of one edge. */
  class LRPartitionEdge {
    var edge: Edge
    var same: seq<Edge>
    var different: seq<Edge>
    var valid: bool

    /** LRPartitionEdge(edge): both lists empty, valid. */
    constructor(edge: Edge)
      ensures this.edge == edge && same == [] && different == [] && valid
      ensures Consistent(this.edge, same, different)
    {
      this.edge := edge;
      same := [];
      different := [];
      valid := true;
    }

    /** addToSame: appends the given edges other than the owning one to `same`, and
        fails, invalidating the record, at the first one already in `different`. */
    method AddToSame(toBeAdded: seq<Edge>) returns (ok: bool)
      modifies this
      ensures ok == Appended(edge, different, toBeAdded).1
      ensures same == old(same) + Appended(edge, different, toBeAdded).0
      ensures valid == (old(valid) && ok)
      ensures edge == old(edge) && different == old(different)
      ensures Consistent(old(edge), old(same), old(different)) ==> Consistent(edge, same, different)
    {
      var k := 0;
      ghost var done: seq<Edge> := [];
      assert toBeAdded[0..] == toBeAdded;
      while k < |toBeAdded|
        invariant 0 <= k <= |toBeAdded|
        invariant edge == old(edge) && different == old(different) && valid == old(valid)
        invariant same == old(same) + done
        invariant Appended(edge, different, toBeAdded).0 == done + Appended(edge, different, toBeAdded[k..]).0
        invariant Appended(edge, different, toBeAdded).1 == Appended(edge, different, toBeAdded[k..]).1
      {
        assert toBeAdded[k..][1..] == toBeAdded[k + 1..];
        if toBeAdded[k] == edge {
          k := k + 1;
          continue;
        }
        if toBeAdded[k] in different {
          valid := false;
          return false;
        }
        same := same + [toBeAdded[k]];
        done := done + [toBeAdded[k]];
        k := k + 1;
      }
      return true;
    }

    /** addToDifferent: the mirror case, appending to `different` and failing at the
        first edge already in `same`. */
    method AddToDifferent(toBeAdded: seq<Edge>) returns (ok: bool)
      modifies this
      ensures ok == Appended(edge, same, toBeAdded).1
      ensures different == old(different) + Appended(edge, same, toBeAdded).0
      ensures valid == (old(valid) && ok)
      ensures edge == old(edge) && same == old(same)
      ensures Consistent(old(edge), old(same), old(different)) ==> Consistent(edge, same, different)
    {
      var k := 0;
      ghost var done: seq<Edge> := [];
      assert toBeAdded[0..] == toBeAdded;
      while k < |toBeAdded|
        invariant 0 <= k <= |toBeAdded|
        invariant edge == old(edge) && same == old(same) && valid == old(valid)
        invariant different == old(different) + done
        invariant Appended(edge, same, toBeAdded).0 == done + Appended(edge, same, toBeAdded[k..]).0
        invariant Appended(edge, same, toBeAdded).1 == Appended(edge, same, toBeAdded[k..]).1
      {
        assert toBeAdded[k..][1..] == toBeAdded[k + 1..];
        if toBeAdded[k] == edge {
          k := k + 1;
          continue;
        }
        if toBeAdded[k] in same {
          valid := false;
          return false;
        }
        different := different + [toBeAdded[k]];
        done := done + [toBeAdded[k]];
        k := k + 1;
      }
      return true;
    }
  }
}
