/** The constraint sets of the LR planarity test
    (GraphDrawingTheory/src/graph/algorithms/lrpartition/LRPartitionSet.java).

    The Java code keeps lists of edges that must end up on the same side (`same`) and
    pairs of such lists that must end up on different sides (`exclusivePairs`). The
    pairs hold the very list objects that `same` holds, and joining two lists extends one
    of them in place, which the pairs then see. The model keeps this sharing: every list
    object lives in `store` under its identity (its position there), `same` holds
    identities, and an exclusive pair is a pair of identities. Edge identity (`==`,
    `contains`) is equality of edge values. */
module LRPartitionSets {
  import opened Wrappers
  import opened GraphElements

  /** The identity of a list object: its position in the store. */
  type ListId = nat

  /** ExclusivePair(class1, class2): the two lists must lie on different sides. */
  datatype ExclusivePair = ExclusivePair(class1: ListId, class2: ListId)

  /** The contents of a list object. */
  function Contents(store: seq<seq<Edge>>, id: ListId): seq<Edge>
  {
    if id < |store| then store[id] else []
  }

  /** containSame: some edge is in both lists. */
  predicate Shares(a: seq<Edge>, b: seq<Edge>)
  {
    exists i :: 0 <= i < |a| && a[i] in b
  }

  /** Sharing an edge does not depend on the order of the lists. */
  lemma SharesSymmetric(a: seq<Edge>, b: seq<Edge>)
    ensures Shares(a, b) <==> Shares(b, a)
  {
    if Shares(a, b) {
      var i :| 0 <= i < |a| && a[i] in b;
      var j :| 0 <= j < |b| && b[j] == a[i];
    }
    if Shares(b, a) {
      var j :| 0 <= j < |b| && b[j] in a;
      var i :| 0 <= i < |a| && a[i] == b[j];
    }
  }

  /** No two lists at different positions of `same` share an edge. */
  ghost predicate NoOverlap(store: seq<seq<Edge>>, same: seq<ListId>)
  {
    forall a, b :: 0 <= a < b < |same| ==> !SharesAt(store, same, a, b)
  }

  /** The lists at positions a and b of `same` share an edge. */
  ghost predicate SharesAt(store: seq<seq<Edge>>, same: seq<ListId>, a: int, b: int)
  {
    0 <= a < |same| && 0 <= b < |same| && Shares(Contents(store, same[a]), Contents(store, same[b]))
  }

  /** What the overlap search knows after its first `rows` rows, having settled on
      (i1, i2): the two lists share an edge; i2 is the first partner of row i1; either
      they are neighbours or row i1 is the first row with any partner; and no later
      row examined shares an edge with its neighbour. */
  ghost predicate PickedUpTo(store: seq<seq<Edge>>, same: seq<ListId>, i1: int, i2: int, rows: nat)
  {
    && 0 <= i1 < i2 < |same|
    && SharesAt(store, same, i1, i2)
    && (forall b :: i1 < b < i2 ==> !SharesAt(store, same, i1, b))
    && (i2 == i1 + 1 || forall a, b :: 0 <= a < i1 && a < b < |same| ==> !SharesAt(store, same, a, b))
    && (forall a, b :: i1 < a < rows && b == a + 1 ==> !SharesAt(store, same, a, b))
  }

  /** The pair organizePartitions' search picks: the first row with a partner and its
      first partner, unless some later row shares an edge with its neighbour, in which
      case the last such row and its neighbour. */
  ghost predicate PickedOverlap(store: seq<seq<Edge>>, same: seq<ListId>, i1: int, i2: int)
  {
    PickedUpTo(store, same, i1, i2, |same|)
  }

  /** The search's pair is determined by the lists: at most one pair is picked. */
  lemma PickedOverlapUnique(store: seq<seq<Edge>>, same: seq<ListId>, i1: int, i2: int, j1: int, j2: int)
    requires PickedOverlap(store, same, i1, i2) && PickedOverlap(store, same, j1, j2)
    ensures i1 == j1 && i2 == j2
  {
    // A later first row is either a neighbour pair, which the earlier pick's last
    // clause excludes, or the first row with a partner, which the earlier pair refutes.
    if i1 < j1 {
      assert false;
    } else if j1 < i1 {
      assert false;
    }
  }

  /** The exclusive pair ep puts e1 and e2 on different sides. */
  predicate Separates(store: seq<seq<Edge>>, ep: ExclusivePair, e1: Edge, e2: Edge)
  {
    || (e1 in Contents(store, ep.class1) && e2 in Contents(store, ep.class2))
    || (e2 in Contents(store, ep.class1) && e1 in Contents(store, ep.class2))
  }

  /** Some exclusive pair puts e1 and e2 on different sides. */
  predicate Conflict(store: seq<seq<Edge>>, pairs: seq<ExclusivePair>, e1: Edge, e2: Edge)
  {
    exists k :: 0 <= k < |pairs| && Separates(store, pairs[k], e1, e2)
  }

  /** Two different edges of one list must lie on different sides. */
  predicate InternalConflict(store: seq<seq<Edge>>, pairs: seq<ExclusivePair>, l: seq<Edge>)
  {
    exists a, b :: 0 <= a < |l| && 0 <= b < |l| && l[a] != l[b] && Conflict(store, pairs, l[a], l[b])
  }

  /** Some edge of l1 and some edge of l2 must lie on different sides. */
  predicate ListsConflict(store: seq<seq<Edge>>, pairs: seq<ExclusivePair>, l1: seq<Edge>, l2: seq<Edge>)
  {
    exists a, b :: 0 <= a < |l1| && 0 <= b < |l2| && Conflict(store, pairs, l1[a], l2[b])
  }

  /** Every two different lists of `same` conflict, so no further join is possible. */
  ghost predicate AllConflict(store: seq<seq<Edge>>, pairs: seq<ExclusivePair>, same: seq<ListId>)
  {
    forall a, b :: 0 <= a < |same| && 0 <= b < |same| && same[a] != same[b] ==>
      ListsConflict(store, pairs, Contents(store, same[a]), Contents(store, same[b]))
  }

  /** exclusiveJoin(list1, list2): list1 followed by the edges of list2 it lacks, each
      once, checked against the growing list1. */
  function JoinMissing(list1: seq<Edge>, list2: seq<Edge>): (r: seq<Edge>)
    ensures list1 <= r
    ensures forall e :: e in r <==> e in list1 || e in list2
    decreases |list2|
  {
    if list2 == [] then list1
    else JoinMissing(if list2[0] in list1 then list1 else list1 + [list2[0]], list2[1..])
  }

  /** exclusiveJoin adds each missing edge once: a list without repeated edges stays
      without them, whatever the second list holds. */
  lemma {:induction false} JoinMissingNoDuplicates(list1: seq<Edge>, list2: seq<Edge>)
    requires NoDuplicates(list1)
    ensures NoDuplicates(JoinMissing(list1, list2))
    decreases |list2|
  {
    if list2 != [] {
      var next := if list2[0] in list1 then list1 else list1 + [list2[0]];
      assert NoDuplicates(next) by {
        if list2[0] !in list1 {
          forall i, j | 0 <= i < j < |next| ensures next[i] != next[j] {
            if j == |list1| {
              assert next[i] == list1[i];
            }
          }
        }
      }
      JoinMissingNoDuplicates(next, list2[1..]);
    }
  }

  /** An edge lies in some list of `same`. */
  ghost predicate InSame(store: seq<seq<Edge>>, same: seq<ListId>, e: Edge)
  {
    exists k :: 0 <= k < |same| && e in Contents(store, same[k])
  }

  /** The position of the first list of `same` whose contents equal c (List.remove by
      equals). */
  function FirstEqual(store: seq<seq<Edge>>, same: seq<ListId>, c: seq<Edge>): (r: Option<nat>)
    ensures r.None? <==> forall k :: 0 <= k < |same| ==> Contents(store, same[k]) != c
    ensures r.Some? ==> r.value < |same| && Contents(store, same[r.value]) == c
  {
    if same == [] then None
    else if Contents(store, same[0]) == c then Some(0)
    else match FirstEqual(store, same[1..], c)
      case None => None
      case Some(k) => Some(k + 1)
  }

  /** Merging the list at position i2 into the one at i1 and dropping position i2 keeps
      the set of edges covered by `same`. */
  lemma MergeKeepsEdges(store: seq<seq<Edge>>, same: seq<ListId>, i1: nat, i2: nat, joined: seq<Edge>, e: Edge)
    requires i1 < |same| && i2 < |same| && i1 != i2 && same[i1] < |store|
    requires forall x :: x in joined <==> x in Contents(store, same[i1]) || x in Contents(store, same[i2])
    ensures var s2 := store[same[i1] := joined];
      InSame(s2, same[..i2] + same[i2 + 1..], e) <==> InSame(store, same, e)
  {
    if InSame(store, same, e) {
      MergeKeepsOld(store, same, i1, i2, joined, e);
    }
    if InSame(store[same[i1] := joined], same[..i2] + same[i2 + 1..], e) {
      MergeAddsNothing(store, same, i1, i2, joined, e);
    }
  }

  /** An edge covered before the merge is covered after it. */
  lemma MergeKeepsOld(store: seq<seq<Edge>>, same: seq<ListId>, i1: nat, i2: nat, joined: seq<Edge>, e: Edge)
    requires i1 < |same| && i2 < |same| && i1 != i2 && same[i1] < |store|
    requires forall x :: x in Contents(store, same[i1]) || x in Contents(store, same[i2]) ==> x in joined
    requires InSame(store, same, e)
    ensures InSame(store[same[i1] := joined], same[..i2] + same[i2 + 1..], e)
  {
    var s2 := store[same[i1] := joined];
    var rest := same[..i2] + same[i2 + 1..];
    var k :| 0 <= k < |same| && e in Contents(store, same[k]);
    if same[k] == same[i1] || k == i2 {
      var j1 := if i1 < i2 then i1 else i1 - 1;
      assert rest[j1] == same[i1];
      assert e in Contents(s2, rest[j1]);
    } else {
      var j := if k < i2 then k else k - 1;
      assert rest[j] == same[k];
      assert e in Contents(s2, rest[j]);
    }
  }

  /** An edge covered after the merge was covered before it. */
  lemma MergeAddsNothing(store: seq<seq<Edge>>, same: seq<ListId>, i1: nat, i2: nat, joined: seq<Edge>, e: Edge)
    requires i1 < |same| && i2 < |same| && i1 != i2 && same[i1] < |store|
    requires forall x :: x in joined ==> x in Contents(store, same[i1]) || x in Contents(store, same[i2])
    requires InSame(store[same[i1] := joined], same[..i2] + same[i2 + 1..], e)
    ensures InSame(store, same, e)
  {
    var s2 := store[same[i1] := joined];
    var rest := same[..i2] + same[i2 + 1..];
    var j :| 0 <= j < |rest| && e in Contents(s2, rest[j]);
    var k := if j < i2 then j else j + 1;
    assert rest[j] == same[k];
    if same[k] == same[i1] {
      assert e in Contents(store, same[i1]) || e in Contents(store, same[i2]);
    } else {
      assert e in Contents(store, same[k]);
    }
  }

  /** Appending the list object id2 to the list object id1, both listed in `same`,
      changes no edge's membership in the lists of `same`. */
  lemma GrowKeepsEdges(store: seq<seq<Edge>>, same: seq<ListId>, p1: nat, p2: nat, e: Edge)
    requires p1 < |same| && p2 < |same| && same[p1] < |store| && same[p2] < |store|
    ensures var s2 := store[same[p1] := store[same[p1]] + store[same[p2]]];
      InSame(s2, same, e) <==> InSame(store, same, e)
  {
    var s2 := store[same[p1] := store[same[p1]] + store[same[p2]]];
    if InSame(store, same, e) {
      var k :| 0 <= k < |same| && e in Contents(store, same[k]);
      assert e in Contents(s2, same[k]);
    }
    if InSame(s2, same, e) {
      var k :| 0 <= k < |same| && e in Contents(s2, same[k]);
      if same[k] == same[p1] {
        assert e in Contents(store, same[p1]) || e in Contents(store, same[p2]);
      } else {
        assert e in Contents(store, same[k]);
      }
    }
  }

  /** Removing the position `at` of `same` changes no edge's membership when another
      position q lists a superset of its edges. */
  lemma DropCoveredKeepsEdges(store: seq<seq<Edge>>, same: seq<ListId>, at: nat, q: nat, e: Edge)
    requires at < |same| && q < |same| && at != q
    requires forall x :: x in Contents(store, same[at]) ==> x in Contents(store, same[q])
    ensures InSame(store, same[..at] + same[at + 1..], e) <==> InSame(store, same, e)
  {
    var rest := same[..at] + same[at + 1..];
    if InSame(store, same, e) {
      var k :| 0 <= k < |same| && e in Contents(store, same[k]);
      var k' := if k == at then q else k;
      assert e in Contents(store, same[k']);
      var j := if k' < at then k' else k' - 1;
      assert rest[j] == same[k'];
    }
    if InSame(store, rest, e) {
      var j :| 0 <= j < |rest| && e in Contents(store, rest[j]);
      var k := if j < at then j else j + 1;
      assert rest[j] == same[k];
    }
  }

  /** Adding an empty list object and listing it changes no edge's membership. */
  /** A new empty list object changes no list's contents, so lists that all conflict
      still do. */
  lemma PadKeepsConflicts(store: seq<seq<Edge>>, pairs: seq<ExclusivePair>, same: seq<ListId>)
    requires AllConflict(store, pairs, same)
    ensures AllConflict(store + [[]], pairs, same)
  {
    var s2 := store + [[]];
    forall a, b | 0 <= a < |same| && 0 <= b < |same| && same[a] != same[b]
      ensures ListsConflict(s2, pairs, Contents(s2, same[a]), Contents(s2, same[b]))
    {
      var l1, l2 := Contents(store, same[a]), Contents(store, same[b]);
      assert Contents(s2, same[a]) == l1 && Contents(s2, same[b]) == l2;
      var x, y :| 0 <= x < |l1| && 0 <= y < |l2| && Conflict(store, pairs, l1[x], l2[y]);
      var k :| 0 <= k < |pairs| && Separates(store, pairs[k], l1[x], l2[y]);
      assert Contents(s2, pairs[k].class1) == Contents(store, pairs[k].class1);
      assert Contents(s2, pairs[k].class2) == Contents(store, pairs[k].class2);
      assert Separates(s2, pairs[k], l1[x], l2[y]);
    }
  }

  lemma PadKeepsEdges(store: seq<seq<Edge>>, same: seq<ListId>, e: Edge)
    ensures InSame(store + [[]], same + [|store|], e) <==> InSame(store, same, e)
  {
    var s2, same2 := store + [[]], same + [|store|];
    assert forall id :: Contents(s2, id) == Contents(store, id);
    if InSame(store, same, e) {
      var k :| 0 <= k < |same| && e in Contents(store, same[k]);
      assert same2[k] == same[k];
    }
    if InSame(s2, same2, e) {
      var k :| 0 <= k < |same2| && e in Contents(s2, same2[k]);
      assert k < |same| && same2[k] == same[k];
    }
  }

  /** The constraint sets: list objects, the lists that go to one side each, and the
      pairs of lists that must go to different sides. */
  class LRPartitionSet {
    var store: seq<seq<Edge>>
    var same: seq<ListId>
    var exclusivePairs: seq<ExclusivePair>

    /** Every identity in use names a list object. */
    ghost predicate Valid()
      reads this
    {
      && (forall k :: 0 <= k < |same| ==> same[k] < |store|)
      && (forall k :: 0 <= k < |exclusivePairs| ==>
            exclusivePairs[k].class1 < |store| && exclusivePairs[k].class2 < |store|)
    }

    /** LRPartitionSet(tree): no lists and no pairs; the DFS tree is only used by
        addRemainingEdges, which is not part of this model. */
    constructor()
      ensures store == [] && same == [] && exclusivePairs == []
      ensures Valid()
    {
      store := [];
      same := [];
      exclusivePairs := [];
    }

    /** add(class1, class2): refuses two classes with a common edge; otherwise records
        each non-empty class in `same`, and the pair when both are non-empty. */
    method Add(class1: seq<Edge>, class2: seq<Edge>) returns (ok: bool)
      requires Valid()
      modifies this
      ensures Valid()
      ensures ok <==> !Shares(class1, class2)
      ensures !ok ==> store == old(store) && same == old(same) && exclusivePairs == old(exclusivePairs)
      ensures ok ==> store == old(store) + [class1, class2]
      ensures ok ==> (same == old(same)
        + (if |class1| > 0 then [|old(store)|] else [])
        + (if |class2| > 0 then [|old(store)| + 1] else []))
      ensures ok ==> (exclusivePairs == old(exclusivePairs)
        + (if |class1| > 0 && |class2| > 0 then [ExclusivePair(|old(store)|, |old(store)| + 1)] else []))
    {
      var k := 0;
      while k < |class1|
        invariant 0 <= k <= |class1|
        invariant forall i :: 0 <= i < k ==> class1[i] !in class2
      {
        if class1[k] in class2 {
          return false;
        }
        k := k + 1;
      }
      var id1 := |store|;
      store := store + [class1, class2];
      if |class1| > 0 {
        same := same + [id1];
      }
      if |class2| > 0 {
        same := same + [id1 + 1];
      }
      if |class1| > 0 && |class2| > 0 {
        exclusivePairs := exclusivePairs + [ExclusivePair(id1, id1 + 1)];
      }
      return true;
    }

    /** containSame(list1, list2): walks the shorter list looking for an edge of the
        other. */
    static method ContainSame(list1: seq<Edge>, list2: seq<Edge>) returns (r: bool)
      ensures r <==> Shares(list1, list2)
    {
      SharesSymmetric(list1, list2);
      var iterList, otherList := list1, list2;
      if |list2| <= |list1| {
        iterList, otherList := list2, list1;
      }
      var k := 0;
      while k < |iterList|
        invariant 0 <= k <= |iterList|
        invariant forall i :: 0 <= i < k ==> iterList[i] !in otherList
      {
        if iterList[k] in otherList {
          return true;
        }
        k := k + 1;
      }
      return false;
    }

    /** One row of that search, the inner loop at row i. Before any pair is found it
        looks for the first list after row i sharing an edge with row i; once a pair is
        found it only compares row i with row i + 1, since the inner loop stops after
        its first comparison. */
    method ScanRow(i: nat, in1: int, in2: int) returns (index1: int, index2: int)
      requires i < |same|
      ensures in1 == -1 ==>
        || (index1 == -1 && forall b :: i < b < |same| ==> !SharesAt(store, same, i, b))
        || (index1 == i && i < index2 < |same| && SharesAt(store, same, i, index2)
            && forall b :: i < b < index2 ==> !SharesAt(store, same, i, b))
      ensures in1 != -1 ==>
        if i + 1 < |same| && SharesAt(store, same, i, i + 1) then index1 == i && index2 == i + 1
        else index1 == in1 && index2 == in2
    {
      index1, index2 := in1, in2;
      var j := i + 1;
      while j < |same|
        invariant i + 1 <= j <= |same|
        invariant index1 == in1 && index2 == in2
        invariant in1 == -1 ==> forall b :: i < b < j ==> !SharesAt(store, same, i, b)
        invariant in1 != -1 ==> j == i + 1
      {
        var c := ContainSame(Contents(store, same[i]), Contents(store, same[j]));
        if c {
          index1, index2 := i, j;
          break;
        }
        if index1 != -1 {
          break;
        }
        j := j + 1;
      }
    }

    /** The search at the start of each round of organizePartitions' first loop: -1
        when no two lists share an edge, and otherwise the pair PickedOverlap describes
        (the outer loop has no break, so a later adjacent overlapping pair wins). */
    method FindOverlap() returns (index1: int, index2: int)
      ensures index1 == -1 <==> NoOverlap(store, same)
      ensures index1 != -1 ==> PickedOverlap(store, same, index1, index2)
    {
      index1, index2 := -1, -1;
      var i := 0;
      while i < |same|
        invariant 0 <= i <= |same|
        invariant index1 == -1 ==> forall a, b :: 0 <= a < i && a < b < |same| ==> !SharesAt(store, same, a, b)
        invariant index1 != -1 ==> index1 < i && PickedUpTo(store, same, index1, index2, i)
      {
        index1, index2 := ScanRow(i, index1, index2);
        i := i + 1;
      }
    }

    /** exclusiveJoin(list1, list2): appends to list object id1 the edges of id2 it
        lacks. */
    method ExclusiveJoin(id1: ListId, id2: ListId)
      requires id1 < |store|
      modifies this
      ensures store == old(store)[id1 := JoinMissing(old(store)[id1], Contents(old(store), id2))]
      ensures same == old(same) && exclusivePairs == old(exclusivePairs)
    {
      var list1, list2 := store[id1], Contents(store, id2);
      var k := 0;
      while k < |list2|
        invariant 0 <= k <= |list2|
        invariant JoinMissing(list1, list2[k..]) == JoinMissing(old(store)[id1], list2)
      {
        assert list2[k..][1..] == list2[k + 1..];
        if list2[k] !in list1 {
          list1 := list1 + [list2[k]];
        }
        k := k + 1;
      }
      assert list2[k..] == [];
      store := store[id1 := list1];
    }

    /** The first loop of organizePartitions: while two lists share an edge, the later
        one is joined into the earlier one and dropped. Afterwards no two lists share an
        edge, and the lists cover the same edges as before. */
    method MergeOverlapping()
      requires Valid()
      modifies this
      ensures Valid()
      ensures NoOverlap(store, same)
      ensures |same| <= |old(same)| && exclusivePairs == old(exclusivePairs)
      ensures forall e :: InSame(store, same, e) <==> InSame(old(store), old(same), e)
    {
      var shouldContinue := true;
      while shouldContinue
        invariant Valid()
        invariant !shouldContinue ==> NoOverlap(store, same)
        invariant |same| <= |old(same)| && exclusivePairs == old(exclusivePairs)
        invariant forall e :: InSame(store, same, e) <==> InSame(old(store), old(same), e)
        decreases |same| + (if shouldContinue then 1 else 0)
      {
        var index1, index2 := FindOverlap();
        if index1 != -1 {
          ghost var before, beforeStore := same, store;
          ExclusiveJoin(same[index1], same[index2]);
          same := same[..index2] + same[index2 + 1..];
          forall e ensures InSame(store, same, e) <==> InSame(beforeStore, before, e) {
            MergeKeepsEdges(beforeStore, before, index1, index2, store[before[index1]], e);
          }
        } else {
          shouldContinue := false;
        }
      }
    }

    /** Whether some exclusive pair puts e1 and e2 on different sides. */
    method PairConflict(e1: Edge, e2: Edge) returns (r: bool)
      ensures r <==> Conflict(store, exclusivePairs, e1, e2)
    {
      var k := 0;
      while k < |exclusivePairs|
        invariant 0 <= k <= |exclusivePairs|
        invariant forall i :: 0 <= i < k ==> !Separates(store, exclusivePairs[i], e1, e2)
      {
        var ep := exclusivePairs[k];
        if (e1 in Contents(store, ep.class1) && e2 in Contents(store, ep.class2))
          || (e2 in Contents(store, ep.class1) && e1 in Contents(store, ep.class2))
        {
          return true;
        }
        k := k + 1;
      }
      return false;
    }

    /** Whether e1 conflicts with a different edge of the list. */
    method ConflictWithinList(e1: Edge, list: seq<Edge>) returns (r: bool)
      ensures r <==> exists b :: 0 <= b < |list| && e1 != list[b] && Conflict(store, exclusivePairs, e1, list[b])
    {
      var k := 0;
      while k < |list|
        invariant 0 <= k <= |list|
        invariant forall b :: 0 <= b < k && e1 != list[b] ==> !Conflict(store, exclusivePairs, e1, list[b])
      {
        if e1 != list[k] {
          var c := PairConflict(e1, list[k]);
          if c {
            return true;
          }
        }
        k := k + 1;
      }
      return false;
    }

    /** The second loop of organizePartitions: whether no list holds two edges that an
        exclusive pair separates. */
    method NoInternalConflicts() returns (r: bool)
      ensures r <==> forall k :: 0 <= k < |same| ==>
        !InternalConflict(store, exclusivePairs, Contents(store, same[k]))
    {
      var k := 0;
      while k < |same|
        invariant 0 <= k <= |same|
        invariant forall i :: 0 <= i < k ==> !InternalConflict(store, exclusivePairs, Contents(store, same[i]))
      {
        var list := Contents(store, same[k]);
        var a := 0;
        while a < |list|
          invariant 0 <= a <= |list|
          invariant forall x, y :: 0 <= x < a && 0 <= y < |list| && list[x] != list[y] ==>
            !Conflict(store, exclusivePairs, list[x], list[y])
        {
          var c := ConflictWithinList(list[a], list);
          if c {
            return false;
          }
          a := a + 1;
        }
        k := k + 1;
      }
      return true;
    }

    /** Whether some edge of list1 conflicts with some edge of list2. */
    method ListsInConflict(list1: seq<Edge>, list2: seq<Edge>) returns (r: bool)
      ensures r <==> ListsConflict(store, exclusivePairs, list1, list2)
    {
      var a := 0;
      while a < |list1|
        invariant 0 <= a <= |list1|
        invariant forall x, y :: 0 <= x < a && 0 <= y < |list2| ==> !Conflict(store, exclusivePairs, list1[x], list2[y])
      {
        var b := 0;
        while b < |list2|
          invariant 0 <= b <= |list2|
          invariant forall y :: 0 <= y < b ==> !Conflict(store, exclusivePairs, list1[a], list2[y])
        {
          var c := PairConflict(list1[a], list2[b]);
          if c {
            return true;
          }
          b := b + 1;
        }
        a := a + 1;
      }
      return false;
    }

    /** The search of one round of joinPartitions: the first two different lists (in
        the order of `same`, outer then inner) that do not conflict. */
    method FindJoinable() returns (found: bool, p1: nat, p2: nat)
      ensures found ==> (p1 < |same| && p2 < |same| && same[p1] != same[p2]
        && !ListsConflict(store, exclusivePairs, Contents(store, same[p1]), Contents(store, same[p2])))
      ensures !found ==> AllConflict(store, exclusivePairs, same)
    {
      var a := 0;
      while a < |same|
        invariant 0 <= a <= |same|
        invariant forall x, y :: 0 <= x < a && 0 <= y < |same| && same[x] != same[y] ==>
          ListsConflict(store, exclusivePairs, Contents(store, same[x]), Contents(store, same[y]))
      {
        var b := 0;
        while b < |same|
          invariant 0 <= b <= |same|
          invariant forall y :: 0 <= y < b && same[a] != same[y] ==>
            ListsConflict(store, exclusivePairs, Contents(store, same[a]), Contents(store, same[y]))
        {
          if same[a] != same[b] {
            var c := ListsInConflict(Contents(store, same[a]), Contents(store, same[b]));
            if !c {
              return true, a, b;
            }
          }
          b := b + 1;
        }
        a := a + 1;
      }
      return false, 0, 0;
    }

    /** joinPartitions: while two different lists do not conflict, the second is
        appended to the first and the first list of `same` equal to it is removed.
        Afterwards every two different lists conflict. */
    method JoinPartitions()
      requires Valid()
      modifies this
      ensures Valid()
      ensures AllConflict(store, exclusivePairs, same)
      ensures |same| <= |old(same)| && exclusivePairs == old(exclusivePairs)
      ensures forall e :: InSame(store, same, e) <==> InSame(old(store), old(same), e)
    {
      var modifications := true;
      while modifications
        invariant Valid()
        invariant !modifications ==> AllConflict(store, exclusivePairs, same)
        invariant |same| <= |old(same)| && exclusivePairs == old(exclusivePairs)
        invariant forall e :: InSame(store, same, e) <==> InSame(old(store), old(same), e)
        decreases |same| + (if modifications then 1 else 0)
      {
        var found, p1, p2 := FindJoinable();
        modifications := found;
        if found {
          JoinStep(p1, p2);
        }
      }
    }

    /** One join: list object same[p2] is appended to list object same[p1], then the
        first position whose list equals the (unchanged) second list is removed; no
        edge enters or leaves the lists of `same`. */
    method JoinStep(p1: nat, p2: nat)
      requires Valid() && p1 < |same| && p2 < |same| && same[p1] != same[p2]
      modifies this
      ensures Valid() && |same| == |old(same)| - 1 && exclusivePairs == old(exclusivePairs)
      ensures forall e :: InSame(store, same, e) <==> InSame(old(store), old(same), e)
    {
      var id1, id2 := same[p1], same[p2];
      store := store[id1 := store[id1] + store[id2]];
      var at := FirstEqual(store, same, Contents(store, id2));
      assert at.Some? by {
        assert Contents(store, same[p2]) == Contents(store, id2);
      }
      var q := if at.value == p2 then p1 else p2;
      assert forall x :: x in Contents(store, same[at.value]) ==> x in Contents(store, same[q]);
      forall e | true
        ensures InSame(store, same[..at.value] + same[at.value + 1..], e) <==> InSame(old(store), same, e)
      {
        GrowKeepsEdges(old(store), same, p1, p2, e);
        DropCoveredKeepsEdges(store, same, at.value, q, e);
      }
      same := same[..at.value] + same[at.value + 1..];
    }

    /** organizePartitions up to the random placement of the remaining edges: merge
        overlapping lists, fail on a list with an internal conflict, join what can be
        joined, fail when more than two lists remain, and pad to exactly two lists.
        mergedStore and merged are the lists after the merging loop, n the number of
        lists after joining (the merged count when the conflict check fails first). */
    method OrganizePartitions() returns (ok: bool, ghost mergedStore: seq<seq<Edge>>, ghost merged: seq<ListId>, ghost n: nat)
      requires Valid()
      modifies this
      ensures Valid()
      ensures NoOverlap(mergedStore, merged)
      ensures forall e :: InSame(mergedStore, merged, e) <==> InSame(old(store), old(same), e)
      ensures ok <==>
        (forall k :: 0 <= k < |merged| ==> !InternalConflict(mergedStore, exclusivePairs, Contents(mergedStore, merged[k])))
        && n <= 2
      ensures ok ==> |same| == 2 && AllConflict(store, exclusivePairs, same[..n])
      ensures ok ==> forall k :: n <= k < 2 ==> Contents(store, same[k]) == []
      ensures !ok ==>
        (|same| > 2 || exists k :: 0 <= k < |same| && InternalConflict(store, exclusivePairs, Contents(store, same[k])))
      ensures exclusivePairs == old(exclusivePairs)
      ensures forall e :: InSame(store, same, e) <==> InSame(old(store), old(same), e)
    {
      MergeOverlapping();
      mergedStore, merged := store, same;
      var free := NoInternalConflicts();
      if !free {
        n := |same|;
        return false, mergedStore, merged, n;
      }
      JoinPartitions();
      n := |same|;
      if |same| > 2 {
        return false, mergedStore, merged, n;
      } else if |same| < 2 {
        ghost var joined := same;
        var numToAdd := 2 - |same|;
        for i := 0 to numToAdd
          invariant Valid()
          invariant |same| == 2 - numToAdd + i
          invariant same[..n] == joined && AllConflict(store, exclusivePairs, joined)
          invariant forall k :: n <= k < |same| ==> Contents(store, same[k]) == []
          invariant exclusivePairs == old(exclusivePairs)
          invariant forall e :: InSame(store, same, e) <==> InSame(old(store), old(same), e)
        {
          forall e | true
            ensures InSame(store + [[]], same + [|store|], e) <==> InSame(store, same, e)
          {
            PadKeepsEdges(store, same, e);
          }
          PadKeepsConflicts(store, exclusivePairs, joined);
          store := store + [[]];
          same := same + [|store| - 1];
        }
      }
      return true, mergedStore, merged, n;
    }
  }
}
