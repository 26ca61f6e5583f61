/** Nodes of a PQ-tree (GraphDrawingTheory/src/graph/tree/pq/PQTreeNode.java).

    A node knows its parent, its children in order, and three further lists naming the
    children that are full, singly partial and empty; every one of them is updated in
    place. Nodes are compared by reference, as the Java lists compare them. A leaf's
    child lists are null in Java; here `listsAllocated` records whether they exist, and
    the methods that use them require it. */
module PQTreeNodes {
  import opened GraphElements

  /** PQNodeType. */
  datatype NodeType = P | Q | Leaf

  /** PQNodeLabel; `Unset` stands for a label never assigned (null). */
  datatype Label = Unset | Empty | SinglyPartial | DoublyPartial | Full

  /** The labels of a list of nodes, in order. */
  function LabelsOf(cs: seq<PQTreeNode>): (r: seq<Label>)
    reads cs`nodeLabel
    ensures |r| == |cs|
  {
    if cs == [] then [] else [cs[0].nodeLabel] + LabelsOf(cs[1..])
  }

  /** The label at position i is the label of the node at position i. */
  lemma {:induction false} LabelsAt(cs: seq<PQTreeNode>)
    ensures forall i :: 0 <= i < |cs| ==> LabelsOf(cs)[i] == cs[i].nodeLabel
    decreases |cs|
  {
    if cs != [] {
      LabelsAt(cs[1..]);
    }
  }

  /** The members of cs whose label (given position by position in ls) is l. */
  function Select<T>(cs: seq<T>, ls: seq<Label>, l: Label): (r: seq<T>)
    requires |cs| == |ls|
    ensures forall x :: x in r ==> x in cs
    decreases |cs|
  {
    if cs == [] then [] else (if ls[0] == l then [cs[0]] else []) + Select(cs[1..], ls[1..], l)
  }

  /** How often l occurs. */
  function Count(ls: seq<Label>, l: Label): (r: nat)
    ensures r <= |ls|
  {
    if ls == [] then 0 else (if ls[0] == l then 1 else 0) + Count(ls[1..], l)
  }

  lemma {:induction false} SelectAppend<T>(a: seq<T>, la: seq<Label>, b: seq<T>, lb: seq<Label>, l: Label)
    requires |a| == |la| && |b| == |lb|
    ensures Select(a + b, la + lb, l) == Select(a, la, l) + Select(b, lb, l)
    decreases |a|
  {
    if a == [] {
      assert a + b == b && la + lb == lb;
    } else {
      var ab, lab := a + b, la + lb;
      assert ab[0] == a[0] && lab[0] == la[0];
      assert ab[1..] == a[1..] + b && lab[1..] == la[1..] + lb;
      SelectAppend(a[1..], la[1..], b, lb, l);
      assert Select(ab, lab, l) == (if la[0] == l then [a[0]] else []) + Select(a[1..] + b, la[1..] + lb, l);
    }
  }

  /** Selecting around one position. */
  lemma SelectSplit<T>(cs: seq<T>, ls: seq<Label>, k: nat, l: Label)
    requires |cs| == |ls| && k < |cs|
    ensures Select(cs, ls, l)
      == Select(cs[..k], ls[..k], l) + (if ls[k] == l then [cs[k]] else []) + Select(cs[k + 1..], ls[k + 1..], l)
  {
    assert cs == cs[..k] + ([cs[k]] + cs[k + 1..]);
    assert ls == ls[..k] + ([ls[k]] + ls[k + 1..]);
    SelectAppend(cs[..k], ls[..k], [cs[k]] + cs[k + 1..], [ls[k]] + ls[k + 1..], l);
    SelectAppend([cs[k]], [ls[k]], cs[k + 1..], ls[k + 1..], l);
  }

  /** Relabelling the member at k moves it from the selection of its old label to the
      selection of its new one, and leaves every other selection as it was. */
  lemma SelectRelabel<T>(cs: seq<T>, ls: seq<Label>, k: nat, m: Label, l: Label)
    requires |cs| == |ls| && k < |cs|
    ensures multiset(Select(cs, ls[k := m], l))
      == multiset(Select(cs, ls, l))
        - (if ls[k] == l then multiset{cs[k]} else multiset{})
        + (if m == l then multiset{cs[k]} else multiset{})
  {
    var ls2 := ls[k := m];
    var before, after := ls[..k], ls[k + 1..];
    assert ls2[..k] == before && ls2[k + 1..] == after && ls2[k] == m;
    SelectSplit(cs, ls, k, l);
    SelectSplit(cs, ls2, k, l);
    var a, b := Select(cs[..k], before, l), Select(cs[k + 1..], after, l);
    var j1 := if ls[k] == l then [cs[k]] else [];
    var j2 := if m == l then [cs[k]] else [];
    assert Select(cs, ls, l) == a + j1 + b;
    assert Select(cs, ls2, l) == a + j2 + b;
    MultisetSwap(a, j1, j2, b);
    assert multiset(j1) == (if ls[k] == l then multiset{cs[k]} else multiset{});
    assert multiset(j2) == (if m == l then multiset{cs[k]} else multiset{});
  }

  lemma MultisetSwap<T>(a: seq<T>, j1: seq<T>, j2: seq<T>, b: seq<T>)
    ensures multiset(a + j2 + b) == multiset(a + j1 + b) - multiset(j1) + multiset(j2)
  {
    assert multiset(a + j1 + b) == multiset(a) + multiset(j1) + multiset(b);
    assert multiset(a + j2 + b) == multiset(a) + multiset(j2) + multiset(b);
  }

  /** Dropping the member at k removes it from the selection of its label only. */
  lemma SelectRemoveAt<T>(cs: seq<T>, ls: seq<Label>, k: nat, l: Label)
    requires |cs| == |ls| && k < |cs|
    ensures multiset(Select(cs[..k] + cs[k + 1..], ls[..k] + ls[k + 1..], l))
      == multiset(Select(cs, ls, l)) - (if ls[k] == l then multiset{cs[k]} else multiset{})
  {
    SelectSplit(cs, ls, k, l);
    SelectAppend(cs[..k], ls[..k], cs[k + 1..], ls[k + 1..], l);
  }

  /** Inserting x with label m at k adds it to the selection of m only. */
  lemma SelectInsertAt<T>(cs: seq<T>, ls: seq<Label>, k: nat, x: T, m: Label, l: Label)
    requires |cs| == |ls| && k <= |cs|
    ensures multiset(Select(cs[..k] + [x] + cs[k..], ls[..k] + [m] + ls[k..], l))
      == multiset(Select(cs, ls, l)) + (if m == l then multiset{x} else multiset{})
  {
    var a, b, la, lb := cs[..k], cs[k..], ls[..k], ls[k..];
    assert cs == a + b && ls == la + lb;
    SelectAppend(a + [x], la + [m], b, lb, l);
    SelectAppend(a, la, [x], [m], l);
    SelectAppend(a, la, b, lb, l);
    var j := Select([x], [m], l);
    assert j == (if m == l then [x] else []);
    var sa, sb := Select(a, la, l), Select(b, lb, l);
    assert Select(a + [x] + b, la + [m] + lb, l) == sa + j + sb;
    assert Select(cs, ls, l) == sa + sb;
    MultisetMiddle(sa, j, sb);
  }

  lemma MultisetMiddle<T>(a: seq<T>, j: seq<T>, b: seq<T>)
    ensures multiset(a + j + b) == multiset(a + b) + multiset(j)
  {
  }

  /** The selection has one member per occurrence of its label. */
  lemma {:induction false} SelectCount<T>(cs: seq<T>, ls: seq<Label>, l: Label)
    requires |cs| == |ls|
    ensures |Select(cs, ls, l)| == Count(ls, l)
    decreases |cs|
  {
    if cs != [] {
      SelectCount(cs[1..], ls[1..], l);
    }
  }

  lemma {:induction false} CountAppend(a: seq<Label>, b: seq<Label>, l: Label)
    ensures Count(a + b, l) == Count(a, l) + Count(b, l)
    decreases |a|
  {
    if a == [] {
      assert a + b == b;
    } else {
      assert (a + b)[1..] == a[1..] + b;
      CountAppend(a[1..], b, l);
    }
  }

  /** A label occurs exactly when its count is positive. */
  lemma {:induction false} CountPositive(ls: seq<Label>, l: Label)
    ensures Count(ls, l) > 0 <==> l in ls
    decreases |ls|
  {
    if ls != [] {
      CountPositive(ls[1..], l);
      assert ls == [ls[0]] + ls[1..];
    }
  }

  /** A list holding nothing but l counts one per member. */
  lemma {:induction false} CountAll(ls: seq<Label>, l: Label)
    requires forall i :: 0 <= i < |ls| ==> ls[i] == l
    ensures Count(ls, l) == |ls|
    decreases |ls|
  {
    if ls != [] {
      CountAll(ls[1..], l);
    }
  }

  /** The position of the first occurrence (indexOf). */
  function FirstIndex<T(==)>(s: seq<T>, x: T): (r: nat)
    requires x in s
    ensures r < |s| && s[r] == x && forall j :: 0 <= j < r ==> s[j] != x
  {
    if s[0] == x then 0 else 1 + FirstIndex(s[1..], x)
  }

  /** `List.remove(Object)` drops the first occurrence. */
  lemma {:induction false} RemoveFirstAt<T>(s: seq<T>, x: T)
    requires x in s
    ensures RemoveFirst(s, x) == s[..FirstIndex(s, x)] + s[FirstIndex(s, x) + 1..]
  {
    var k := FirstIndex(s, x);
    if s[0] != x {
      var t := s[1..];
      RemoveFirstAt(t, x);
      assert k == FirstIndex(t, x) + 1;
      assert RemoveFirst(s, x) == [s[0]] + RemoveFirst(t, x);
      assert [s[0]] + t[..k - 1] == s[..k];
      assert t[k..] == s[k + 1..];
    }
  }

  function Reverse<T>(s: seq<T>): (r: seq<T>)
    ensures |r| == |s| && forall i :: 0 <= i < |s| ==> r[i] == s[|s| - 1 - i]
  {
    if s == [] then [] else Reverse(s[1..]) + [s[0]]
  }

  lemma LabelsReverse(cs: seq<PQTreeNode>)
    ensures LabelsOf(Reverse(cs)) == Reverse(LabelsOf(cs))
  {
    LabelsAt(cs);
    LabelsAt(Reverse(cs));
  }

  lemma ReverseMembers<T>(s: seq<T>)
    ensures forall x :: x in Reverse(s) <==> x in s
  {
    forall x ensures x in Reverse(s) <==> x in s {
      if x in s {
        var i :| 0 <= i < |s| && s[i] == x;
        assert Reverse(s)[|s| - 1 - i] == x;
      }
      if x in Reverse(s) {
        var i :| 0 <= i < |s| && Reverse(s)[i] == x;
      }
    }
  }

  /** Only the labels the order checks know about. */
  predicate ThreeLabels(ls: seq<Label>)
  {
    forall i :: 0 <= i < |ls| ==> ls[i].Empty? || ls[i].SinglyPartial? || ls[i].Full?
  }

  /** Empty before singly partial before full. */
  function Rank(l: Label): nat
  {
    match l
    case Empty => 0
    case SinglyPartial => 1
    case Full => 2
    case _ => 3
  }

  /** Empty children first, then singly partial ones, then full ones. */
  predicate Ordered(ls: seq<Label>)
  {
    forall i, j :: 0 <= i < j < |ls| ==> Rank(ls[i]) <= Rank(ls[j])
  }

  /** The first k labels are ascending. */
  predicate OrderedUpTo(ls: seq<Label>, k: nat)
    requires k <= |ls|
  {
    forall i, j :: 0 <= i < j < k ==> Rank(ls[i]) <= Rank(ls[j])
  }

  lemma OrderedExtend(ls: seq<Label>, k: nat, p: nat)
    requires k < |ls| && OrderedUpTo(ls, k)
    requires (forall i :: 0 <= i < k ==> Rank(ls[i]) <= p) && p <= Rank(ls[k])
    ensures OrderedUpTo(ls, k + 1)
  {
  }

  /** The rank the scan of orderValidUpToOnePartial has reached: empty children until
      the first non-empty one, then singly partial ones, then full ones. */
  function Phase(emptyFinished: bool, partialFinished: bool): nat
  {
    if !emptyFinished then 0 else if !partialFinished then 1 else 2
  }

  /** The reversal step of orderValidUpToOnePartial: starting with a full child while
      empty or partial ones exist, or with a partial child while empty ones exist. */
  predicate ReverseFirst(ls: seq<Label>, hasEmpty: bool, hasPartial: bool)
    requires |ls| > 0
  {
    (ls[0] == Full && (hasEmpty || hasPartial)) || (ls[0] == SinglyPartial && hasEmpty)
  }

  /** An ascending order does not start with a child whose rank exceeds another's, so
      the check leaves it as it is. */
  lemma OrderedNotReversed(ls: seq<Label>)
    requires ThreeLabels(ls) && |ls| > 0 && Ordered(ls)
    ensures !ReverseFirst(ls, Empty in ls, SinglyPartial in ls)
  {
    if ls[0] == Full {
      forall i | 0 <= i < |ls| ensures ls[i] == Full {
        if i > 0 {
          assert Rank(ls[0]) <= Rank(ls[i]);
        }
      }
    } else if ls[0] == SinglyPartial {
      forall i | 0 <= i < |ls| ensures ls[i] != Empty {
        if i > 0 {
          assert Rank(ls[0]) <= Rank(ls[i]);
        }
      }
    }
  }

  /** An order that is descending but not ascending starts with a child of higher rank
      than some other, so the check reverses it. */
  lemma DescendingReversed(ls: seq<Label>)
    requires ThreeLabels(ls) && |ls| > 0 && !Ordered(ls) && Ordered(Reverse(ls))
    ensures ReverseFirst(ls, Empty in ls, SinglyPartial in ls)
  {
    var rev := Reverse(ls);
    var i, j :| 0 <= i < j < |ls| && Rank(ls[i]) > Rank(ls[j]);
    assert Rank(ls[0]) >= Rank(ls[i]) by {
      if i > 0 {
        assert rev[|ls| - 1 - i] == ls[i] && rev[|ls| - 1] == ls[0];
      }
    }
    assert ls[j] in ls;
  }

  /** Reversing exactly when the check does makes the order ascending whenever it is
      ascending in either direction. */
  lemma ReversalChoice(ls: seq<Label>)
    requires ThreeLabels(ls) && |ls| > 0
    ensures var c := if ReverseFirst(ls, Empty in ls, SinglyPartial in ls) then Reverse(ls) else ls;
      Ordered(c) <==> Ordered(ls) || Ordered(Reverse(ls))
  {
    if Ordered(ls) {
      OrderedNotReversed(ls);
    } else if Ordered(Reverse(ls)) {
      DescendingReversed(ls);
    }
  }

  /** The children's labels after the reversal step. */
  function Reversed(ls: seq<Label>, hasEmpty: bool, hasPartial: bool): seq<Label>
    requires |ls| > 0
  {
    if ReverseFirst(ls, hasEmpty, hasPartial) then Reverse(ls) else ls
  }

  /** The reversal step keeps the labels that occur, and, with the flags set from the
      labels, leaves an ascending order exactly when one was there in either direction. */
  lemma ReversedLabels(ls: seq<Label>)
    requires ThreeLabels(ls) && |ls| > 0
    ensures var c := Reversed(ls, Empty in ls, SinglyPartial in ls);
      && ThreeLabels(c)
      && (forall l :: l in c <==> l in ls)
      && (Ordered(c) <==> Ordered(ls) || Ordered(Reverse(ls)))
  {
    ReverseMembers(ls);
    ReversalChoice(ls);
  }

  /** The outcome of one iteration of the loop of orderValidUpToOnePartial. */
  datatype ScanStep = Stop | Go(emptyFinished: bool, partialFinished: bool)

  /** One iteration on a child labelled c, in the state given by the two flags that say
      whether the empty and the singly partial children are behind: the loop either
      returns false or goes on in a new state. */
  function Step(c: Label, hasEmpty: bool, hasPartial: bool, hasFull: bool,
    emptyFinished: bool, partialFinished: bool): ScanStep
  {
    if !emptyFinished && hasEmpty && c != Empty then
      if hasPartial && c != SinglyPartial then Stop else Go(true, partialFinished)
    else if emptyFinished && c == Empty then Stop
    else if emptyFinished && !partialFinished && hasPartial && c != SinglyPartial then
      if hasFull && c != Full then Stop else Go(emptyFinished, true)
    else if partialFinished && c == SinglyPartial then Stop
    else Go(emptyFinished, partialFinished)
  }

  /** The loop from child k on: true when it runs to the end. */
  function ScanFrom(ls: seq<Label>, k: nat, hasEmpty: bool, hasPartial: bool, hasFull: bool,
    emptyFinished: bool, partialFinished: bool): bool
    requires k <= |ls|
    decreases |ls| - k
  {
    if k == |ls| then true
    else match Step(ls[k], hasEmpty, hasPartial, hasFull, emptyFinished, partialFinished)
      case Stop => false
      case Go(e, p) => ScanFrom(ls, k + 1, hasEmpty, hasPartial, hasFull, e, p)
  }

  /** The check after the reversal step: the first child must be empty when empty
      children exist, or singly partial when only partial and full ones do; then the
      loop runs from the first child, with a phase already behind when its label is
      absent. */
  function Scan(ls: seq<Label>, hasEmpty: bool, hasPartial: bool, hasFull: bool): bool
    requires |ls| > 0
  {
    if hasEmpty && ls[0] != Empty then false
    else if !hasEmpty && hasPartial && ls[0] != SinglyPartial then false
    else ScanFrom(ls, 0, hasEmpty, hasPartial, hasFull, !hasEmpty, !hasPartial)
  }

  /** The flags say which of the three labels occur, and no other label does. */
  predicate FlagsFit(ls: seq<Label>, hasEmpty: bool, hasPartial: bool, hasFull: bool)
  {
    ThreeLabels(ls) && (hasEmpty <==> Empty in ls) && (hasPartial <==> SinglyPartial in ls) && (hasFull <==> Full in ls)
  }

  /** What the loop has established about the children before k: they are ascending,
      none is above the phase reached, a phase is behind only when its label occurs
      or once a child has ended it (endOfEmpty, endOfPartial). */
  predicate ScanState(ls: seq<Label>, k: nat, hasEmpty: bool, hasPartial: bool,
    emptyFinished: bool, partialFinished: bool, endOfEmpty: nat, endOfPartial: nat)
    requires k <= |ls|
  {
    && OrderedUpTo(ls, k)
    && (forall i :: 0 <= i < k ==> Rank(ls[i]) <= Phase(emptyFinished, partialFinished))
    && (!emptyFinished ==> hasEmpty) && (!partialFinished ==> hasPartial)
    && (emptyFinished && hasEmpty ==> endOfEmpty < k && ls[endOfEmpty] != Empty)
    && (partialFinished && hasPartial ==> endOfPartial < k && ls[endOfPartial] == Full)
  }

  /** With fitting flags, the loop from k accepts exactly when the whole order is
      ascending, given what the loop has established about the children before k. */
  lemma {:induction false} ScanFromCorrect(ls: seq<Label>, k: nat, hasEmpty: bool, hasPartial: bool, hasFull: bool,
    emptyFinished: bool, partialFinished: bool, endOfEmpty: nat, endOfPartial: nat)
    requires FlagsFit(ls, hasEmpty, hasPartial, hasFull) && k <= |ls|
    requires ScanState(ls, k, hasEmpty, hasPartial, emptyFinished, partialFinished, endOfEmpty, endOfPartial)
    ensures ScanFrom(ls, k, hasEmpty, hasPartial, hasFull, emptyFinished, partialFinished) <==> Ordered(ls)
    decreases |ls| - k
  {
    if k == |ls| {
      assert OrderedUpTo(ls, |ls|);
    } else {
      var step := Step(ls[k], hasEmpty, hasPartial, hasFull, emptyFinished, partialFinished);
      if step.Stop? {
        StepStops(ls, k, hasEmpty, hasPartial, hasFull, emptyFinished, partialFinished, endOfEmpty, endOfPartial);
      } else {
        var e, p := step.emptyFinished, step.partialFinished;
        var endE := if e && !emptyFinished then k else endOfEmpty;
        var endP := if p && !partialFinished then k else endOfPartial;
        StepGoes(ls, k, hasEmpty, hasPartial, hasFull, emptyFinished, partialFinished, endOfEmpty, endOfPartial);
        ScanFromCorrect(ls, k + 1, hasEmpty, hasPartial, hasFull, e, p, endE, endP);
      }
    }
  }

  /** A child the loop stops at is out of order with an earlier or a later one. */
  lemma StepStops(ls: seq<Label>, k: nat, hasEmpty: bool, hasPartial: bool, hasFull: bool,
    emptyFinished: bool, partialFinished: bool, endOfEmpty: nat, endOfPartial: nat)
    requires FlagsFit(ls, hasEmpty, hasPartial, hasFull) && k < |ls|
    requires ScanState(ls, k, hasEmpty, hasPartial, emptyFinished, partialFinished, endOfEmpty, endOfPartial)
    requires Step(ls[k], hasEmpty, hasPartial, hasFull, emptyFinished, partialFinished).Stop?
    ensures !Ordered(ls)
  {
    var c := ls[k];
    if !emptyFinished && hasEmpty && c != Empty {
      var j :| 0 <= j < |ls| && ls[j] == SinglyPartial;
      assert k < j;
      NotOrdered(ls, k, j);
    } else if emptyFinished && c == Empty {
      NotOrdered(ls, endOfEmpty, k);
    } else if emptyFinished && !partialFinished && hasPartial && c != SinglyPartial {
      assert false;
    } else {
      NotOrdered(ls, endOfPartial, k);
    }
  }

  /** A child the loop goes past keeps the order ascending and the state established. */
  lemma StepGoes(ls: seq<Label>, k: nat, hasEmpty: bool, hasPartial: bool, hasFull: bool,
    emptyFinished: bool, partialFinished: bool, endOfEmpty: nat, endOfPartial: nat)
    requires FlagsFit(ls, hasEmpty, hasPartial, hasFull) && k < |ls|
    requires ScanState(ls, k, hasEmpty, hasPartial, emptyFinished, partialFinished, endOfEmpty, endOfPartial)
    requires Step(ls[k], hasEmpty, hasPartial, hasFull, emptyFinished, partialFinished).Go?
    ensures var step := Step(ls[k], hasEmpty, hasPartial, hasFull, emptyFinished, partialFinished);
      var e, p := step.emptyFinished, step.partialFinished;
      ScanState(ls, k + 1, hasEmpty, hasPartial, e, p,
        if e && !emptyFinished then k else endOfEmpty, if p && !partialFinished then k else endOfPartial)
  {
    var step := Step(ls[k], hasEmpty, hasPartial, hasFull, emptyFinished, partialFinished);
    var phase := Phase(emptyFinished, partialFinished);
    assert phase <= Rank(ls[k]) == Phase(step.emptyFinished, step.partialFinished);
    OrderedExtend(ls, k, phase);
  }

  lemma NotOrdered(ls: seq<Label>, i: nat, j: nat)
    requires i < j < |ls| && Rank(ls[i]) > Rank(ls[j])
    ensures !Ordered(ls)
  {
  }

  /** With flags that say which labels occur, the check accepts exactly the ascending
      orders: empty children, then singly partial ones, then full ones. */
  lemma ScanCorrect(ls: seq<Label>, hasEmpty: bool, hasPartial: bool, hasFull: bool)
    requires |ls| > 0 && FlagsFit(ls, hasEmpty, hasPartial, hasFull)
    ensures Scan(ls, hasEmpty, hasPartial, hasFull) <==> Ordered(ls)
  {
    if hasEmpty && ls[0] != Empty {
      var j :| 0 <= j < |ls| && ls[j] == Empty;
      assert Rank(ls[0]) > Rank(ls[j]);
    } else if !hasEmpty && hasPartial && ls[0] != SinglyPartial {
      var j :| 0 <= j < |ls| && ls[j] == SinglyPartial;
      assert Rank(ls[0]) > Rank(ls[j]);
    } else {
      ScanFromCorrect(ls, 0, hasEmpty, hasPartial, hasFull, !hasEmpty, !hasPartial, 0, 0);
    }
  }

  /** The reversal step and the check together, with flags that say which labels
      occur: they accept exactly the orders that are ascending in either direction,
      and what they accept is ascending after the reversal step. */
  lemma OnePartialChoice(ls: seq<Label>, hasEmpty: bool, hasPartial: bool, hasFull: bool)
    requires |ls| > 0 && FlagsFit(ls, hasEmpty, hasPartial, hasFull)
    ensures var c := Reversed(ls, hasEmpty, hasPartial);
      && (Scan(c, hasEmpty, hasPartial, hasFull) <==> Ordered(ls) || Ordered(Reverse(ls)))
      && (Scan(c, hasEmpty, hasPartial, hasFull) ==> Ordered(c))
  {
    ReversedLabels(ls);
    ScanCorrect(Reversed(ls, hasEmpty, hasPartial), hasEmpty, hasPartial, hasFull);
  }

  /** The order the doubly-partial check looks for: empty children, then a run of at
      least one non-empty child with singly partial ones only at its two ends, then
      empty children again; neither end of the whole list is full. */
  ghost predicate TwoPartialShape(ls: seq<Label>)
  {
    && |ls| > 0 && ls[0] != Full && ls[|ls| - 1] != Full
    && exists a, b :: 0 <= a < b <= |ls| && Around(ls, a, b)
  }

  /** ls[a..b] is the run of non-empty children, with partial ones only at its ends. */
  predicate Around(ls: seq<Label>, a: nat, b: nat)
    requires a < b <= |ls|
  {
    && (forall i :: 0 <= i < a ==> ls[i] == Empty)
    && (forall i :: b <= i < |ls| ==> ls[i] == Empty)
    && (forall i :: a <= i < b ==> ls[i] != Empty)
    && (forall i :: a < i < b - 1 ==> ls[i] != SinglyPartial)
  }

  /** Two occurrences at p < q count twice, and a third at r counts thrice. */
  lemma CountAtLeast(ls: seq<Label>, l: Label, p: nat, q: nat)
    requires p < q < |ls| && ls[p] == l && ls[q] == l
    ensures Count(ls, l) >= 2
    ensures forall r :: 0 <= r < |ls| && r != p && r != q && ls[r] == l ==> Count(ls, l) >= 3
  {
    assert ls == ls[..q] + ls[q..];
    CountAppend(ls[..q], ls[q..], l);
    assert ls[q..] == [ls[q]] + ls[q + 1..];
    CountAppend([ls[q]], ls[q + 1..], l);
    assert ls[..q] == ls[..p] + ls[p..q];
    CountAppend(ls[..p], ls[p..q], l);
    assert ls[p..q] == [ls[p]] + ls[p + 1..q];
    CountAppend([ls[p]], ls[p + 1..q], l);
    forall r | 0 <= r < |ls| && r != p && r != q && ls[r] == l ensures Count(ls, l) >= 3 {
      if r < p {
        assert ls[..p][r] == l;
        CountPositive(ls[..p], l);
      } else if r < q {
        assert ls[p + 1..q][r - p - 1] == l;
        CountPositive(ls[p + 1..q], l);
      } else {
        assert ls[q + 1..][r - q - 1] == l;
        CountPositive(ls[q + 1..], l);
      }
    }
  }

  /** The run [a, b) between the empty ends holds all the remaining empty children. */
  lemma CountAround(ls: seq<Label>, a: nat, b: nat)
    requires a <= b <= |ls|
    requires forall i :: 0 <= i < a ==> ls[i] == Empty
    requires forall i :: b <= i < |ls| ==> ls[i] == Empty
    ensures Count(ls, Empty) == a + (|ls| - b) + Count(ls[a..b], Empty)
    ensures forall l :: l != Empty ==> Count(ls, l) == Count(ls[a..b], l)
  {
    var before, after := ls[..a], ls[b..];
    assert forall i :: 0 <= i < |before| ==> before[i] == Empty;
    assert forall i :: 0 <= i < |after| ==> after[i] == ls[b + i];
    CountThree(ls, a, b, Empty);
    CountAll(before, Empty);
    CountAll(after, Empty);
    forall l | l != Empty ensures Count(ls, l) == Count(ls[a..b], l) {
      CountThree(ls, a, b, l);
      CountPositive(before, l);
      CountPositive(after, l);
    }
  }

  /** Counting in three consecutive slices. */
  lemma CountThree(ls: seq<Label>, a: nat, b: nat, l: Label)
    requires a <= b <= |ls|
    ensures Count(ls, l) == Count(ls[..a], l) + Count(ls[a..b], l) + Count(ls[b..], l)
  {
    var x, y, z := ls[..a], ls[a..b], ls[b..];
    assert ls == x + y + z;
    CountAppend(x + y, z, l);
    CountAppend(x, y, l);
  }

  /** The list holds exactly the members of cs labelled l in ls, each as often as it
      occurs in cs (in any order). */
  ghost predicate Holds<T>(cs: seq<T>, ls: seq<Label>, list: seq<T>, l: Label)
    requires |cs| == |ls|
  {
    multiset(list) == multiset(Select(cs, ls, l))
  }

  /** The full, partial and empty lists hold exactly the members of cs labelled full,
      singly partial and empty in ls. */
  ghost predicate ListsMatch<T>(cs: seq<T>, ls: seq<Label>, full: seq<T>, partial: seq<T>, empty: seq<T>)
    requires |cs| == |ls|
  {
    Holds(cs, ls, full, Full) && Holds(cs, ls, partial, SinglyPartial) && Holds(cs, ls, empty, Empty)
  }

  /** The list of label l after x, labelled m, is added: x is appended when m is l. */
  function Added<T>(list: seq<T>, x: T, m: Label, l: Label): seq<T>
  {
    if m == l then list + [x] else list
  }

  /** The list of label l after x, labelled was, is removed: its first occurrence
      leaves the list when was is l. */
  function Removed<T(==)>(list: seq<T>, x: T, was: Label, l: Label): seq<T>
  {
    if was == l then RemoveFirst(list, x) else list
  }

  /** The list of label l after x changes its label from old to m: x is appended to the
      list of its new label and its first occurrence leaves the list of its old one. */
  function Relabelled<T(==)>(list: seq<T>, x: T, was: Label, m: Label, l: Label): seq<T>
  {
    if l == m then list + [x] else if l == was then RemoveFirst(list, x) else list
  }

  lemma AppendHolds<T>(cs: seq<T>, ls: seq<Label>, list: seq<T>, x: T, m: Label, l: Label)
    requires |cs| == |ls| && Holds(cs, ls, list, l)
    ensures Holds(cs + [x], ls + [m], Added(list, x, m, l), l)
  {
    SelectAppend(cs, ls, [x], [m], l);
  }

  lemma InsertHolds<T>(cs: seq<T>, ls: seq<Label>, list: seq<T>, k: nat, x: T, m: Label, l: Label)
    requires |cs| == |ls| && k <= |cs| && Holds(cs, ls, list, l)
    ensures Holds(cs[..k] + [x] + cs[k..], ls[..k] + [m] + ls[k..], Added(list, x, m, l), l)
  {
    SelectInsertAt(cs, ls, k, x, m, l);
  }

  lemma RemoveHolds<T>(cs: seq<T>, ls: seq<Label>, list: seq<T>, k: nat, l: Label)
    requires |cs| == |ls| && k < |cs| && Holds(cs, ls, list, l)
    ensures Holds(cs[..k] + cs[k + 1..], ls[..k] + ls[k + 1..], Removed(list, cs[k], ls[k], l), l)
  {
    SelectRemoveAt(cs, ls, k, l);
    RemoveFirstMultiset(list, cs[k]);
  }

  lemma RelabelHolds<T>(cs: seq<T>, ls: seq<Label>, list: seq<T>, k: nat, m: Label, l: Label)
    requires |cs| == |ls| && k < |cs| && ls[k] != m && Holds(cs, ls, list, l)
    ensures Holds(cs, ls[k := m], Relabelled(list, cs[k], ls[k], m, l), l)
  {
    SelectRelabel(cs, ls, k, m, l);
    RemoveFirstMultiset(list, cs[k]);
  }

  /** addChild(node) keeps a node consistent: appending a child labelled m to the
      children, and to the list of m, leaves every list matching the children. */
  lemma AppendMatch<T>(cs: seq<T>, ls: seq<Label>, full: seq<T>, partial: seq<T>, empty: seq<T>, x: T, m: Label)
    requires |cs| == |ls| && ListsMatch(cs, ls, full, partial, empty)
    ensures ListsMatch(cs + [x], ls + [m], Added(full, x, m, Full), Added(partial, x, m, SinglyPartial),
      Added(empty, x, m, Empty))
  {
    AppendHolds(cs, ls, full, x, m, Full);
    AppendHolds(cs, ls, partial, x, m, SinglyPartial);
    AppendHolds(cs, ls, empty, x, m, Empty);
  }

  /** addChild(node, index) keeps a node consistent in the same way. */
  lemma InsertMatch<T>(cs: seq<T>, ls: seq<Label>, full: seq<T>, partial: seq<T>, empty: seq<T>, k: nat, x: T, m: Label)
    requires |cs| == |ls| && k <= |cs| && ListsMatch(cs, ls, full, partial, empty)
    ensures ListsMatch(cs[..k] + [x] + cs[k..], ls[..k] + [m] + ls[k..], Added(full, x, m, Full),
      Added(partial, x, m, SinglyPartial), Added(empty, x, m, Empty))
  {
    InsertHolds(cs, ls, full, k, x, m, Full);
    InsertHolds(cs, ls, partial, k, x, m, SinglyPartial);
    InsertHolds(cs, ls, empty, k, x, m, Empty);
  }

  /** removeChild(node) keeps a node consistent: dropping the child at k from the
      children, and its first occurrence from the list of its label, leaves every list
      matching. */
  lemma RemoveMatch<T>(cs: seq<T>, ls: seq<Label>, full: seq<T>, partial: seq<T>, empty: seq<T>, k: nat)
    requires |cs| == |ls| && k < |cs| && ListsMatch(cs, ls, full, partial, empty)
    ensures ListsMatch(cs[..k] + cs[k + 1..], ls[..k] + ls[k + 1..], Removed(full, cs[k], ls[k], Full),
      Removed(partial, cs[k], ls[k], SinglyPartial), Removed(empty, cs[k], ls[k], Empty))
  {
    RemoveHolds(cs, ls, full, k, Full);
    RemoveHolds(cs, ls, partial, k, SinglyPartial);
    RemoveHolds(cs, ls, empty, k, Empty);
  }

  /** labelAsFull, labelAsEmpty and labelAsPartial(SINGLY_PARTIAL) keep the parent
      consistent: when the child at k, there only once, changes its label to a different
      one, the parent's lists, updated as those methods update them, match again. */
  lemma RelabelMatch<T>(cs: seq<T>, ls: seq<Label>, full: seq<T>, partial: seq<T>, empty: seq<T>, k: nat, m: Label)
    requires |cs| == |ls| && k < |cs| && ls[k] != m && ListsMatch(cs, ls, full, partial, empty)
    ensures ListsMatch(cs, ls[k := m], Relabelled(full, cs[k], ls[k], m, Full),
      Relabelled(partial, cs[k], ls[k], m, SinglyPartial), Relabelled(empty, cs[k], ls[k], m, Empty))
  {
    RelabelHolds(cs, ls, full, k, m, Full);
    RelabelHolds(cs, ls, partial, k, m, SinglyPartial);
    RelabelHolds(cs, ls, empty, k, m, Empty);
  }

  /** A PQ-tree node: P-node, Q-node or leaf. */
  class PQTreeNode {
    var nodeType: NodeType
    var nodeLabel: Label
    var parent: PQTreeNode?
    var listsAllocated: bool
    var children: seq<PQTreeNode>
    var fullChildren: seq<PQTreeNode>
    var partialChildren: seq<PQTreeNode>
    var emptyChildren: seq<PQTreeNode>
    var immediateSiblings: seq<PQTreeNode>

    /** The full, partial and empty lists hold exactly the children with the matching
        label (full, singly partial, empty), each as often as it is a child. */
    ghost predicate Consistent()
      reads this, children`nodeLabel
    {
      ListsMatch(children, LabelsOf(children), fullChildren, partialChildren, emptyChildren)
    }

    /** PQTreeNode(type): a leaf is labelled empty and has no child lists; a P- or Q-node
        has no label yet and four empty child lists. */
    constructor(nodeType: NodeType)
      ensures this.nodeType == nodeType && parent == null
      ensures nodeLabel == (if nodeType == Leaf then Empty else Unset)
      ensures listsAllocated == (nodeType != Leaf)
      ensures children == [] && fullChildren == [] && partialChildren == [] && emptyChildren == []
      ensures immediateSiblings == []
      ensures Consistent()
    {
      this.nodeType := nodeType;
      parent := null;
      nodeLabel := if nodeType == Leaf then Empty else Unset;
      listsAllocated := nodeType != Leaf;
      children, fullChildren, partialChildren, emptyChildren := [], [], [], [];
      immediateSiblings := [];
    }

    /** addChild(node): appends the node to the children and to the one list matching
        its label, and makes this node its parent. AppendMatch shows that this keeps the
        node consistent. */
    method AddChild(node: PQTreeNode)
      requires listsAllocated
      modifies this`children, this`fullChildren, this`partialChildren, this`emptyChildren, node`parent
      ensures children == old(children) + [node]
      ensures fullChildren == Added(old(fullChildren), node, node.nodeLabel, Full)
      ensures partialChildren == Added(old(partialChildren), node, node.nodeLabel, SinglyPartial)
      ensures emptyChildren == Added(old(emptyChildren), node, node.nodeLabel, Empty)
      ensures node.parent == this
    {
      children := children + [node];
      if node.nodeLabel == Full {
        fullChildren := fullChildren + [node];
      } else if node.nodeLabel == SinglyPartial {
        partialChildren := partialChildren + [node];
      } else if node.nodeLabel == Empty {
        emptyChildren := emptyChildren + [node];
      }
      node.parent := this;
    }

    /** addChild(node, index): inserts the node among the children at index, with the
        same label-list update and parent link; InsertMatch shows that this keeps the
        node consistent. */
    method AddChildAt(node: PQTreeNode, index: nat)
      requires listsAllocated && index <= |children|
      modifies this`children, this`fullChildren, this`partialChildren, this`emptyChildren, node`parent
      ensures children == old(children)[..index] + [node] + old(children)[index..]
      ensures fullChildren == Added(old(fullChildren), node, node.nodeLabel, Full)
      ensures partialChildren == Added(old(partialChildren), node, node.nodeLabel, SinglyPartial)
      ensures emptyChildren == Added(old(emptyChildren), node, node.nodeLabel, Empty)
      ensures node.parent == this
    {
      children := children[..index] + [node] + children[index..];
      if node.nodeLabel == Full {
        fullChildren := fullChildren + [node];
      } else if node.nodeLabel == SinglyPartial {
        partialChildren := partialChildren + [node];
      } else if node.nodeLabel == Empty {
        emptyChildren := emptyChildren + [node];
      }
      node.parent := this;
    }

    /** removeChild(node): removes the node's first occurrence from the children and
        from the list matching its label, and clears its parent; RemoveMatch shows that
        this keeps the node consistent. */
    method RemoveChild(node: PQTreeNode)
      requires listsAllocated
      modifies this`children, this`fullChildren, this`partialChildren, this`emptyChildren, node`parent
      ensures node in old(children) ==>
        children == old(children)[..FirstIndex(old(children), node)] + old(children)[FirstIndex(old(children), node) + 1..]
      ensures node !in old(children) ==> children == old(children)
      ensures fullChildren == Removed(old(fullChildren), node, node.nodeLabel, Full)
      ensures partialChildren == Removed(old(partialChildren), node, node.nodeLabel, SinglyPartial)
      ensures emptyChildren == Removed(old(emptyChildren), node, node.nodeLabel, Empty)
      ensures node.parent == null
    {
      if node in children {
        RemoveFirstAt(children, node);
      }
      children := RemoveFirst(children, node);
      if node.nodeLabel == Full {
        fullChildren := RemoveFirst(fullChildren, node);
      } else if node.nodeLabel == SinglyPartial {
        partialChildren := RemoveFirst(partialChildren, node);
      } else if node.nodeLabel == Empty {
        emptyChildren := RemoveFirst(emptyChildren, node);
      }
      node.parent := null;
    }

    /** labelAsFull: labels this node full; its parent's full list gains it and the
        list of its old label (singly partial or empty) loses its first occurrence.
        RelabelMatch shows that this keeps the parent consistent. */
    method LabelAsFull()
      requires parent != null ==> parent.listsAllocated
      modifies this`nodeLabel
      modifies (if parent == null then {} else {parent})`fullChildren
      modifies (if parent == null then {} else {parent})`partialChildren
      modifies (if parent == null then {} else {parent})`emptyChildren
      ensures nodeLabel == Full
      ensures parent != null ==> (
        && parent.fullChildren == Relabelled(old(parent.fullChildren), this, old(nodeLabel), Full, Full)
        && parent.partialChildren == Relabelled(old(parent.partialChildren), this, old(nodeLabel), Full, SinglyPartial)
        && parent.emptyChildren == Relabelled(old(parent.emptyChildren), this, old(nodeLabel), Full, Empty))
    {
      var oldLabel := nodeLabel;
      nodeLabel := Full;
      if parent != null {
        parent.fullChildren := parent.fullChildren + [this];
        if oldLabel == SinglyPartial {
          parent.partialChildren := RemoveFirst(parent.partialChildren, this);
        } else if oldLabel == Empty {
          parent.emptyChildren := RemoveFirst(parent.emptyChildren, this);
        }
      }
    }

    /** labelAsEmpty: the mirror case for the empty label. */
    method LabelAsEmpty()
      requires parent != null ==> parent.listsAllocated
      modifies this`nodeLabel
      modifies (if parent == null then {} else {parent})`fullChildren
      modifies (if parent == null then {} else {parent})`partialChildren
      modifies (if parent == null then {} else {parent})`emptyChildren
      ensures nodeLabel == Empty
      ensures parent != null ==> (
        && parent.fullChildren == Relabelled(old(parent.fullChildren), this, old(nodeLabel), Empty, Full)
        && parent.partialChildren == Relabelled(old(parent.partialChildren), this, old(nodeLabel), Empty, SinglyPartial)
        && parent.emptyChildren == Relabelled(old(parent.emptyChildren), this, old(nodeLabel), Empty, Empty))
    {
      var oldLabel := nodeLabel;
      nodeLabel := Empty;
      if parent != null {
        parent.emptyChildren := parent.emptyChildren + [this];
        if oldLabel == SinglyPartial {
          parent.partialChildren := RemoveFirst(parent.partialChildren, this);
        } else if oldLabel == Full {
          parent.fullChildren := RemoveFirst(parent.fullChildren, this);
        }
      }
    }

    /** labelAsPartial(label): labels this node singly or doubly partial; the parent's
        partial list gains it either way, and the list of its old label (empty or full)
        loses its first occurrence. */
    method LabelAsPartial(newLabel: Label)
      requires parent != null ==> parent.listsAllocated
      modifies this`nodeLabel
      modifies (if parent == null then {} else {parent})`fullChildren
      modifies (if parent == null then {} else {parent})`partialChildren
      modifies (if parent == null then {} else {parent})`emptyChildren
      ensures nodeLabel == newLabel
      ensures parent != null ==> (
        && parent.fullChildren == Relabelled(old(parent.fullChildren), this, old(nodeLabel), SinglyPartial, Full)
        && parent.partialChildren
          == Relabelled(old(parent.partialChildren), this, old(nodeLabel), SinglyPartial, SinglyPartial)
        && parent.emptyChildren == Relabelled(old(parent.emptyChildren), this, old(nodeLabel), SinglyPartial, Empty))
    {
      var oldLabel := nodeLabel;
      nodeLabel := newLabel;
      if parent != null {
        parent.partialChildren := parent.partialChildren + [this];
        if oldLabel == Empty {
          parent.emptyChildren := RemoveFirst(parent.emptyChildren, this);
        } else if oldLabel == Full {
          parent.fullChildren := RemoveFirst(parent.fullChildren, this);
        }
      }
    }

    /** getImmediateSimblings: empty unless the parent is a Q-node; otherwise the one
        neighbour of an end child, or the two neighbours of an interior child, in the
        parent's child order. */
    method ImmediateSiblings() returns (r: seq<PQTreeNode>)
      requires parent != null && parent.nodeType == Q ==>
        parent.listsAllocated && this in parent.children && |parent.children| >= 2
      modifies this`immediateSiblings
      ensures r == immediateSiblings
      ensures parent == null || parent.nodeType != Q ==> r == []
      ensures parent != null && parent.nodeType == Q ==>
        var cs := parent.children;
        var i := FirstIndex(cs, this);
        && |r| == (if i == 0 || i == |cs| - 1 then 1 else 2)
        && forall x :: x in r <==> exists j :: 0 <= j < |cs| && (j == i - 1 || j == i + 1) && x == cs[j]
      // the left neighbour, when there is one, comes before the right one
      ensures parent != null && parent.nodeType == Q ==>
        var cs := parent.children;
        var i := FirstIndex(cs, this);
        && (0 < i ==> r[0] == cs[i - 1])
        && (i < |cs| - 1 ==> r[|r| - 1] == cs[i + 1])
    {
      immediateSiblings := [];
      if parent != null && parent.nodeType == Q {
        var siblings := parent.children;
        var index := FirstIndex(siblings, this);
        if index == 0 {
          immediateSiblings := immediateSiblings + [siblings[index + 1]];
        } else if index == |siblings| - 1 {
          immediateSiblings := immediateSiblings + [siblings[index - 1]];
        } else {
          immediateSiblings := immediateSiblings + [siblings[index - 1]];
          immediateSiblings := immediateSiblings + [siblings[index + 1]];
        }
      }
      r := immediateSiblings;
    }

    /** A consistent node has an empty (singly partial, full) child exactly when its
        empty (partial, full) list is non-empty, and the lists' sizes are the counts. */
    lemma ConsistentCounts()
      requires Consistent()
      ensures var ls := LabelsOf(children);
        && |emptyChildren| == Count(ls, Empty)
        && |partialChildren| == Count(ls, SinglyPartial)
        && |fullChildren| == Count(ls, Full)
        && (|emptyChildren| > 0 <==> Empty in ls)
        && (|partialChildren| > 0 <==> SinglyPartial in ls)
        && (|fullChildren| > 0 <==> Full in ls)
    {
      var ls := LabelsOf(children);
      assert |multiset(emptyChildren)| == |emptyChildren|;
      SelectCount(children, ls, Empty);
      SelectCount(children, ls, SinglyPartial);
      SelectCount(children, ls, Full);
      assert |multiset(Select(children, ls, Empty))| == |Select(children, ls, Empty)|;
      assert |multiset(Select(children, ls, SinglyPartial))| == |Select(children, ls, SinglyPartial)|;
      assert |multiset(Select(children, ls, Full))| == |Select(children, ls, Full)|;
      CountPositive(ls, Empty);
      CountPositive(ls, SinglyPartial);
      CountPositive(ls, Full);
    }

    /** A consistent node has a child of each of the three labels exactly when the
        list of that label is non-empty. */
    lemma ConsistentPresence()
      requires Consistent()
      ensures |emptyChildren| > 0 <==> Empty in LabelsOf(children)
      ensures |partialChildren| > 0 <==> SinglyPartial in LabelsOf(children)
      ensures |fullChildren| > 0 <==> Full in LabelsOf(children)
    {
      ConsistentCounts();
    }

    /** The scan of orderValidUpToOnePartial after the reversal step, with flags that
        say which labels occur; Scan is what it computes. */
    method OnePartialScan(hasEmpty: bool, hasPartial: bool, hasFull: bool) returns (r: bool)
      requires |children| > 0
      ensures r == Scan(LabelsOf(children), hasEmpty, hasPartial, hasFull)
    {
      ghost var ls := LabelsOf(children);
      LabelsAt(children);
      if hasEmpty && children[0].nodeLabel != Empty {
        return false;
      } else if !hasEmpty && hasPartial && children[0].nodeLabel != SinglyPartial {
        return false;
      }
      var emptyFinished := false;
      var partialFinished := false;
      if !hasEmpty {
        emptyFinished := true;
      }
      if !hasPartial {
        partialFinished := true;
      }
      var k := 0;
      while k < |children|
        invariant 0 <= k <= |children|
        invariant ScanFrom(ls, k, hasEmpty, hasPartial, hasFull, emptyFinished, partialFinished)
          == Scan(ls, hasEmpty, hasPartial, hasFull)
      {
        var childLabel := children[k].nodeLabel;
        if !emptyFinished && hasEmpty && childLabel != Empty {
          if hasPartial && childLabel != SinglyPartial {
            return false;
          }
          emptyFinished := true;
        } else if emptyFinished && childLabel == Empty {
          return false;
        } else if emptyFinished && !partialFinished && hasPartial && childLabel != SinglyPartial {
          if hasFull && childLabel != Full {
            return false;
          }
          partialFinished := true;
        } else if partialFinished && childLabel == SinglyPartial {
          return false;
        }
        k := k + 1;
      }
      return true;
    }

    /** orderValidUpToOnePartial: reverses the children when they start the wrong way
        round, then runs the check Scan on them. OnePartialMeaning says what this
        accepts for a consistent node. */
    method OrderValidUpToOnePartial() returns (r: bool)
      requires listsAllocated && |children| > 0
      modifies this`children
      ensures LabelsOf(children)
        == Reversed(LabelsOf(old(children)), |emptyChildren| > 0, |partialChildren| > 0)
      ensures children == (if ReverseFirst(LabelsOf(old(children)), |emptyChildren| > 0, |partialChildren| > 0)
        then Reverse(old(children)) else old(children))
      ensures r == Scan(LabelsOf(children), |emptyChildren| > 0, |partialChildren| > 0, |fullChildren| > 0)
    {
      ghost var cs := children;
      var hasEmpty := |emptyChildren| > 0;
      var hasPartial := |partialChildren| > 0;
      var hasFull := |fullChildren| > 0;
      var first := children[0].nodeLabel;
      if first == Full && (hasEmpty || hasPartial) {
        children := Reverse(children);
      } else if first == SinglyPartial && hasEmpty {
        children := Reverse(children);
      }
      LabelsReverse(cs);
      r := OnePartialScan(hasEmpty, hasPartial, hasFull);
    }

    /** For a consistent node whose children carry only the three labels, the
        reversal step and the check of orderValidUpToOnePartial accept exactly the
        orders that are ascending read forwards or backwards, and what they accept is
        ascending after the reversal step. */
    lemma OnePartialMeaning()
      requires Consistent() && |children| > 0 && ThreeLabels(LabelsOf(children))
      ensures var ls := LabelsOf(children);
        var hasEmpty, hasPartial, hasFull := |emptyChildren| > 0, |partialChildren| > 0, |fullChildren| > 0;
        var c := Reversed(ls, hasEmpty, hasPartial);
        && (Scan(c, hasEmpty, hasPartial, hasFull) <==> Ordered(ls) || Ordered(Reverse(ls)))
        && (Scan(c, hasEmpty, hasPartial, hasFull) ==> Ordered(c))
    {
      ConsistentPresence();
      OnePartialChoice(LabelsOf(children), |emptyChildren| > 0, |partialChildren| > 0, |fullChildren| > 0);
    }

    /** orderValidUpToTwoPartial, with its final `return false` read as `return true`
        (see OrderValidUpToTwoPartialAsWritten): the first child and the last one must
        not be full; when there are empty children, the empty ones counted from both ends
        must be all of them; and one (two) partial children must sit at one (both) ends
        of the run between them. TwoPartialAccepts is what it computes; TwoPartialMeaning
        says what that accepts for a consistent node. */
    method OrderValidUpToTwoPartial() returns (r: bool)
      requires listsAllocated && |children| > 0 && |emptyChildren| <= |children|
      ensures r == TwoPartialAccepts(LabelsOf(children), |emptyChildren|, |partialChildren|)
    {
      ghost var ls := LabelsOf(children);
      LabelsAt(children);
      var hasEmpty := |emptyChildren| > 0;
      if children[0].nodeLabel == Full {
        return false;
      }
      var childrenNum := |children|;
      if children[childrenNum - 1].nodeLabel == Full {
        return false;
      }
      var firstEmpty := 0;
      var lastEmpty := childrenNum - 1;
      if hasEmpty {
        var emptyNum := 0;
        if children[0].nodeLabel == Empty {
          while emptyNum < childrenNum && children[emptyNum].nodeLabel == Empty
            invariant 0 <= emptyNum <= childrenNum
            invariant FirstNonEmpty(ls, emptyNum) == FirstNonEmpty(ls, 0)
          {
            emptyNum := emptyNum + 1;
          }
        }
        firstEmpty := emptyNum;
        if children[childrenNum - 1].nodeLabel == Empty {
          var i := childrenNum - 1;
          while i >= 0 && children[i].nodeLabel == Empty
            invariant -1 <= i < childrenNum
            invariant emptyNum == firstEmpty + (childrenNum - 1 - i)
            invariant LastNonEmpty(ls, i) == LastNonEmpty(ls, childrenNum - 1)
          {
            emptyNum := emptyNum + 1;
            i := i - 1;
          }
          if i >= 0 {
            lastEmpty := i;
          }
        }
        if emptyNum != |emptyChildren| {
          return false;
        }
      }
      if |partialChildren| == 2 {
        if children[firstEmpty].nodeLabel != SinglyPartial || children[lastEmpty].nodeLabel != SinglyPartial {
          return false;
        }
      } else if |partialChildren| == 1 {
        if children[firstEmpty].nodeLabel != SinglyPartial && children[lastEmpty].nodeLabel != SinglyPartial {
          return false;
        }
      }
      return true;
    }

    /** orderValidUpToTwoPartial as written: the same checks, and every path, the one
        where all of them pass included, returns false. */
    method OrderValidUpToTwoPartialAsWritten() returns (r: bool)
      requires listsAllocated && |children| > 0 && |emptyChildren| <= |children|
      ensures !r
    {
      var passed := OrderValidUpToTwoPartial();
      return false;
    }

    /** For a consistent node whose children carry only the three labels, at most two
        of them singly partial, the checks of orderValidUpToTwoPartial pass exactly on
        the doubly-partial orders of TwoPartialShape. */
    lemma TwoPartialMeaning()
      requires Consistent() && |children| > 0
      requires ThreeLabels(LabelsOf(children)) && |partialChildren| <= 2
      ensures |emptyChildren| <= |children|
      ensures TwoPartialAccepts(LabelsOf(children), |emptyChildren|, |partialChildren|)
        <==> TwoPartialShape(LabelsOf(children))
    {
      ConsistentCounts();
      TwoPartialChoice(LabelsOf(children));
    }
  }

  /** The first position at k or after it holding a non-empty label, |ls| when none does. */
  function FirstNonEmpty(ls: seq<Label>, k: nat): (r: nat)
    requires k <= |ls|
    ensures k <= r <= |ls| && (forall i :: k <= i < r ==> ls[i] == Empty) && (r == |ls| || ls[r] != Empty)
    decreases |ls| - k
  {
    if k == |ls| || ls[k] != Empty then k else FirstNonEmpty(ls, k + 1)
  }

  /** The last position at i or before it holding a non-empty label, -1 when none does. */
  function LastNonEmpty(ls: seq<Label>, i: int): (r: int)
    requires -1 <= i < |ls|
    ensures -1 <= r <= i && (forall j :: r < j <= i ==> ls[j] == Empty) && (r == -1 || ls[r] != Empty)
    decreases i + 1
  {
    if i < 0 || ls[i] != Empty then i else LastNonEmpty(ls, i - 1)
  }

  /** Either every label is empty, or the first non-empty one comes no later than the
      last one. */
  lemma EndsMeet(ls: seq<Label>)
    ensures var p, q := FirstNonEmpty(ls, 0), LastNonEmpty(ls, |ls| - 1);
      (p == |ls| && q == -1) || p <= q
  {
  }

  /** What the checks of orderValidUpToTwoPartial compute from the labels and the sizes
      of the empty and partial lists: firstEmpty and lastEmpty are the ends of the run
      between the outer empty children, and the empty children counted from both ends
      must number emptyCount. */
  function TwoPartialAccepts(ls: seq<Label>, emptyCount: nat, partialCount: nat): bool
    requires |ls| > 0 && emptyCount <= |ls|
  {
    var n := |ls|;
    if ls[0] == Full || ls[n - 1] == Full then false
    else
      var p := FirstNonEmpty(ls, 0);
      var q := LastNonEmpty(ls, n - 1);
      var firstEmpty := if emptyCount > 0 then p else 0;
      var lastEmpty := if emptyCount > 0 && q >= 0 then q else n - 1;
      if emptyCount > 0 && p + (n - 1 - q) != emptyCount then false
      else
        EndsMeet(ls);
        if partialCount == 2 then ls[firstEmpty] == SinglyPartial && ls[lastEmpty] == SinglyPartial
        else if partialCount == 1 then ls[firstEmpty] == SinglyPartial || ls[lastEmpty] == SinglyPartial
        else true
  }

  /** A run whose inner labels are not l counts l at most once per end. */
  lemma CountEnds(s: seq<Label>, l: Label)
    requires |s| > 0 && forall i :: 0 < i < |s| - 1 ==> s[i] != l
    ensures Count(s, l) <= (if s[0] == l then 1 else 0) + (if |s| > 1 && s[|s| - 1] == l then 1 else 0)
  {
    if |s| == 1 {
      assert s[1..] == [];
    } else {
      var mid := s[1..|s| - 1];
      assert s == [s[0]] + mid + [s[|s| - 1]];
      CountAppend([s[0]] + mid, [s[|s| - 1]], l);
      CountAppend([s[0]], mid, l);
      assert forall j :: 0 <= j < |mid| ==> mid[j] == s[j + 1];
      assert l !in mid;
      CountPositive(mid, l);
      assert [s[|s| - 1]][1..] == [];
      assert [s[0]][1..] == [];
    }
  }

  /** With no empty child, the first and the last non-empty ones are the two ends. */
  lemma NoEmptyEnds(ls: seq<Label>)
    requires |ls| > 0 && Count(ls, Empty) == 0
    ensures FirstNonEmpty(ls, 0) == 0 && LastNonEmpty(ls, |ls| - 1) == |ls| - 1
  {
    CountPositive(ls, Empty);
    assert ls[0] in ls && ls[|ls| - 1] in ls;
  }

  /** What passing the checks says about the first and the last non-empty child. */
  lemma AcceptsEnds(ls: seq<Label>)
    requires |ls| > 0
    requires TwoPartialAccepts(ls, Count(ls, Empty), Count(ls, SinglyPartial))
    ensures var n, p, q := |ls|, FirstNonEmpty(ls, 0), LastNonEmpty(ls, |ls| - 1);
      var e, s := Count(ls, Empty), Count(ls, SinglyPartial);
      && ls[0] != Full && ls[n - 1] != Full
      && 0 <= p <= q < n && p + (n - 1 - q) == e
      && (s == 2 ==> ls[p] == SinglyPartial && ls[q] == SinglyPartial)
      && (s == 1 ==> ls[p] == SinglyPartial || ls[q] == SinglyPartial)
  {
    var e := Count(ls, Empty);
    if e == 0 {
      NoEmptyEnds(ls);
    } else {
      var p, q := FirstNonEmpty(ls, 0), LastNonEmpty(ls, |ls| - 1);
      EndsMeet(ls);
      assert p + (|ls| - 1 - q) == e;
      assert p <= q;
    }
  }

  /** When the empty children before a and from b on are all the empty children, there
      is none between a and b. */
  lemma RunWithoutEmpty(ls: seq<Label>, a: nat, b: nat)
    requires a <= b <= |ls|
    requires forall i :: 0 <= i < a ==> ls[i] == Empty
    requires forall i :: b <= i < |ls| ==> ls[i] == Empty
    requires Count(ls, Empty) == a + (|ls| - b)
    ensures forall i :: a <= i < b ==> ls[i] != Empty
  {
    CountAround(ls, a, b);
    var run := ls[a..b];
    CountPositive(run, Empty);
    forall i | a <= i < b ensures ls[i] != Empty {
      assert run[i - a] == ls[i];
    }
  }

  /** With at most two singly partial children, two of them at a and at b - 1, or one at
      either end when only one exists, none lies strictly between a and b - 1. */
  lemma PartialOnlyAtEnds(ls: seq<Label>, a: nat, b: nat)
    requires a < b <= |ls| && Count(ls, SinglyPartial) <= 2
    requires Count(ls, SinglyPartial) == 2 ==> ls[a] == SinglyPartial && ls[b - 1] == SinglyPartial
    requires Count(ls, SinglyPartial) == 1 ==> ls[a] == SinglyPartial || ls[b - 1] == SinglyPartial
    ensures forall i :: a < i < b - 1 ==> ls[i] != SinglyPartial
  {
    var s := Count(ls, SinglyPartial);
    forall i | a < i < b - 1 ensures ls[i] != SinglyPartial {
      if ls[i] == SinglyPartial {
        if s == 2 {
          CountAtLeast(ls, SinglyPartial, a, b - 1);
        } else if s == 1 {
          if ls[a] == SinglyPartial {
            CountAtLeast(ls, SinglyPartial, a, i);
          } else {
            CountAtLeast(ls, SinglyPartial, i, b - 1);
          }
        } else {
          CountPositive(ls, SinglyPartial);
        }
      }
    }
  }

  /** Labels that pass the checks have the doubly-partial shape, with the run between
      firstEmpty and lastEmpty. */
  lemma AcceptsShape(ls: seq<Label>)
    requires |ls| > 0 && ThreeLabels(ls) && Count(ls, SinglyPartial) <= 2
    requires TwoPartialAccepts(ls, Count(ls, Empty), Count(ls, SinglyPartial))
    ensures TwoPartialShape(ls)
  {
    AcceptsEnds(ls);
    ShapeBetween(ls, FirstNonEmpty(ls, 0), LastNonEmpty(ls, |ls| - 1));
  }

  /** Labels whose empty children lie before p and after q, outer children not full and
      singly partial children only at p and q, have the doubly-partial shape. */
  lemma ShapeBetween(ls: seq<Label>, p: nat, q: nat)
    requires p <= q < |ls| && ls[0] != Full && ls[|ls| - 1] != Full
    requires forall i :: 0 <= i < p ==> ls[i] == Empty
    requires forall i :: q < i < |ls| ==> ls[i] == Empty
    requires Count(ls, Empty) == p + (|ls| - 1 - q)
    requires Count(ls, SinglyPartial) <= 2
    requires Count(ls, SinglyPartial) == 2 ==> ls[p] == SinglyPartial && ls[q] == SinglyPartial
    requires Count(ls, SinglyPartial) == 1 ==> ls[p] == SinglyPartial || ls[q] == SinglyPartial
    ensures TwoPartialShape(ls)
  {
    RunWithoutEmpty(ls, p, q + 1);
    PartialOnlyAtEnds(ls, p, q + 1);
    assert Around(ls, p, q + 1);
  }

  /** In labels of the doubly-partial shape around a..b, the first and the last non-empty
      children are at a and b - 1. */
  lemma ShapeEnds(ls: seq<Label>, a: nat, b: nat)
    requires a < b <= |ls| && Around(ls, a, b)
    ensures FirstNonEmpty(ls, 0) == a && LastNonEmpty(ls, |ls| - 1) == b - 1
  {
    var p, q := FirstNonEmpty(ls, 0), LastNonEmpty(ls, |ls| - 1);
    assert ls[a] != Empty && ls[b - 1] != Empty;
    assert p == a;
    assert q == b - 1;
  }

  /** In labels of the doubly-partial shape around a..b, the empty children are those
      outside, and any singly partial child is at one of the two ends of the run. */
  lemma ShapeCounts(ls: seq<Label>, a: nat, b: nat)
    requires a < b <= |ls| && Around(ls, a, b)
    ensures Count(ls, Empty) == a + (|ls| - b)
    ensures Count(ls, SinglyPartial) == 2 ==> ls[a] == SinglyPartial && ls[b - 1] == SinglyPartial
    ensures Count(ls, SinglyPartial) == 1 ==> ls[a] == SinglyPartial || ls[b - 1] == SinglyPartial
  {
    CountAround(ls, a, b);
    var run := ls[a..b];
    assert Empty !in run by {
      forall j | 0 <= j < |run| ensures run[j] != Empty {
        assert run[j] == ls[a + j];
      }
    }
    CountPositive(run, Empty);
    forall i | 0 < i < |run| - 1 ensures run[i] != SinglyPartial {
      assert run[i] == ls[a + i];
    }
    CountEnds(run, SinglyPartial);
    assert run[0] == ls[a] && run[|run| - 1] == ls[b - 1];
  }

  /** The checks pass when the outer children are not full, the empty children are those
      before the first and after the last non-empty one, and the singly partial children
      sit at those two. */
  lemma AcceptsBetween(ls: seq<Label>, p: nat, q: nat)
    requires p <= q < |ls| && ls[0] != Full && ls[|ls| - 1] != Full
    requires FirstNonEmpty(ls, 0) == p && LastNonEmpty(ls, |ls| - 1) == q
    requires Count(ls, Empty) == p + (|ls| - 1 - q)
    requires Count(ls, SinglyPartial) == 2 ==> ls[p] == SinglyPartial && ls[q] == SinglyPartial
    requires Count(ls, SinglyPartial) == 1 ==> ls[p] == SinglyPartial || ls[q] == SinglyPartial
    ensures TwoPartialAccepts(ls, Count(ls, Empty), Count(ls, SinglyPartial))
  {
  }

  /** Labels of the doubly-partial shape, at most two of them singly partial, pass the
      checks. */
  lemma ShapeAccepts(ls: seq<Label>)
    requires |ls| > 0 && ThreeLabels(ls) && Count(ls, SinglyPartial) <= 2
    requires TwoPartialShape(ls)
    ensures TwoPartialAccepts(ls, Count(ls, Empty), Count(ls, SinglyPartial))
  {
    var a, b :| 0 <= a < b <= |ls| && Around(ls, a, b);
    ShapeEnds(ls, a, b);
    ShapeCounts(ls, a, b);
    AcceptsBetween(ls, a, b - 1);
  }

  /** For children carrying only the three labels, at most two of them singly partial,
      the checks pass exactly on the doubly-partial shape. */
  lemma TwoPartialChoice(ls: seq<Label>)
    requires |ls| > 0 && ThreeLabels(ls) && Count(ls, SinglyPartial) <= 2
    ensures TwoPartialAccepts(ls, Count(ls, Empty), Count(ls, SinglyPartial)) <==> TwoPartialShape(ls)
  {
    if TwoPartialAccepts(ls, Count(ls, Empty), Count(ls, SinglyPartial)) {
      AcceptsShape(ls);
    }
    if TwoPartialShape(ls) {
      ShapeAccepts(ls);
    }
  }

  /** orderValidUpToTwoPartial as written rejects an order it exists to accept: a
      singly partial child, a full one and a singly partial one. */
  lemma TwoPartialRejectsValid()
    ensures TwoPartialShape([SinglyPartial, Full, SinglyPartial])
    ensures TwoPartialAccepts([SinglyPartial, Full, SinglyPartial], 0, 2)
  {
    assert Around([SinglyPartial, Full, SinglyPartial], 0, 3);
  }
}
