/** The group generated by a reflection and a rotation
    (GraphDrawingTheory/src/graph/symmetry/PermutationGroup.java).

    A missing reflection or rotation (Java's null) is None. As in the permutation module,
    boxed `Integer` comparisons are modelled as comparisons of values, and the key-set
    iteration of `fix` is an explicit enumeration. */
module PermutationGroups {
  import opened Wrappers
  import opened GraphElements
  import opened Permutations

  /** p, p^2, ..., p^n. */
  function Powers(p: Permutation, n: nat): (r: seq<Permutation>)
    ensures |r| == n
    ensures forall i {:trigger r[i]} :: 0 <= i < n ==> r[i] == Power(p, i + 1)
  {
    if n == 0 then [] else Powers(p, n - 1) + [Power(p, n)]
  }

  /** n is the order of p: the least positive power that is the identity. */
  ghost predicate IsOrder(p: Permutation, n: nat)
  {
    n >= 1 && IsIdentity(Power(p, n)) && NoIdentityBelow(p, n)
  }

  /** Some power of a bijection is its first identity power: a loop multiplying by p
      until it meets the identity stops. */
  lemma OrderExists(p: Permutation)
    requires IsBijection(p)
    ensures exists n :: IsOrder(p, n)
  {
    var bound := IdentityPowerBound(p);
    var n := 1;
    var result := p;
    while !IsIdentity(result)
      invariant 1 <= n <= bound && result == Power(p, n) && NoIdentityBelow(p, n)
      decreases bound - n
    {
      PowerStep(p, n);
      result := Mul(result, p);
      n := n + 1;
    }
    assert IsOrder(p, n);
  }

  /** A permutation has one order. */
  lemma OrderUnique(p: Permutation, a: nat, b: nat)
    requires IsOrder(p, a) && IsOrder(p, b)
    ensures a == b
  {
    NoIdentityBelowAll(p, a);
    NoIdentityBelowAll(p, b);
  }

  /** rotation.mul(reflection), the generator of the third loop. */
  function Product(reflection: Permutation, rotation: Permutation): Permutation
  {
    Mul(rotation, reflection)
  }

  /** What the generating loops need in order to stop: the rotation, and the product of
      the rotation with the reflection when both are present, are bijections. */
  ghost predicate Admissible(reflection: Option<Permutation>, rotation: Option<Permutation>)
  {
    && (rotation.Some? ==> IsBijection(rotation.value))
    && (reflection.Some? && rotation.Some? ==> IsBijection(Product(reflection.value, rotation.value)))
  }

  /** k1 is the order of the rotation and k2 that of the product, where present. */
  ghost predicate HasOrders(reflection: Option<Permutation>, rotation: Option<Permutation>, k1: nat, k2: nat)
  {
    && k2 >= 1
    && (rotation.Some? ==> IsOrder(rotation.value, k1))
    && (reflection.Some? && rotation.Some? ==> IsOrder(Product(reflection.value, rotation.value), k2))
  }

  /** The members initPermutations lists, given the orders k1 of the rotation and k2 of
      the product: the reflection and its square; the powers of the rotation up to and
      including the identity; the powers of the product short of the identity. */
  function Members(reflection: Option<Permutation>, rotation: Option<Permutation>, k1: nat, k2: nat): seq<Permutation>
    requires k2 >= 1
  {
    match (reflection, rotation)
    case (None, None) => []
    case (Some(f), None) => [f, Mul(f, f)]
    case (None, Some(r)) => Powers(r, k1)
    case (Some(f), Some(r)) => [f, Mul(f, f)] + Powers(r, k1) + Powers(Product(f, r), k2 - 1)
  }

  /** Two equal powers a < b send every key back to itself in b - a steps. */
  lemma SamePowerReturns(p: Permutation, a: nat, b: nat, x: int)
    requires IsBijection(p) && 1 <= a < b && Power(p, a) == Power(p, b) && x in p
    ensures Power(p, b - a)[x] == Some(x)
  {
    PowerApply(p, a, x);
    PowerApply(p, b, x);
    Cancel(p, x, a, b);
    PowerApply(p, b - a, x);
  }

  /** Two equal powers a < b make the (b - a)-th power the identity. */
  lemma SamePowerCancels(p: Permutation, a: nat, b: nat)
    requires IsBijection(p) && 1 <= a < b && Power(p, a) == Power(p, b)
    ensures IsIdentity(Power(p, b - a))
  {
    forall x | x in p ensures Power(p, b - a)[x] == Some(x) {
      SamePowerReturns(p, a, b, x);
    }
  }

  /** Below the order, the powers of a bijection are pairwise different. */
  lemma PowersDistinct(p: Permutation, n: nat)
    requires IsBijection(p)
    requires forall j {:trigger IsIdentity(Power(p, j))} :: 1 <= j < n ==> !IsIdentity(Power(p, j))
    ensures NoDuplicates(Powers(p, n))
  {
    var s := Powers(p, n);
    forall i, j | 0 <= i < j < n ensures s[i] != s[j] {
      if s[i] == s[j] {
        SamePowerCancels(p, i + 1, j + 1);
      }
    }
  }

  /** A rotation group of order k lists the powers of the rotation in order, each once;
      the identity is last and only last. */
  lemma RotationGroup(rotation: Permutation, k: nat)
    requires IsBijection(rotation) && IsOrder(rotation, k)
    ensures var m := Members(None, Some(rotation), k, 1);
      && |m| == k
      && (forall i {:trigger m[i]} :: 0 <= i < |m| ==> m[i] == Power(rotation, i + 1))
      && IsIdentity(m[|m| - 1])
      && (forall i {:trigger m[i]} :: 0 <= i < |m| - 1 ==> !IsIdentity(m[i]))
      && NoDuplicates(m)
  {
    var m := Members(None, Some(rotation), k, 1);
    NoIdentityBelowAll(rotation, k);
    PowersDistinct(rotation, k);
    forall i {:trigger m[i]} | 0 <= i < |m| - 1 ensures !IsIdentity(m[i]) {
      assert m[i] == Power(rotation, i + 1);
    }
  }

  /** A reflection group lists the reflection and then its square. */
  lemma ReflectionGroup(reflection: Permutation, k1: nat, k2: nat)
    requires k2 >= 1
    ensures Members(Some(reflection), None, k1, k2) == [reflection, Mul(reflection, reflection)]
  {
  }

  /** A dihedral group lists two reflection entries, every power of the rotation and
      every power of the product short of the identity: 1 + the two orders; the
      orders, and so the members, are determined by the generators. */
  lemma DihedralGroupSize(reflection: Permutation, rotation: Permutation, k1: nat, k2: nat, j1: nat, j2: nat)
    requires HasOrders(Some(reflection), Some(rotation), k1, k2)
    requires HasOrders(Some(reflection), Some(rotation), j1, j2)
    ensures |Members(Some(reflection), Some(rotation), k1, k2)| == 1 + k1 + k2
    ensures Members(Some(reflection), Some(rotation), k1, k2) == Members(Some(reflection), Some(rotation), j1, j2)
  {
    OrderUnique(rotation, k1, j1);
    OrderUnique(Product(reflection, rotation), k2, j2);
  }

  /** Applying a bijection j times is injective. */
  lemma {:induction false} ApplyInjective(p: Permutation, j: nat, a: int, b: int)
    requires IsBijection(p) && a in p && b in p && Apply(p, j, a) == Apply(p, j, b)
    ensures a == b
  {
    if j > 0 {
      assert At(p, Apply(p, j - 1, a)) == At(p, Apply(p, j - 1, b));
      ApplyInjective(p, j - 1, a, b);
    }
  }

  /** Every power of a bijection is a bijection of the same keys. */
  lemma PowerBijection(p: Permutation, j: nat)
    requires IsBijection(p) && j >= 1
    ensures IsBijection(Power(p, j)) && Power(p, j).Keys == p.Keys
  {
    var q := Power(p, j);
    forall k | k in q ensures q[k].Some? && q[k].value in q {
      PowerApply(p, j, k);
    }
    forall a, b | a in q && b in q && At(q, a) == At(q, b) ensures a == b {
      PowerApply(p, j, a);
      PowerApply(p, j, b);
      ApplyInjective(p, j, a, b);
    }
  }

  /** The product of two bijections of the same keys is one too: a reflection and a
      rotation of one vertex set are always admissible. */
  lemma MulBijection(p: Permutation, q: Permutation)
    requires IsBijection(p) && IsBijection(q) && p.Keys == q.Keys
    ensures IsBijection(Mul(p, q))
  {
    var r := Mul(p, q);
    forall k | k in r ensures r[k].Some? && r[k].value in r {
      assert p[k].value in q;
    }
    forall a, b | a in r && b in r && At(r, a) == At(r, b) ensures a == b {
      assert p[a].value in q && p[b].value in q;
      assert At(q, p[a].value) == At(q, p[b].value);
      assert At(p, a) == At(p, b);
    }
  }

  /** The members with g(u) = u, in member order. */
  function StabilizersOf(perms: seq<Permutation>, u: int): (r: seq<Permutation>)
    ensures forall g :: g in r <==> g in perms && Get(g, u) == Some(u)
    ensures |r| <= |perms|
  {
    if perms == [] then []
    else
      var g := perms[|perms| - 1];
      var r := StabilizersOf(perms[..|perms| - 1], u);
      assert perms == perms[..|perms| - 1] + [g];
      if Get(g, u) == Some(u) then r + [g] else r
  }

  /** `Y.contains(o)` for the image o, which is null when y is not a key. */
  predicate ImageIn(o: Option<int>, ys: seq<int>)
  {
    o.Some? && o.value in ys
  }

  /** How many entries of Y, from the front, have their image in Y: the number of times
      subsetStabilizers adds g before its inner loop stops. */
  function Leading(g: Permutation, ys: seq<int>, rest: seq<int>): (n: nat)
    ensures n <= |rest|
    ensures forall k :: 0 <= k < n ==> ImageIn(Get(g, rest[k]), ys)
    ensures n < |rest| ==> !ImageIn(Get(g, rest[n]), ys)
  {
    if rest == [] || !ImageIn(Get(g, rest[0]), ys) then 0 else 1 + Leading(g, ys, rest[1..])
  }

  /** A leading run of j images in Y followed by one outside it, or by the end, has
      length j. */
  lemma {:induction false} LeadingIs(g: Permutation, ys: seq<int>, rest: seq<int>, j: nat)
    requires j <= |rest|
    requires forall k :: 0 <= k < j ==> ImageIn(Get(g, rest[k]), ys)
    requires j < |rest| ==> !ImageIn(Get(g, rest[j]), ys)
    ensures Leading(g, ys, rest) == j
  {
  }

  /** g, n times. */
  function Repeat(g: Permutation, n: nat): (r: seq<Permutation>)
    ensures |r| == n && forall i :: 0 <= i < n ==> r[i] == g
  {
    if n == 0 then [] else Repeat(g, n - 1) + [g]
  }

  /** subsetStabilizers as written: its add sits inside the loop over Y, so each member
      is listed once per leading element of Y whose image stays in Y. */
  function SubsetStabilizersAsWritten(perms: seq<Permutation>, ys: seq<int>): seq<Permutation>
  {
    if perms == [] then []
    else
      var g := perms[|perms| - 1];
      SubsetStabilizersAsWritten(perms[..|perms| - 1], ys) + Repeat(g, Leading(g, ys, ys))
  }

  /** Every element of Y is sent into Y. */
  ghost predicate Stabilizes(g: Permutation, ys: seq<int>)
  {
    forall k :: 0 <= k < |ys| ==> ImageIn(Get(g, ys[k]), ys)
  }

  /** The evident intent: each member that maps Y into itself, once, in member order. */
  function SubsetStabilizers(perms: seq<Permutation>, ys: seq<int>): (r: seq<Permutation>)
    ensures forall g :: g in r <==> g in perms && Stabilizes(g, ys)
    ensures |r| <= |perms|
    ensures NoDuplicates(perms) ==> NoDuplicates(r)
  {
    if perms == [] then []
    else
      var g := perms[|perms| - 1];
      var pre := perms[..|perms| - 1];
      var r := SubsetStabilizers(pre, ys);
      assert perms == pre + [g];
      assert NoDuplicates(perms) ==> g !in r && NoDuplicates(pre) by {
        if NoDuplicates(perms) {
          NoDuplicatesPrefix(perms);
        }
      }
      assert Stabilizes(g, ys) <==> Leading(g, ys, ys) == |ys|;
      if Leading(g, ys, ys) == |ys| then r + [g] else r
  }

  /** The identity on {1, 2} stabilizes Y = [1, 2]; the code lists it twice. And every
      member stabilizes the empty set, yet the code lists none for Y = []. */
  lemma SubsetStabilizersRepeats()
    ensures var id := map[1 := Some(1), 2 := Some(2)];
      && SubsetStabilizersAsWritten([id], [1, 2]) == [id, id]
      && SubsetStabilizers([id], [1, 2]) == [id]
      && SubsetStabilizersAsWritten([id], []) == []
      && SubsetStabilizers([id], []) == [id]
  {
    var id := map[1 := Some(1), 2 := Some(2)];
    assert Leading(id, [1, 2], [1, 2]) == 2 by {
      assert [1, 2][1..] == [2];
      assert Leading(id, [1, 2], [2]) == 1;
    }
    assert Stabilizes(id, [1, 2]);
  }

  /** A stabilizer of a non-empty Y is listed by the code once per element of Y. */
  lemma StabilizerListedPerElement(g: Permutation, ys: seq<int>)
    requires Stabilizes(g, ys)
    ensures SubsetStabilizersAsWritten([g], ys) == Repeat(g, |ys|)
  {
    LeadingIs(g, ys, ys, |ys|);
    assert [g][..0] == [];
  }

  /** The elements fixed by every member: Get(g, x) == Some(x) for each g. */
  ghost predicate FixedByAll(perms: seq<Permutation>, x: int)
  {
    forall i :: 0 <= i < |perms| ==> Get(perms[i], x) == Some(x)
  }

  /** The listed elements fixed by every member, in list order. */
  function CommonFixed(perms: seq<Permutation>, elements: seq<int>): (r: seq<int>)
    ensures forall x :: x in r <==> x in elements && FixedByAll(perms, x)
    ensures NoDuplicates(elements) ==> NoDuplicates(r)
  {
    if elements == [] then []
    else
      var x := elements[|elements| - 1];
      var pre := elements[..|elements| - 1];
      var r := CommonFixed(perms, pre);
      assert elements == pre + [x];
      assert NoDuplicates(elements) ==> x !in r && NoDuplicates(pre) by {
        if NoDuplicates(elements) {
          NoDuplicatesPrefix(elements);
        }
      }
      if forall i :: 0 <= i < |perms| ==> Get(perms[i], x) == Some(x) then r + [x] else r
  }

  /** Some key is mapped to itself: what `fix().size() > 0` asks. */
  predicate HasFixedPoint(p: Permutation)
  {
    exists k :: k in p && p[k] == Some(k)
  }

  /** fix() of a permutation is non-empty exactly when it has a fixed point, whatever
      order its keys are iterated in. */
  lemma FixNonEmpty(p: Permutation, keys: seq<int>)
    requires Enumerates(keys, p)
    ensures |Fix(p, keys)| > 0 <==> HasFixedPoint(p)
  {
    if HasFixedPoint(p) {
      var k :| k in p && p[k] == Some(k);
      assert k in keys;
      assert k in Fix(p, keys);
    }
    if |Fix(p, keys)| > 0 {
      var k := Fix(p, keys)[0];
      assert k in keys && Get(p, k) == Some(k);
      assert k in p && p[k] == Some(k);
    }
  }

  /** No member other than an identity has a fixed point. */
  ghost predicate SemiRegular(perms: seq<Permutation>)
  {
    forall i :: 0 <= i < |perms| ==> IsIdentity(perms[i]) || !HasFixedPoint(perms[i])
  }

  /** In a rotation group, the orbit of a vertex lists its images under p, p^2, ...:
      entry i is p^(i+1)(u) ... */
  lemma RotationOrbit(rotation: Permutation, k: nat, u: int, i: nat)
    requires IsBijection(rotation) && u in rotation && i < k
    ensures Get(Members(None, Some(rotation), k, 1)[i], u) == Some(Apply(rotation, i + 1, u))
  {
    PowerApply(rotation, i + 1, u);
  }

  /** ... and its last entry is the vertex itself. */
  lemma RotationOrbitCloses(rotation: Permutation, k: nat, u: int)
    requires IsBijection(rotation) && IsOrder(rotation, k) && u in rotation
    ensures var m := Members(None, Some(rotation), k, 1);
      Get(m[|m| - 1], u) == Some(u)
  {
    var m := Members(None, Some(rotation), k, 1);
    assert m[k - 1] == Power(rotation, k);
  }

  /** One round of the generating loop: appending the k-th power, which is not the
      identity, extends the list of powers, and the next product is the next power. */
  lemma AppendPowerStep(p: Permutation, k: nat, mul: Permutation, start: seq<Permutation>, perms: seq<Permutation>)
    requires 1 <= k
    requires mul == Power(p, k) && NoIdentityBelow(p, k) && !IsIdentity(mul)
    requires perms == start + Powers(p, k - 1)
    ensures Mul(mul, p) == Power(p, k + 1) && NoIdentityBelow(p, k + 1)
    ensures perms + [mul] == start + Powers(p, k)
  {
    PowerStep(p, k);
    AppendAssoc(start, Powers(p, k - 1), [mul]);
  }

  /** Appending two entries one after the other. */
  lemma AppendTwo<T>(s: seq<T>, a: T, b: T)
    ensures s + [a] + [b] == s + [a, b]
  {
  }

  /** Appending to nothing. */
  lemma EmptyAppend<T>(s: seq<T>)
    ensures [] + s == s
  {
  }

  /** Concatenation is associative. */
  lemma AppendAssoc<T>(a: seq<T>, b: seq<T>, c: seq<T>)
    ensures a + b + c == a + (b + c)
  {
  }

  /** The group object: its members and the generators they came from. */
  class PermutationGroup {
    var permutations: seq<Permutation>
    const reflection: Option<Permutation>
    const rotation: Option<Permutation>
    /** The orders the generating loops found; ghost, as the source does not keep them. */
    ghost var rotationOrder: nat
    ghost var productOrder: nat

    /** PermutationGroup(reflection, rotation): an empty list filled by
        initPermutations. */
    constructor(reflection: Option<Permutation>, rotation: Option<Permutation>)
      requires Admissible(reflection, rotation)
      ensures this.reflection == reflection && this.rotation == rotation
      ensures HasOrders(reflection, rotation, rotationOrder, productOrder)
      ensures permutations == Members(reflection, rotation, rotationOrder, productOrder)
    {
      permutations := [];
      this.reflection := reflection;
      this.rotation := rotation;
      rotationOrder, productOrder := 1, 1;
      new;
      InitPermutations();
      EmptyAppend(Members(reflection, rotation, rotationOrder, productOrder));
    }

    /** initPermutations: appends the members in the order of Members, recording the
        orders its loops find. */
    method InitPermutations()
      requires Admissible(reflection, rotation)
      modifies this
      ensures HasOrders(reflection, rotation, rotationOrder, productOrder)
      ensures permutations == old(permutations) + Members(reflection, rotation, rotationOrder, productOrder)
    {
      ghost var start := permutations;
      rotationOrder, productOrder := 1, 1;
      ghost var front: seq<Permutation> := [];
      if reflection.Some? {
        front := [reflection.value, Mul(reflection.value, reflection.value)];
        permutations := permutations + [reflection.value];
        permutations := permutations + [Mul(reflection.value, reflection.value)];
        AppendTwo(start, reflection.value, Mul(reflection.value, reflection.value));
      }
      assert permutations == start + front;
      if rotation.Some? {
        var mul, k := AppendPowersBeforeIdentity(rotation.value);
        permutations := permutations + [mul];
        rotationOrder := k;
        AppendAssoc(start, front, Powers(rotation.value, k));
      }
      if reflection.Some? && rotation.Some? {
        var prod := Mul(rotation.value, reflection.value);
        var mul, k := AppendPowersBeforeIdentity(prod);
        productOrder := k;
        AppendAssoc(start, front + Powers(rotation.value, rotationOrder), Powers(prod, k - 1));
      }
    }

    /** One of the generating loops: starting from p, appends each power of p while it
        is not the identity, and returns the identity power it stopped at, the k-th
        where k is the order of p. */
    method AppendPowersBeforeIdentity(p: Permutation) returns (mul: Permutation, ghost k: nat)
      requires IsBijection(p)
      modifies this`permutations
      ensures IsOrder(p, k)
      ensures permutations == old(permutations) + Powers(p, k - 1)
      ensures permutations + [mul] == old(permutations) + Powers(p, k)
      ensures mul == Power(p, k) && IsIdentity(mul)
    {
      ghost var bound := IdentityPowerBound(p);
      ghost var start := permutations;
      var perms := permutations;
      k := 1;
      mul := p;
      while !IsIdentity(mul)
        invariant 1 <= k <= bound
        invariant mul == Power(p, k)
        invariant NoIdentityBelow(p, k)
        invariant perms == start + Powers(p, k - 1)
        decreases bound - k
      {
        AppendPowerStep(p, k, mul, start, perms);
        perms := perms + [mul];
        mul := Mul(mul, p);
        k := k + 1;
      }
      AppendAssoc(start, Powers(p, k - 1), [mul]);
      permutations := perms;
    }

    /** stabilizers(u): the members that map u to itself, in member order. */
    method Stabilizers(u: int) returns (ret: seq<Permutation>)
      ensures ret == StabilizersOf(permutations, u)
      ensures forall g :: g in ret <==> g in permutations && Get(g, u) == Some(u)
    {
      ret := [];
      for i := 0 to |permutations|
        invariant ret == StabilizersOf(permutations[..i], u)
      {
        assert permutations[..i + 1][..i] == permutations[..i];
        var perm := permutations[i];
        if Get(perm, u) == Some(u) {
          ret := ret + [perm];
        }
      }
      assert permutations[..|permutations|] == permutations;
    }

    /** subsetStabilizers(Y), with the add inside the inner loop as the code has it. */
    method SubsetStabilizersListed(ys: seq<int>) returns (ret: seq<Permutation>)
      ensures ret == SubsetStabilizersAsWritten(permutations, ys)
    {
      ret := [];
      for i := 0 to |permutations|
        invariant ret == SubsetStabilizersAsWritten(permutations[..i], ys)
      {
        assert permutations[..i + 1][..i] == permutations[..i];
        var perm := permutations[i];
        var stabilizer := true;
        var j := 0;
        ghost var before := ret;
        while j < |ys|
          invariant 0 <= j <= |ys|
          invariant forall k :: 0 <= k < j ==> ImageIn(Get(perm, ys[k]), ys)
          invariant stabilizer
          invariant ret == before + Repeat(perm, j)
        {
          if !ImageIn(Get(perm, ys[j]), ys) {
            stabilizer := false;
            break;
          }
          if stabilizer {
            ret := ret + [perm];
          }
          j := j + 1;
        }
        LeadingIs(perm, ys, ys, j);
      }
      assert permutations[..|permutations|] == permutations;
    }

    /** fix(): the elements of the first member's key set that every member maps to
        themselves; None when there is no member (IndexOutOfBoundsException). */
    method Fix(elements: seq<int>) returns (r: Option<seq<int>>)
      requires permutations != [] ==> Enumerates(elements, permutations[0])
      ensures r.None? <==> permutations == []
      ensures r.Some? ==> r.value == CommonFixed(permutations, elements)
      ensures r.Some? ==> NoDuplicates(r.value)
      ensures r.Some? ==> forall x :: x in r.value <==> x in permutations[0] && FixedByAll(permutations, x)
    {
      if |permutations| == 0 {
        return None;
      }
      var ret := [];
      for i := 0 to |elements|
        invariant ret == CommonFixed(permutations, elements[..i])
      {
        assert elements[..i + 1][..i] == elements[..i];
        var el := elements[i];
        var ok := true;
        var j := 0;
        while j < |permutations|
          invariant 0 <= j <= |permutations|
          invariant ok <==> forall k :: 0 <= k < j ==> Get(permutations[k], el) == Some(el)
        {
          if Get(permutations[j], el) != Some(el) {
            ok := false;
            break;
          }
          j := j + 1;
        }
        if ok {
          ret := ret + [el];
        }
      }
      assert elements[..|elements|] == elements;
      r := Some(ret);
    }

    /** orbit(u): the image of u under each member, in member order (None where u is
        not a key). */
    method Orbit(u: int) returns (ret: seq<Option<int>>)
      ensures |ret| == |permutations|
      ensures forall i :: 0 <= i < |ret| ==> ret[i] == Get(permutations[i], u)
    {
      ret := [];
      for i := 0 to |permutations|
        invariant |ret| == i
        invariant forall k :: 0 <= k < i ==> ret[k] == Get(permutations[k], u)
      {
        ret := ret + [Get(permutations[i], u)];
      }
    }

    /** isSemiRegular(): false at the first member that is not the identity and has a
        fixed point. */
    method IsSemiRegular() returns (b: bool)
      ensures b <==> SemiRegular(permutations)
    {
      for i := 0 to |permutations|
        invariant SemiRegular(permutations[..i])
      {
        var p := permutations[i];
        if !IsIdentity(p) && HasFixedPoint(p) {
          assert !SemiRegular(permutations) by {
            assert permutations[i] == p;
          }
          return false;
        }
        assert permutations[..i + 1][i] == p;
      }
      assert permutations[..|permutations|] == permutations;
      return true;
    }
  }
}
