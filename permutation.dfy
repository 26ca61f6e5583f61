/** Permutations of integer vertex labels
    (GraphDrawingTheory/src/graph/symmetry/Permutation.java).

    A permutation is its map from Integer to Integer. Java's HashMap iterates its key set
    in an order this model does not know; the operations whose result depends on that
    order take it as an explicit enumeration of the keys. Boxed `Integer` comparisons
    with `==` and `!=` are modelled as comparisons of values. */
module Permutations {
  import opened Wrappers
  import opened GraphElements

  /** The map of a permutation; None stands for a null value, which `mul` stores when
      the other permutation has no image. */
  type Permutation = map<int, Option<int>>

  /** `Map.get`: null for a key that is not there. */
  function Get(p: Permutation, k: int): Option<int>
  {
    if k in p then p[k] else None
  }

  /** Every entry of the list is a key. */
  ghost predicate InDomain(keys: seq<int>, p: Permutation)
  {
    forall i :: 0 <= i < |keys| ==> keys[i] in p
  }

  /** An iteration order of the key set: every key, once. */
  ghost predicate Enumerates(keys: seq<int>, p: Permutation)
  {
    NoDuplicates(keys) && InDomain(keys, p) && (forall k :: k in p ==> k in keys)
  }

  /** The value stored under a key. */
  function At(p: Permutation, k: int): Option<int>
    requires k in p
  {
    p[k]
  }

  /** A bijection of the key set onto itself, as the symmetry code builds them. */
  predicate IsBijection(p: Permutation)
  {
    && (forall k {:trigger p[k]} :: k in p ==> p[k].Some? && p[k].value in p)
    && (forall a, b :: a in p && b in p && At(p, a) == At(p, b) ==> a == b)
  }

  /** inverse(): every key with an image is put under that image, in iteration order,
      so a later key overwrites an earlier one with the same image. A key without an
      image (null in Java, which would go under the null key) is skipped. */
  function Inverse(p: Permutation, keys: seq<int>): (r: Permutation)
    requires InDomain(keys, p)
    ensures forall v :: v in r ==> r[v].Some? && r[v].value in p && p[r[v].value] == Some(v)
    ensures forall i :: 0 <= i < |keys| && p[keys[i]].Some? ==> p[keys[i]].value in r
  {
    if keys == [] then map[]
    else
      var k := keys[|keys| - 1];
      var r := Inverse(p, keys[..|keys| - 1]);
      if p[k].Some? then r[p[k].value := Some(k)] else r
  }

  /** mul(other): k goes to other(p(k)); the product has exactly p's keys. */
  function Mul(p: Permutation, other: Permutation): (r: Permutation)
    ensures r.Keys == p.Keys
  {
    map k | k in p :: if p[k].Some? then Get(other, p[k].value) else None
  }

  /** isIdentityPermutation: every key maps to itself. */
  predicate IsIdentity(p: Permutation)
  {
    forall k {:trigger p[k]} :: k in p ==> p[k] == Some(k)
  }

  /** The values stored under the entries of a list, in its order. */
  function Images(p: Permutation, keys: seq<int>): (r: seq<Option<int>>)
    ensures |r| == |keys|
    ensures forall i :: 0 <= i < |keys| ==> r[i] == Get(p, keys[i])
  {
    if keys == [] then [] else Images(p, keys[..|keys| - 1]) + [Get(p, keys[|keys| - 1])]
  }

  /** An injective map sends a list of distinct keys to a list without repeats. */
  lemma ImagesDistinct(p: Permutation, keys: seq<int>)
    requires IsBijection(p) && Enumerates(keys, p)
    ensures NoDuplicates(Images(p, keys))
  {
    var img := Images(p, keys);
    forall i, j | 0 <= i < j < |img| ensures img[i] != img[j] {
      var a, b := keys[i], keys[j];
      assert a != b;
      assert a in p && b in p;
      assert At(p, a) != At(p, b);
    }
  }

  /** The images of all keys are all keys. */
  lemma ImagesAreKeys(p: Permutation, keys: seq<int>)
    requires IsBijection(p) && Enumerates(keys, p)
    ensures forall y :: y in p ==> Some(y) in Images(p, keys)
  {
    var img := Images(p, keys);
    var somes := seq(|keys|, i requires 0 <= i < |keys| => Some(keys[i]));
    ImagesDistinct(p, keys);
    forall i, j | 0 <= i < j < |somes| ensures somes[i] != somes[j] {
      assert keys[i] != keys[j];
    }
    forall x | x in img ensures x in somes {
      var i :| 0 <= i < |img| && img[i] == x;
      var k := keys[i];
      assert k in p && p[k].Some?;
      var y := p[k].value;
      assert y in p && y in keys;
      var j :| 0 <= j < |keys| && keys[j] == y;
      assert somes[j] == x;
    }
    SameSizeSubset(img, somes);
    forall y | y in p ensures Some(y) in img {
      assert y in keys;
      var j :| 0 <= j < |keys| && keys[j] == y;
      assert somes[j] == Some(y);
    }
  }

  /** A bijection is onto its key set: every key is somebody's image. */
  lemma Surjective(p: Permutation, keys: seq<int>)
    requires IsBijection(p) && Enumerates(keys, p)
    ensures forall y :: y in p ==> exists k :: k in p && p[k] == Some(y)
  {
    ImagesAreKeys(p, keys);
    var img := Images(p, keys);
    forall y | y in p ensures exists k :: k in p && p[k] == Some(y) {
      assert Some(y) in img;
      var i :| 0 <= i < |img| && img[i] == Some(y);
      var k := keys[i];
      assert k in p && p[k] == Some(y);
    }
  }

  /** The inverse of an injective map sends each value back to its key. */
  lemma InverseUndoes(p: Permutation, keys: seq<int>)
    requires IsBijection(p) && Enumerates(keys, p)
    ensures forall k :: k in p ==> p[k].value in Inverse(p, keys) && Inverse(p, keys)[p[k].value] == Some(k)
  {
    var q := Inverse(p, keys);
    forall k | k in p ensures p[k].value in q && q[p[k].value] == Some(k) {
      assert p[k].Some?;
      var v := p[k].value;
      assert k in keys;
      var i :| 0 <= i < |keys| && keys[i] == k;
      assert v in q;
      var k' := q[v].value;
      assert k' in p && p[k'] == Some(v);
      assert At(p, k') == At(p, k);
    }
  }

  /** The inverse of a bijection has the same keys. */
  lemma InverseKeys(p: Permutation, keys: seq<int>)
    requires IsBijection(p) && Enumerates(keys, p)
    ensures Inverse(p, keys).Keys == p.Keys
  {
    var q := Inverse(p, keys);
    InverseUndoes(p, keys);
    Surjective(p, keys);
    forall y | y in p ensures y in q {
      var k :| k in p && p[k] == Some(y);
      assert p[k].value == y;
    }
    forall y | y in q ensures y in p {
      var k := q[y].value;
      assert k in p && p[k] == Some(y);
      assert p[k].value in p;
    }
  }

  /** The inverse of a bijection is a bijection on the same keys that undoes it. */
  lemma InverseOfBijection(p: Permutation, keys: seq<int>)
    requires IsBijection(p) && Enumerates(keys, p)
    ensures var q := Inverse(p, keys);
      && q.Keys == p.Keys && IsBijection(q)
      && (forall k :: k in p ==> q[p[k].value] == Some(k))
  {
    var q := Inverse(p, keys);
    InverseUndoes(p, keys);
    InverseKeys(p, keys);
    forall k | k in q ensures q[k].Some? && q[k].value in q {
    }
    forall a, b | a in q && b in q && At(q, a) == At(q, b) ensures a == b {
      assert p[q[a].value] == Some(a);
    }
  }

  /** For a bijection, p.mul(p.inverse()) and p.inverse().mul(p) are the identity on
      p's keys. */
  lemma MulInverseIdentity(p: Permutation, keys: seq<int>)
    requires IsBijection(p) && Enumerates(keys, p)
    ensures var q := Inverse(p, keys);
      IsIdentity(Mul(p, q)) && IsIdentity(Mul(q, p)) && Mul(p, q).Keys == p.Keys
  {
    InverseOfBijection(p, keys);
  }

  /** p^j(x): j applications of a bijection to one of its keys. */
  function Apply(p: Permutation, j: nat, x: int): (y: int)
    requires IsBijection(p) && x in p
    ensures y in p
  {
    if j == 0 then x else p[Apply(p, j - 1, x)].value
  }

  /** The permutation `order` and `orbit` hold after j - 1 multiplications by p. */
  function Power(p: Permutation, j: nat): (r: Permutation)
    requires j >= 1
    ensures r.Keys == p.Keys
  {
    if j == 1 then p else Mul(Power(p, j - 1), p)
  }

  /** The j-th power of a bijection maps each key x to p^j(x). */
  lemma {:induction false} PowerApply(p: Permutation, j: nat, x: int)
    requires IsBijection(p) && x in p && j >= 1
    ensures Power(p, j)[x] == Some(Apply(p, j, x))
  {
    if j > 1 {
      PowerApply(p, j - 1, x);
    }
  }

  /** One more application is one more lookup. */
  lemma ApplyStep(p: Permutation, n: nat, x: int)
    requires IsBijection(p) && x in p
    ensures Apply(p, n + 1, x) == p[Apply(p, n, x)].value
  {
  }

  /** Applying a + b times is applying a times, then b times. */
  lemma {:induction false} ApplyAdd(p: Permutation, a: nat, b: nat, x: int)
    requires IsBijection(p) && x in p
    ensures Apply(p, a + b, x) == Apply(p, b, Apply(p, a, x))
  {
    if b > 0 {
      ApplyAdd(p, a, b - 1, x);
    }
  }

  /** Injectivity lets a common number of steps be cancelled. */
  lemma {:induction false} Cancel(p: Permutation, x: int, i: nat, j: nat)
    requires IsBijection(p) && x in p && i <= j && Apply(p, i, x) == Apply(p, j, x)
    ensures Apply(p, j - i, x) == x
  {
    if i > 0 {
      assert At(p, Apply(p, i - 1, x)) == At(p, Apply(p, j - 1, x));
      Cancel(p, x, i - 1, j - 1);
    }
  }

  /** x, p(x), ..., p^(n-1)(x). */
  function Iterates(p: Permutation, x: int, n: nat): (r: seq<int>)
    requires IsBijection(p) && x in p
    ensures |r| == n && forall i :: 0 <= i < n ==> r[i] == Apply(p, i, x)
  {
    if n == 0 then [] else Iterates(p, x, n - 1) + [Apply(p, n - 1, x)]
  }

  /** Every key returns to itself within as many steps as there are keys. */
  lemma Period(p: Permutation, x: int) returns (r: nat)
    requires IsBijection(p) && x in p
    ensures 1 <= r <= |p.Keys| && Apply(p, r, x) == x
  {
    var s := Iterates(p, x, |p.Keys| + 1);
    Pigeonhole(s, p.Keys);
    var i, j :| 0 <= i < j < |s| && s[i] == s[j];
    Cancel(p, x, i, j);
    r := j - i;
  }

  /** Once x is back after r steps, it is back after every multiple of r. */
  lemma {:induction false} ApplyMultiple(p: Permutation, r: nat, q: nat, x: int)
    requires IsBijection(p) && x in p && Apply(p, r, x) == x
    ensures Apply(p, r * q, x) == x
  {
    if q > 0 {
      ApplyMultiple(p, r, q - 1, x);
      ApplyAdd(p, r * (q - 1), r, x);
      assert r * (q - 1) + r == r * q;
    }
  }

  function Factorial(n: nat): (f: nat)
    ensures f >= 1
  {
    if n == 0 then 1 else n * Factorial(n - 1)
  }

  /** Every number from 1 to n divides n!. */
  lemma {:induction false} DividesFactorial(n: nat, r: nat) returns (q: nat)
    requires 1 <= r <= n
    ensures Factorial(n) == r * q
  {
    if r == n {
      q := Factorial(n - 1);
    } else {
      var q0 := DividesFactorial(n - 1, r);
      q := n * q0;
      calc {
        Factorial(n);
        n * Factorial(n - 1);
        n * (r * q0);
        r * (n * q0);
      }
    }
  }

  /** Some positive power of a bijection is the identity, so `order` terminates. */
  lemma IdentityPower(p: Permutation) returns (n: nat)
    requires IsBijection(p)
    ensures n == Factorial(|p.Keys|) && n >= 1 && IsIdentity(Power(p, n))
  {
    n := Factorial(|p.Keys|);
    forall x | x in p ensures Power(p, n)[x] == Some(x) {
      var r := Period(p, x);
      var q := DividesFactorial(|p.Keys|, r);
      ApplyMultiple(p, r, q, x);
      PowerApply(p, n, x);
    }
  }

  /** A bound on the search for the first identity power of a bijection: every power up
      to it that is not the identity comes before it. */
  lemma IdentityPowerBound(p: Permutation) returns (bound: nat)
    requires IsBijection(p)
    ensures bound >= 1
    ensures forall k {:trigger IsIdentity(Power(p, k))} :: 1 <= k <= bound && !IsIdentity(Power(p, k)) ==> k < bound
  {
    bound := IdentityPower(p);
  }

  /** order(): the least positive power of p that is the identity. A map that is not a
      bijection can make the loop run forever; the model asks for a bijection. */
  method Order(p: Permutation) returns (order: int)
    requires IsBijection(p)
    ensures order >= 1 && IsIdentity(Power(p, order))
    ensures forall j {:trigger IsIdentity(Power(p, j))} :: 1 <= j < order ==> !IsIdentity(Power(p, j))
  {
    ghost var bound := IdentityPowerBound(p);
    order := 1;
    var result := p;
    while !IsIdentity(result)
      invariant 1 <= order <= bound
      invariant result == Power(p, order)
      invariant NoIdentityBelow(p, order)
      decreases bound - order
    {
      PowerStep(p, order);
      result := Mul(result, p);
      order := order + 1;
    }
    NoIdentityBelowAll(p, order);
  }

  /** The next power is one more multiplication by p. */
  lemma PowerStep(p: Permutation, n: nat)
    requires n >= 1
    ensures Power(p, n + 1) == Mul(Power(p, n), p)
  {
  }

  /** No power of p below the n-th is the identity. */
  ghost predicate NoIdentityBelow(p: Permutation, n: nat)
  {
    n <= 1 || (!IsIdentity(Power(p, n - 1)) && NoIdentityBelow(p, n - 1))
  }

  lemma {:induction false} NoIdentityBelowAll(p: Permutation, n: nat)
    requires NoIdentityBelow(p, n)
    ensures forall j {:trigger IsIdentity(Power(p, j))} :: 1 <= j < n ==> !IsIdentity(Power(p, j))
  {
    if n > 1 {
      NoIdentityBelowAll(p, n - 1);
      var last := Power(p, n - 1);
      assert !IsIdentity(last);
      forall j | 1 <= j < n ensures !IsIdentity(Power(p, j)) {
        if j == n - 1 {
          assert Power(p, j) == last;
        }
      }
    }
  }

  /** A cycle of p: distinct keys, each mapped to the next and the last to the first. */
  predicate IsCycle(p: Permutation, c: seq<int>)
  {
    && c != []
    && NoDuplicates(c)
    && (forall i :: 0 <= i < |c| ==> c[i] in p)
    && (forall i {:trigger p[c[i]]} :: 0 <= i < |c| - 1 ==> p[c[i]] == Some(c[i + 1]))
    && p[c[|c| - 1]] == Some(c[0])
  }

  /** Every element of a cycle stays in it under any number of steps. */
  lemma {:induction false} CycleClosed(p: Permutation, c: seq<int>, y: int, s: nat)
    requires IsBijection(p) && IsCycle(p, c) && y in c
    ensures Apply(p, s, y) in c
  {
    if s > 0 {
      CycleClosed(p, c, y, s - 1);
      var z := Apply(p, s - 1, y);
      var i :| 0 <= i < |c| && c[i] == z;
      if i < |c| - 1 {
        assert p[c[i]] == Some(c[i + 1]);
      }
    }
  }

  /** The orbit of x, its first n images, as a cycle once it returns at step n and not
      before. */
  lemma OrbitIsCycle(p: Permutation, x: int, c: seq<int>)
    requires IsBijection(p) && x in p && c != []
    requires forall t :: 0 <= t < |c| ==> c[t] == Apply(p, t, x)
    requires forall t :: 1 <= t < |c| ==> Apply(p, t, x) != x
    requires Apply(p, |c|, x) == x
    ensures IsCycle(p, c)
  {
    forall a, b | 0 <= a < b < |c| ensures c[a] != c[b] {
      if c[a] == c[b] {
        Cancel(p, x, a, b);
      }
    }
    forall i | 0 <= i < |c| - 1 ensures p[c[i]] == Some(c[i + 1]) {
      assert c[i + 1] == Apply(p, i + 1, x);
    }
    assert p[c[|c| - 1]] == Some(Apply(p, |c|, x));
  }

  /** After t steps, n - t more steps lead back to a start that returns after n. */
  lemma ReturnTo(p: Permutation, x: int, t: nat, n: nat)
    requires IsBijection(p) && x in p && t <= n && Apply(p, n, x) == x
    ensures Apply(p, n - t, Apply(p, t, x)) == x
  {
    ApplyAdd(p, t, n - t, x);
  }

  /** A cycle that holds the t-th image of a start returning after n steps holds the
      start. */
  lemma CycleHoldsStart(p: Permutation, d: seq<int>, x: int, t: nat, n: nat)
    requires IsBijection(p) && x in p && IsCycle(p, d)
    requires t <= n && Apply(p, n, x) == x && Apply(p, t, x) in d
    ensures x in d
  {
    CycleClosed(p, d, Apply(p, t, x), n - t);
    ReturnTo(p, x, t, n);
  }

  /** If an orbit meets an existing cycle, its start lies in that cycle too. */
  lemma OrbitMeets(p: Permutation, cs: seq<seq<int>>, x: int, c: seq<int>)
    requires IsBijection(p) && x in p
    requires forall d :: d in cs ==> IsCycle(p, d)
    requires forall t :: 0 <= t < |c| ==> c[t] == Apply(p, t, x)
    requires Apply(p, |c|, x) == x
    ensures forall y :: y in c && y in Flatten(cs) ==> x in Flatten(cs)
  {
    forall y | y in c && y in Flatten(cs) ensures x in Flatten(cs) {
      var t :| 0 <= t < |c| && c[t] == y;
      var d := FlattenMember(cs, y);
      CycleHoldsStart(p, d, x, t, |c|);
      FlattenHas(cs, d, x);
    }
  }

  /** Two lists without repeats and without a common element concatenate to a list
      without repeats. */
  lemma NoDuplicatesConcat(a: seq<int>, b: seq<int>)
    requires NoDuplicates(a) && NoDuplicates(b)
    requires forall y :: y in b ==> y !in a
    ensures NoDuplicates(a + b)
  {
    forall i, j | 0 <= i < j < |a + b| ensures (a + b)[i] != (a + b)[j] {
      if j < |a| {
        assert (a + b)[i] == a[i] && (a + b)[j] == a[j];
      } else if i < |a| {
        assert (a + b)[i] == a[i] && (a + b)[j] == b[j - |a|];
        assert b[j - |a|] in b;
      } else {
        assert (a + b)[i] == b[i - |a|] && (a + b)[j] == b[j - |a|];
      }
    }
  }

  /** What the cycles found so far satisfy after the keys in `done` are visited: each
      is a cycle of p, no key appears twice, every visited key is in one of them, and
      every cycle was started at a visited key. */
  ghost predicate CyclesSoFar(p: Permutation, ret: seq<seq<int>>, done: seq<int>, starts: seq<int>)
  {
    && (forall c :: c in ret ==> IsCycle(p, c))
    && NoDuplicates(Flatten(ret))
    && (forall x :: x in Flatten(ret) ==> x in p)
    && (forall x :: x in done ==> x in Flatten(ret))
    && (forall x :: x in starts ==> x in done)
  }

  /** Appending the orbit of a key that no cycle holds yet keeps CyclesSoFar. */
  lemma AddCycle(p: Permutation, ret: seq<seq<int>>, done: seq<int>, starts: seq<int>, key: int, cycle: seq<int>)
    requires IsBijection(p) && key in p
    requires CyclesSoFar(p, ret, done, starts) && key !in Flatten(ret)
    requires cycle != [] && forall t {:trigger cycle[t]} :: 0 <= t < |cycle| ==> cycle[t] == Apply(p, t, key)
    requires forall t :: 1 <= t < |cycle| ==> cycle[t] != key
    requires Apply(p, |cycle|, key) == key
    ensures Flatten(ret + [cycle]) == Flatten(ret) + cycle
    ensures CyclesSoFar(p, ret + [cycle], done + [key], starts + [key])
  {
    forall t | 1 <= t < |cycle| ensures Apply(p, t, key) != key {
      assert cycle[t] != key;
    }
    assert (ret + [cycle])[..|ret|] == ret;
    OrbitIsCycle(p, key, cycle);
    OrbitMeets(p, ret, key, cycle);
    NoDuplicatesConcat(Flatten(ret), cycle);
    forall x | x in done + [key] ensures x in Flatten(ret) + cycle {
      if x == key {
        assert cycle[0] == key;
      }
    }
  }

  /** Visiting a key some cycle already holds keeps CyclesSoFar. */
  lemma SkipKey(p: Permutation, ret: seq<seq<int>>, done: seq<int>, starts: seq<int>, key: int)
    requires CyclesSoFar(p, ret, done, starts) && key in Flatten(ret)
    ensures CyclesSoFar(p, ret, done + [key], starts)
  {
  }

  /** The inner loop of cyclicRepresenatation: the orbit of key, followed until it
      returns, every element after the first also added to `covered`. */
  method FollowCycle(p: Permutation, key: int, covered: seq<int>) returns (cycle: seq<int>, newCovered: seq<int>)
    requires IsBijection(p) && key in p
    ensures cycle != [] && Apply(p, |cycle|, key) == key
    ensures forall t {:trigger cycle[t]} :: 0 <= t < |cycle| ==> cycle[t] == Apply(p, t, key)
    ensures forall t :: 1 <= t < |cycle| ==> cycle[t] != key
    ensures newCovered == covered + cycle[1..]
  {
    cycle := [key];
    newCovered := covered;
    var next := p[key].value;
    ghost var r := Period(p, key);
    while next != key
      invariant 1 <= |cycle| <= r
      invariant forall t {:trigger cycle[t]} :: 0 <= t < |cycle| ==> cycle[t] == Apply(p, t, key)
      invariant next == Apply(p, |cycle|, key)
      invariant forall t :: 1 <= t < |cycle| ==> cycle[t] != key
      invariant newCovered == covered + cycle[1..]
      decreases r - |cycle|
    {
      ApplyStep(p, |cycle|, key);
      cycle := cycle + [next];
      newCovered := newCovered + [next];
      next := p[next].value;
    }
  }

  /** cyclicRepresenatation: walking the keys in iteration order, every key not yet
      covered starts a cycle that follows p until it returns. The cycles partition the
      key set: every key lies in exactly one cycle, once. */
  method CyclicRepresentation(p: Permutation, keys: seq<int>) returns (ret: seq<seq<int>>)
    requires IsBijection(p) && Enumerates(keys, p)
    ensures forall c :: c in ret ==> IsCycle(p, c)
    ensures NoDuplicates(Flatten(ret))
    ensures forall x :: x in Flatten(ret) <==> x in p
  {
    ret := [];
    var covered: seq<int> := [];
    ghost var starts: seq<int> := [];
    for i := 0 to |keys|
      invariant CyclesSoFar(p, ret, keys[..i], starts)
      invariant forall x :: x in Flatten(ret) ==> x in covered || x in starts
      invariant forall x :: x in covered ==> x in Flatten(ret)
    {
      var key := keys[i];
      assert keys[..i + 1] == keys[..i] + [key];
      assert key !in starts by {
        forall j | 0 <= j < i ensures keys[j] != key {
        }
      }
      if key in covered {
        SkipKey(p, ret, keys[..i], starts, key);
        continue;
      }
      assert key in p && key !in Flatten(ret);
      ghost var before := covered;
      var cycle;
      cycle, covered := FollowCycle(p, key, covered);
      forall x | x in cycle ensures x == key || x in covered {
        var t :| 0 <= t < |cycle| && cycle[t] == x;
        if t > 0 {
          assert cycle[1..][t - 1] == x;
        }
      }
      forall x | x in covered ensures x in Flatten(ret) || x in cycle {
        if x !in before {
          var t :| 0 <= t < |cycle[1..]| && cycle[1..][t] == x;
          assert cycle[t + 1] == x;
        }
      }
      AddCycle(p, ret, keys[..i], starts, key, cycle);
      ghost var prev := Flatten(ret);
      ghost var prevStarts := starts;
      ret := ret + [cycle];
      starts := starts + [key];
      forall x | x in prev + cycle ensures x in covered || x in starts {
        if x in cycle {
          if x == key {
            assert starts[|starts| - 1] == key;
          } else {
            assert x in covered;
          }
        } else {
          assert x in prev;
          assert x in covered || x in prevStarts;
        }
      }
    }
    assert keys[..|keys|] == keys;
  }

  /** fix(): the keys mapped to themselves, in iteration order. */
  function Fix(p: Permutation, keys: seq<int>): (r: seq<int>)
    requires InDomain(keys, p)
    ensures forall k :: k in r <==> k in keys && Get(p, k) == Some(k)
    ensures NoDuplicates(keys) ==> NoDuplicates(r)
    ensures |r| <= |keys|
  {
    if keys == [] then []
    else
      var k := keys[|keys| - 1];
      var r := Fix(p, keys[..|keys| - 1]);
      assert NoDuplicates(keys) ==> k !in r && NoDuplicates(keys[..|keys| - 1]) by {
        if NoDuplicates(keys) {
          NoDuplicatesPrefix(keys);
        }
      }
      if p[k] == Some(k) then r + [k] else r
  }

  /** Every listed key is mapped to itself. */
  ghost predicate AllFixed(p: Permutation, keys: seq<int>)
    requires InDomain(keys, p)
  {
    forall i :: 0 <= i < |keys| ==> p[keys[i]] == Some(keys[i])
  }

  lemma AllFixedSplit(p: Permutation, keys: seq<int>)
    requires InDomain(keys, p) && keys != []
    ensures InDomain(keys[..|keys| - 1], p)
    ensures AllFixed(p, keys) <==> AllFixed(p, keys[..|keys| - 1]) && p[keys[|keys| - 1]] == Some(keys[|keys| - 1])
  {
    var pre := keys[..|keys| - 1];
    forall i | 0 <= i < |pre| ensures pre[i] == keys[i] && pre[i] in p {
      assert keys[i] in p;
    }
  }

  /** fix() lists every key exactly when every key is mapped to itself. */
  lemma {:induction false} FixAll(p: Permutation, keys: seq<int>)
    requires InDomain(keys, p)
    ensures AllFixed(p, keys) <==> Fix(p, keys) == keys
  {
    if keys != [] {
      var n := |keys| - 1;
      var pre := keys[..n];
      var k := keys[n];
      AllFixedSplit(p, keys);
      FixAll(p, pre);
      assert keys == pre + [k];
      var r := Fix(p, pre);
      if p[k] == Some(k) {
        assert Fix(p, keys) == r + [k];
        assert r + [k] == pre + [k] <==> r == pre;
      } else {
        assert Fix(p, keys) == r;
        assert |r| <= |pre| < |keys|;
      }
    }
  }

  /** isIdentityPermutation holds exactly when fix() returns every key. */
  lemma IdentityIffFixAll(p: Permutation, keys: seq<int>)
    requires Enumerates(keys, p)
    ensures IsIdentity(p) <==> Fix(p, keys) == keys
  {
    FixAll(p, keys);
    if IsIdentity(p) {
      forall i | 0 <= i < |keys| ensures p[keys[i]] == Some(keys[i]) {
        var k := keys[i];
        assert k in p;
        assert p[k] == Some(k);
      }
      assert AllFixed(p, keys);
    }
    if AllFixed(p, keys) {
      forall k | k in p ensures p[k] == Some(k) {
        assert k in keys;
        var i :| 0 <= i < |keys| && keys[i] == k;
        assert p[keys[i]] == Some(keys[i]);
      }
    }
  }

  /** orbit(u): u, then the images of u under p, p^2, ..., one entry per unit of the
      order. */
  method Orbit(p: Permutation, u: int) returns (ret: seq<Option<int>>)
    requires IsBijection(p)
    ensures |ret| >= 1 && IsIdentity(Power(p, |ret|))
    ensures forall j {:trigger IsIdentity(Power(p, j))} :: 1 <= j < |ret| ==> !IsIdentity(Power(p, j))
    ensures ret[0] == Some(u)
    ensures forall i :: 1 <= i < |ret| ==> ret[i] == Get(Power(p, i), u)
  {
    var k := Order(p);
    ret := OrbitImages(p, u, k);
  }

  /** The loop of orbit(u): k entries, u first, then the image of u under the i-th
      power, the power kept in `degree` and multiplied by p once per entry from the
      third on. */
  method OrbitImages(p: Permutation, u: int, k: nat) returns (ret: seq<Option<int>>)
    ensures |ret| == k
    ensures k >= 1 ==> ret[0] == Some(u)
    ensures forall i :: 1 <= i < |ret| ==> ret[i] == Get(Power(p, i), u)
  {
    ret := [];
    var degree := p;
    ghost var d := 1;
    var i := 0;
    while i < k
      invariant 0 <= i <= k
      invariant |ret| == i
      invariant d == (if i <= 2 then 1 else i - 1) && degree == Power(p, d)
      invariant i >= 1 ==> ret[0] == Some(u)
      invariant forall j {:trigger ret[j]} :: 1 <= j < i ==> ret[j] == Get(Power(p, j), u)
    {
      if i == 0 {
        ret := ret + [Some(u)];
      } else if i == 1 {
        ret := ret + [Get(p, u)];
      } else {
        PowerStep(p, d);
        degree := Mul(degree, p);
        d := d + 1;
        ret := ret + [Get(degree, u)];
      }
      i := i + 1;
    }
  }

  /** For a key u, the orbit lists u's images p^i(u) in order and comes back to u after
      the last entry. */
  lemma OrbitOfKey(p: Permutation, u: int, ret: seq<Option<int>>)
    requires IsBijection(p) && u in p && |ret| >= 1 && IsIdentity(Power(p, |ret|))
    requires ret[0] == Some(u)
    requires forall i :: 1 <= i < |ret| ==> ret[i] == Get(Power(p, i), u)
    ensures forall i :: 0 <= i < |ret| ==> ret[i] == Some(Apply(p, i, u))
    ensures Apply(p, |ret|, u) == u
  {
    forall i | 1 <= i < |ret| ensures ret[i] == Some(Apply(p, i, u)) {
      PowerApply(p, i, u);
    }
    PowerApply(p, |ret|, u);
  }

  /** equals: the same number of keys, and every key of this one is in the other with
      the same value. */
  predicate Equals(p: Permutation, other: Permutation)
  {
    && |other| == |p|
    && (forall k :: k in p ==> k in other && other[k] == p[k])
  }

  /** equals holds exactly when the two maps are the same. */
  lemma EqualsIff(p: Permutation, other: Permutation)
    ensures Equals(p, other) <==> p == other
  {
    if Equals(p, other) {
      EqualsSame(p, other);
    }
  }

  lemma EqualsSame(p: Permutation, other: Permutation)
    requires Equals(p, other)
    ensures p == other
  {
    var a := p.Keys;
    var b := other.Keys;
    assert a <= b by {
      forall k | k in a ensures k in b {
        assert k in p;
      }
    }
    assert b == a + (b - a);
    assert |a| == |p| && |b| == |other|;
    assert |b - a| == 0;
    assert a == b;
    forall k | k in other ensures k in p && p[k] == other[k] {
      assert k in a;
    }
  }
}
