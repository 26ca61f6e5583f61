/** Split pairs (GraphDrawingTheory/src/graph/properties/components/SplitPair.java).

    A split pair is a value: two vertices and a type. Vertex.java is not part of this
    model; vertices are compared by value, and their hash codes are an input. A null
    vertex (on which `equals` throws) is not modelled. */
module SplitPairs {
  import opened GraphElements

  /** A split pair (v, u) of the given type (1 or 2; 0 when not set). */
  datatype SplitPair = SplitPair(v: Vertex, u: Vertex, pairType: int)

  /** SplitPair(v, u): the type is left at Java's default 0. */
  function Make(v: Vertex, u: Vertex): (r: SplitPair)
    ensures r.v == v && r.u == u && r.pairType == 0
  {
    SplitPair(v, u, 0)
  }

  /** SplitPair(v, u, type). */
  function MakeTyped(v: Vertex, u: Vertex, pairType: int): (r: SplitPair)
    ensures r.v == v && r.u == u && r.pairType == pairType
  {
    SplitPair(v, u, pairType)
  }

  /** setV, setU, setType: replace one component, keep the others. */
  function SetV(p: SplitPair, v: Vertex): (r: SplitPair)
    ensures r.v == v && r.u == p.u && r.pairType == p.pairType
  {
    p.(v := v)
  }

  function SetU(p: SplitPair, u: Vertex): (r: SplitPair)
    ensures r.v == p.v && r.u == u && r.pairType == p.pairType
  {
    p.(u := u)
  }

  function SetType(p: SplitPair, pairType: int): (r: SplitPair)
    ensures r.v == p.v && r.u == p.u && r.pairType == pairType
  {
    p.(pairType := pairType)
  }

  /** `equals` as written: when the second vertices agree, compare the first ones;
      otherwise, when this pair's second vertex is the other's first, compare the first
      vertices again (instead of this first vertex with the other's second). */
  function EqualsAsWritten(p: SplitPair, other: SplitPair): bool
  {
    if p.u == other.u then p.v == other.v
    else if p.u == other.v then p.v == other.v
    else false
  }

  /** The intended equality: the same two vertices, in either order. */
  predicate SamePair(p: SplitPair, other: SplitPair)
  {
    (p.v == other.v && p.u == other.u) || (p.v == other.u && p.u == other.v)
  }

  /** As written, a pair equals another exactly when both components agree, or when
      this pair's two vertices are the other's first vertex (and the second vertices
      differ). */
  lemma EqualsAsWrittenMeaning(p: SplitPair, other: SplitPair)
    ensures EqualsAsWritten(p, other) <==>
      ((p.v == other.v && p.u == other.u) || (p.u != other.u && p.u == other.v && p.v == other.v))
  {
  }

  /** A pair equals itself, as written and as intended. */
  lemma EqualsReflexive(p: SplitPair)
    ensures EqualsAsWritten(p, p) && SamePair(p, p)
  {
  }

  /** As written, a swapped pair of two different vertices is not equal: (a, b) and
      (b, a) are different split pairs. */
  lemma SwappedPairNotEqual(a: Vertex, b: Vertex)
    requires a != b
    ensures !EqualsAsWritten(Make(a, b), Make(b, a))
    ensures SamePair(Make(a, b), Make(b, a))
  {
  }

  /** As written, (a, a) equals (a, b) for any b, and not the other way round: the
      relation is not symmetric. */
  lemma EqualsAsWrittenAsymmetric(a: Vertex, b: Vertex)
    requires a != b
    ensures EqualsAsWritten(Make(a, a), Make(a, b))
    ensures !EqualsAsWritten(Make(a, b), Make(a, a))
    ensures !SamePair(Make(a, a), Make(a, b))
  {
  }

  /** The intended equality ignores order and the type, and is an equivalence. */
  lemma SamePairIsEquivalence(p: SplitPair, q: SplitPair, r: SplitPair)
    ensures SamePair(p, q) <==> SamePair(q, p)
    ensures SamePair(p, q) && SamePair(q, r) ==> SamePair(p, r)
    ensures SamePair(p, Make(p.u, p.v))
  {
  }

  /** Java's int arithmetic: the value modulo 2^32, read as a signed number. */
  function Wrap32(x: int): (r: int)
    ensures -0x8000_0000 <= r < 0x8000_0000
    ensures (r - x) % 0x1_0000_0000 == 0
  {
    (x + 0x8000_0000) % 0x1_0000_0000 - 0x8000_0000
  }

  /** hashCode: 31 * (31 * 1 + hash(u)) + hash(v), in 32-bit arithmetic. */
  function HashCode(p: SplitPair, hash: Vertex -> int): (r: int)
    ensures -0x8000_0000 <= r < 0x8000_0000
    ensures (r - (961 + 31 * hash(p.u) + hash(p.v))) % 0x1_0000_0000 == 0
  {
    var result := Wrap32(31 * 1 + hash(p.u));
    WrapLinear(31 + hash(p.u), result, hash(p.v));
    Wrap32(31 * result + hash(p.v))
  }

  /** Multiplying by 31 and adding keeps a congruence modulo 2^32. */
  lemma WrapLinear(x: int, y: int, z: int)
    requires (y - x) % 0x1_0000_0000 == 0
    ensures ((31 * y + z) - (31 * x + z)) % 0x1_0000_0000 == 0
  {
    var k := (y - x) / 0x1_0000_0000;
    assert y - x == k * 0x1_0000_0000;
    assert (31 * y + z) - (31 * x + z) == (31 * k) * 0x1_0000_0000;
  }

  /** Pairs with the same components have the same hash code, whatever the type. */
  lemma HashIgnoresType(p: SplitPair, q: SplitPair, hash: Vertex -> int)
    requires p.v == q.v && p.u == q.u
    ensures HashCode(p, hash) == HashCode(q, hash)
  {
  }

  /** The hash code depends on the order: with vertex hashes 0 for a and 1 for b,
      (a, b) and (b, a) hash to 992 and 962. */
  lemma HashOrderDependent(a: Vertex, b: Vertex)
    requires a != b
    ensures var hash := (x: Vertex) => if x == a then 0 else 1;
      HashCode(Make(a, b), hash) == 992 && HashCode(Make(b, a), hash) == 962
  {
    var hash := (x: Vertex) => if x == a then 0 else 1;
    assert hash(a) == 0 && hash(b) == 1;
    assert Wrap32(32) == 32 && Wrap32(992) == 992;
    assert Wrap32(31) == 31 && Wrap32(962) == 962;
  }
}
