/** Ordered partitions used by the graph labelling algorithm
    (GraphDrawingTheory/src/graph/symmetry/nauty/OrderedPartition.java).

    A part is a list of vertices; the partition is the list of its parts, updated in
    place. Parts are compared by value, as `List.equals` and `indexOf` compare them. */
module OrderedPartitions {
  import opened Wrappers
  import opened GraphElements

  type Part = seq<Vertex>

  /** The position of the first part equal to vi (indexOf), None for -1. */
  function IndexOf(parts: seq<Part>, vi: Part): (r: Option<nat>)
    ensures r.None? <==> vi !in parts
    ensures r.Some? ==>
      (r.value < |parts| && parts[r.value] == vi && forall j :: 0 <= j < r.value ==> parts[j] != vi)
  {
    if parts == [] then None
    else if parts[0] == vi then Some(0)
    else match IndexOf(parts[1..], vi)
      case None => None
      case Some(k) => Some(k + 1)
  }

  /** The position of the first part containing u, None when no part contains it. */
  function FirstContaining(parts: seq<Part>, u: Vertex): (r: Option<nat>)
    ensures r.None? <==> forall j :: 0 <= j < |parts| ==> u !in parts[j]
    ensures r.Some? ==>
      (r.value < |parts| && u in parts[r.value] && forall j :: 0 <= j < r.value ==> u !in parts[j])
  {
    if parts == [] then None
    else if u in parts[0] then Some(0)
    else match FirstContaining(parts[1..], u)
      case None => None
      case Some(k) => Some(k + 1)
  }

  /** The position of the first part with more than one vertex, None when every part
      is trivial. */
  function FirstNontrivial(parts: seq<Part>): (r: Option<nat>)
    ensures r.None? <==> forall j :: 0 <= j < |parts| ==> |parts[j]| <= 1
    ensures r.Some? ==>
      (r.value < |parts| && |parts[r.value]| > 1 && forall j :: 0 <= j < r.value ==> |parts[j]| <= 1)
  {
    if parts == [] then None
    else if |parts[0]| > 1 then Some(0)
    else match FirstNontrivial(parts[1..])
      case None => None
      case Some(k) => Some(k + 1)
  }

  /** Replacing the part at i by the list rs of parts. */
  function Replaced(parts: seq<Part>, i: nat, rs: seq<Part>): seq<Part>
    requires i < |parts|
  {
    parts[..i] + rs + parts[i + 1..]
  }

  /** The replacement changes the number of parts by |rs| - 1, puts rs at position i
      and keeps the parts before and after in their order. */
  lemma ReplacedShape(parts: seq<Part>, i: nat, rs: seq<Part>)
    requires i < |parts|
    ensures var r := Replaced(parts, i, rs);
      && |r| == |parts| + |rs| - 1
      && r[..i] == parts[..i]
      && r[i..i + |rs|] == rs
      && r[i + |rs|..] == parts[i + 1..]
  {
    var r := Replaced(parts, i, rs);
    assert r[..i] == parts[..i];
    assert r[i..i + |rs|] == rs;
    assert r[i + |rs|..] == parts[i + 1..];
  }

  /** Flattening distributes over concatenation. */
  lemma {:induction false} FlattenAppend<T>(a: seq<seq<T>>, b: seq<seq<T>>)
    ensures Flatten(a + b) == Flatten(a) + Flatten(b)
    decreases |b|
  {
    if b == [] {
      assert a + b == a;
    } else {
      var n := |b| - 1;
      assert (a + b)[..|a + b| - 1] == a + b[..n];
      FlattenAppend(a, b[..n]);
    }
  }

  /** Replacing a part by parts that hold the same vertices, in the same order, keeps
      the vertex order of the whole partition. */
  lemma ReplacedVertices(parts: seq<Part>, i: nat, rs: seq<Part>)
    requires i < |parts|
    ensures Flatten(Replaced(parts, i, rs))
      == Flatten(parts[..i]) + Flatten(rs) + Flatten(parts[i + 1..])
    ensures Flatten(rs) == parts[i] ==> Flatten(Replaced(parts, i, rs)) == Flatten(parts)
  {
    FlattenAppend(parts[..i] + rs, parts[i + 1..]);
    FlattenAppend(parts[..i], rs);
    assert parts == parts[..i] + [parts[i]] + parts[i + 1..];
    FlattenAppend(parts[..i] + [parts[i]], parts[i + 1..]);
    FlattenAppend(parts[..i], [parts[i]]);
    assert Flatten([parts[i]]) == Flatten([parts[i]][..0]) + parts[i];
  }

  /** The ordered partition: a list of parts, changed in place. */
  class OrderedPartition {
    var partition: seq<Part>

    /** OrderedPartition(): no parts. */
    constructor Empty()
      ensures partition == []
    {
      partition := [];
    }

    /** OrderedPartition(List<V>...) and OrderedPartition(List<List<V>>): the given parts,
        in order, in a list of the partition's own. */
    constructor FromParts(parts: seq<Part>)
      ensures partition == parts
    {
      partition := [];
      new;
      var k := 0;
      while k < |parts|
        invariant 0 <= k <= |parts|
        invariant partition == parts[..k]
      {
        partition := partition + [parts[k]];
        k := k + 1;
      }
    }

    /** replace(Vi, replacements): removes the first part equal to Vi and inserts the
        replacements at its position, last one first. When Vi is not a part, `indexOf`
        gives -1 and `remove(-1)` throws: the result is then false and nothing changes. */
    method Replace(vi: Part, replacements: seq<Part>) returns (found: bool)
      modifies this
      ensures found <==> vi in old(partition)
      ensures !found ==> partition == old(partition)
      ensures found ==> partition == Replaced(old(partition), IndexOf(old(partition), vi).value, replacements)
    {
      var index := IndexOf(partition, vi);
      if index.None? {
        return false;
      }
      var i := index.value;
      ghost var before := partition;
      InsertBounds(before, i, replacements);
      partition := partition[..i] + partition[i + 1..];
      var j := |replacements| - 1;
      while j >= 0
        invariant -1 <= j < |replacements|
        invariant partition == before[..i] + replacements[j + 1..] + before[i + 1..]
      {
        InsertStep(before, i, replacements, j);
        partition := partition[..i] + [replacements[j]] + partition[i..];
        j := j - 1;
      }
      return true;
    }

    /** partContainingVertex(u): the first part containing u, or None (null). */
    method PartContainingVertex(u: Vertex) returns (r: Option<Part>)
      ensures r == (match FirstContaining(partition, u)
        case None => None
        case Some(k) => Some(partition[k]))
    {
      var k := 0;
      while k < |partition|
        invariant 0 <= k <= |partition|
        invariant forall j :: 0 <= j < k ==> u !in partition[j]
      {
        if u in partition[k] {
          FirstIs(partition, u, k);
          return Some(partition[k]);
        }
        k := k + 1;
      }
      return None;
    }

    /** getFirstNontrivialPart: the first part with more than one vertex, or None. */
    method FirstNontrivialPart() returns (r: Option<Part>)
      ensures r == (match FirstNontrivial(partition)
        case None => None
        case Some(k) => Some(partition[k]))
    {
      var k := 0;
      while k < |partition|
        invariant 0 <= k <= |partition|
        invariant forall j :: 0 <= j < k ==> |partition[j]| <= 1
      {
        if |partition[k]| > 1 {
          FirstNontrivialIs(partition, k);
          return Some(partition[k]);
        }
        k := k + 1;
      }
      return None;
    }

    /** getVerticesInOrder: the parts laid end to end. */
    method VerticesInOrder() returns (ret: seq<Vertex>)
      ensures ret == Flatten(partition)
    {
      ret := [];
      var k := 0;
      while k < |partition|
        invariant 0 <= k <= |partition|
        invariant ret == Flatten(partition[..k])
      {
        assert partition[..k + 1][..k] == partition[..k];
        ret := ret + partition[k];
        k := k + 1;
      }
      assert partition[..k] == partition;
    }

    /** addPart: appends a part. */
    method AddPart(part: Part)
      modifies this
      ensures partition == old(partition) + [part]
    {
      partition := partition + [part];
    }
  }

  /** The loop of replace starts with none of the replacements inserted and ends with
      all of them. */
  lemma InsertBounds<T>(b: seq<T>, i: nat, rs: seq<T>)
    requires i < |b|
    ensures b[..i] + b[i + 1..] == b[..i] + rs[|rs|..] + b[i + 1..]
    ensures b[..i] + rs[0..] + b[i + 1..] == b[..i] + rs + b[i + 1..]
  {
    assert rs[|rs|..] == [];
    assert rs[0..] == rs;
  }

  /** Inserting the replacement at j in front of the ones after it, at position i. */
  lemma InsertStep<T>(b: seq<T>, i: nat, rs: seq<T>, j: nat)
    requires i < |b| && j < |rs|
    ensures var p := b[..i] + rs[j + 1..] + b[i + 1..];
      p[..i] + [rs[j]] + p[i..] == b[..i] + rs[j..] + b[i + 1..]
  {
    var p := b[..i] + rs[j + 1..] + b[i + 1..];
    assert p[..i] == b[..i];
    assert p[i..] == rs[j + 1..] + b[i + 1..];
    assert rs[j..] == [rs[j]] + rs[j + 1..];
  }

  /** The first position satisfying the search is the one the search returns. */
  lemma FirstIs(parts: seq<Part>, u: Vertex, k: nat)
    requires k < |parts| && u in parts[k] && forall j :: 0 <= j < k ==> u !in parts[j]
    ensures FirstContaining(parts, u) == Some(k)
  {
    var r := FirstContaining(parts, u);
    assert r.Some?;
  }

  lemma FirstNontrivialIs(parts: seq<Part>, k: nat)
    requires k < |parts| && |parts[k]| > 1 && forall j :: 0 <= j < k ==> |parts[j]| <= 1
    ensures FirstNontrivial(parts) == Some(k)
  {
    var r := FirstNontrivial(parts);
    assert r.Some?;
  }

  /** A vertex is in the vertex order exactly when some part contains it. */
  lemma VerticesInOrderMembers(parts: seq<Part>, u: Vertex)
    ensures u in Flatten(parts) <==> FirstContaining(parts, u).Some?
  {
    if u in Flatten(parts) {
      var c := FlattenMember(parts, u);
    }
    if FirstContaining(parts, u).Some? {
      FlattenHas(parts, parts[FirstContaining(parts, u).value], u);
    }
  }
}
