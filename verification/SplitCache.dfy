/** The split cache of the iterator (p4est3_iterate.c): a last-used entry and one small ring
    per level, both keyed by level and first index only. */
module SplitCache {
  import opened Quadrants
  import opened Subtrees

  datatype Entry = Entry(begin: int, splits: seq<int>)

  /** p4est3_tier_ring: a fixed number of slots, overwritten round robin. */
  datatype Ring = Ring(next: nat, entries: seq<Entry>) {
    ghost predicate Proper() {
      next < |entries|
    }
  }

  function NewRing(capacity: nat): (r: Ring)
    requires capacity > 0
    ensures r.Proper()
  {
    Ring(0, seq(capacity, _ => Entry(-1, [])))
  }

  method Lookup(ring: Ring, begin: int) returns (hit: int)
    requires ring.Proper()
    ensures -1 <= hit < |ring.entries|
    ensures hit >= 0 ==> ring.entries[hit].begin == begin
    ensures hit < 0 ==> forall i :: 0 <= i < |ring.entries| ==> ring.entries[i].begin != begin
  {
    var i := 0;
    while i < |ring.entries|
      invariant 0 <= i <= |ring.entries|
      invariant forall j :: 0 <= j < i ==> ring.entries[j].begin != begin
    {
      if ring.entries[i].begin == begin {
        return i;
      }
      i := i + 1;
    }
    hit := -1;
  }

  function Insert(ring: Ring, begin: int, splits: seq<int>): (r: Ring)
    requires ring.Proper()
    ensures r.Proper() && |r.entries| == |ring.entries|
    ensures r.entries[ring.next] == Entry(begin, splits)
    ensures forall i :: 0 <= i < |r.entries| && i != ring.next ==> r.entries[i] == ring.entries[i]
  {
    Ring((ring.next + 1) % |ring.entries|, ring.entries[ring.next := Entry(begin, splits)])
  }

  /** Every subtree of the level that starts at `begin` has these child offsets. */
  ghost predicate Right(c: Arity, quads: seq<Quad>, level: nat, begin: int, splits: seq<int>) {
    forall t: Tree, p: Quad :: begin >= 0 && |p| == level && t.Node? && Shape(c, t) && Holds(quads, begin, t, p) ==>
      splits == Splits(t)
  }

  /** One subtree settles the entry for all: level and begin determine the range. */
  lemma RightFor(c: Arity, quads: seq<Quad>, begin: nat, t: Tree, p: Quad)
    requires t.Node? && Shape(c, t) && Holds(quads, begin, t, p)
    ensures Right(c, quads, |p|, begin, Splits(t))
  {
    forall u: Tree, q: Quad | |q| == |p| && u.Node? && Shape(c, u) && Holds(quads, begin, u, q)
      ensures Splits(t) == Splits(u)
    {
      SameStartSameSubtree(c, quads, begin, t, p, u, q);
    }
  }

  class Cache {
    var lastLevel: int
    var lastBegin: int
    var lastResults: seq<int>
    var rings: seq<Ring>
    var splitsComputed: nat

    ghost predicate Valid(c: Arity, quads: seq<Quad>)
      reads this
    {
      && (lastLevel >= 0 ==> Right(c, quads, lastLevel, lastBegin, lastResults))
      && forall l :: 0 <= l < |rings| ==> RingRight(c, quads, l, rings[l])
    }

    constructor (c: Arity, ghost quads: seq<Quad>, maxLevel: nat)
      ensures Valid(c, quads) && |rings| == maxLevel
    {
      lastLevel, lastBegin, lastResults := -1, -1, [];
      rings := seq(maxLevel, _ => NewRing(2 * c));
      splitsComputed := 0;
    }

    /** The cached split of a complete subtree is always the split that sc3_array_split
        would compute, through all hits, insertions and evictions. */
    method Split(c: Arity, quads: seq<Quad>, level: nat, begin: nat, end: nat, ghost t: Tree, ghost p: Quad)
      returns (indices: seq<int>)
      requires Valid(c, quads) && level < |rings|
      requires Shape(c, t) && t.Node? && Holds(quads, begin, t, p) && |p| == level && end == begin + Count(t)
      modifies this
      ensures Valid(c, quads) && |rings| == old(|rings|)
      ensures forall k :: begin <= k < end ==> |quads[k]| > level
      ensures indices == SplitOf(c, quads[begin..end], level) == Splits(t)
    {
      hide Shape, Holds, Count, Splits, SplitOf, Leaves;
      SplitIsOffsets(c, quads, begin, t, p);
      RightFor(c, quads, begin, t, p);
      var rangeLen := end - begin;
      if rangeLen == c {
        CLeavesAreAFamily(c, t);
        indices := seq(c + 1, i => i);
        return;
      }
      if lastLevel == level && lastBegin == begin {
        indices := lastResults;
        RightAt(c, quads, begin, t, p, lastResults);
        return;
      }
      var ring := rings[level];
      assert RingRight(c, quads, level, ring);
      var hit := Lookup(ring, begin);
      if hit >= 0 {
        indices := ring.entries[hit].splits;
        RingRightAt(c, quads, ring, hit, begin, t, p);
        return;
      }
      splitsComputed := splitsComputed + 1;
      indices := SplitOf(c, quads[begin..end], level);
      lastLevel, lastBegin, lastResults := level, begin, indices;
      RingInsertRight(c, quads, level, ring, begin, indices);
      rings := rings[level := Insert(ring, begin, indices)];
    }
  }

  ghost predicate RingRight(c: Arity, quads: seq<Quad>, level: nat, ring: Ring) {
    ring.Proper() && forall i :: 0 <= i < |ring.entries| ==>
      Right(c, quads, level, ring.entries[i].begin, ring.entries[i].splits)
  }

  lemma RingInsertRight(c: Arity, quads: seq<Quad>, level: nat, ring: Ring, begin: nat, splits: seq<int>)
    requires RingRight(c, quads, level, ring) && Right(c, quads, level, begin, splits)
    ensures RingRight(c, quads, level, Insert(ring, begin, splits))
  {
  }

  lemma RightAt(c: Arity, quads: seq<Quad>, begin: nat, t: Tree, p: Quad, splits: seq<int>)
    requires Shape(c, t) && t.Node? && Holds(quads, begin, t, p) && Right(c, quads, |p|, begin, splits)
    ensures splits == Splits(t)
  {
  }

  lemma RingRightAt(c: Arity, quads: seq<Quad>, ring: Ring, hit: nat, begin: nat, t: Tree, p: Quad)
    requires RingRight(c, quads, |p|, ring) && hit < |ring.entries| && ring.entries[hit].begin == begin
    requires Shape(c, t) && t.Node? && Holds(quads, begin, t, p)
    ensures ring.entries[hit].splits == Splits(t)
  {
    assert Right(c, quads, |p|, ring.entries[hit].begin, ring.entries[hit].splits);
  }

  lemma SplitIsOffsets(c: Arity, quads: seq<Quad>, begin: nat, t: Tree, p: Quad)
    requires Shape(c, t) && t.Node? && Holds(quads, begin, t, p)
    ensures begin + Count(t) <= |quads|
    ensures forall k :: begin <= k < begin + Count(t) ==> |quads[k]| > |p|
    ensures SplitOf(c, quads[begin..begin + Count(t)], |p|) == Splits(t)
  {
    LeavesCount(c, t, p);
    SplitOfSubtree(c, t, p);
    forall k | begin <= k < begin + Count(t)
      ensures |quads[k]| > |p|
    {
      assert quads[k] == quads[begin..begin + Count(t)][k - begin];
    }
  }
}
