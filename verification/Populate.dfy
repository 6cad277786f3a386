/** Five ways to fill the leaf array of a uniform forest (p4est3_internal_mpi.c): by Morton
    index, by successor, by recursion over index ranges with or without carrying the
    quadrant, and by regions.  They all put the quadrant of index first + k into slot k. */
module Populate {
  import opened Quadrants
  import opened MinMax
  import opened Morton

  /** From slot `at` on, the array holds the n quadrants of the level from index `first` on. */
  ghost predicate Slots(c: Arity, level: nat, s: seq<Quad>, at: int, first: int, n: int) {
    0 <= at <= at + n <= |s| && 0 <= first && forall i :: 0 <= i < n ==> SlotIs(c, level, s, at, first, i)
  }

  ghost predicate SlotIs(c: Arity, level: nat, s: seq<Quad>, at: int, first: int, i: int)
    requires 0 <= i && 0 <= at && at + i < |s| && 0 <= first
  {
    s[at + i] == FromId(c, level, first + i)
  }

  ghost predicate SameOutside(s: seq<Quad>, t: seq<Quad>, from: int, to: int) {
    |s| == |t| && forall j :: 0 <= j < |s| && !(from <= j < to) ==> s[j] == t[j]
  }

  lemma SlotsJoin(c: Arity, level: nat, s: seq<Quad>, t: seq<Quad>, at: int, first: int, m: int, n: int)
    requires 0 <= m && 0 <= n && Slots(c, level, s, at, first, m) && Slots(c, level, t, at + m, first + m, n)
    requires SameOutside(s, t, at + m, at + m + n)
    ensures Slots(c, level, t, at, first, m + n)
  {
    forall i | 0 <= i < m + n
      ensures SlotIs(c, level, t, at, first, i)
    {
      if i < m {
        assert SlotIs(c, level, s, at, first, i);
      } else {
        assert SlotIs(c, level, t, at + m, first + m, i - m);
      }
    }
  }

  // ---------------------------------------------------------------- all descendants of one quadrant

  lemma ChildOf(c: Arity, deep: nat, q: Quad, i: nat)
    requires |q| < deep && i < c && IsQuad(c, q)
    ensures IsQuad(c, Child(q, i)) && Size(c, deep, q) == c * Size(c, deep, Child(q, i))
    ensures First(c, deep, Child(q, i)) == First(c, deep, q) + i * Size(c, deep, Child(q, i))
  {
    ChildInterval(c, deep, Child(q, i));
    assert Parent(Child(q, i)) == q;
  }

  lemma DeepestIs(c: Arity, deep: nat, q: Quad)
    requires |q| == deep && IsQuad(c, q)
    ensures Size(c, deep, q) == 1 && FromId(c, deep, First(c, deep, q)) == q
  {
    FromIdOfId(c, q);
  }

  lemma ChildrenFit(c: int, s: int, i: int)
    requires s >= 0 && 0 <= i < c
    ensures 0 <= i * s && (i + 1) * s == i * s + s && (i + 1) * s <= c * s
  {
  }

  /** p4est3_lowest_children */
  method LowestChildren(c: Arity, deep: nat, q: Quad, levelq: array<Quad>, quads: array<Quad>, cursor: nat)
    returns (next: nat)
    requires IsQuad(c, q) && |q| <= deep && levelq.Length > deep && levelq != quads
    requires cursor + Size(c, deep, q) <= quads.Length
    modifies levelq, quads
    ensures next == cursor + Size(c, deep, q)
    ensures Slots(c, deep, quads[..], cursor, First(c, deep, q), Size(c, deep, q))
    ensures SameOutside(old(quads[..]), quads[..], cursor, next)
    ensures forall l :: 0 <= l <= |q| ==> levelq[l] == old(levelq[l])
    decreases deep - |q|
  {
    hide First, Size, FromId, IsQuad;
    var level := |q|;
    next := cursor;
    if level < deep - 1 {
      var i := 0;
      while i < c
        invariant 0 <= i <= c && next == cursor + i * Size(c, deep, Child(q, 0))
        invariant Slots(c, deep, quads[..], cursor, First(c, deep, q), i * Size(c, deep, Child(q, 0)))
        invariant SameOutside(old(quads[..]), quads[..], cursor, next)
        invariant forall l :: 0 <= l <= |q| ==> levelq[l] == old(levelq[l])
      {
        levelq[level + 1] := Child(q, i);
        ChildOf(c, deep, q, i);
        SameSize(c, deep, Child(q, i), Child(q, 0));
        ChildrenFit(c, Size(c, deep, Child(q, i)), i);
        ghost var before := quads[..];
        next := LowestChildren(c, deep, levelq[level + 1], levelq, quads, next);
        SlotsJoin(c, deep, before, quads[..], cursor, First(c, deep, q), i * Size(c, deep, Child(q, 0)),
                  Size(c, deep, Child(q, 0)));
        i := i + 1;
      }
      ChildOf(c, deep, q, 0);
    } else if level == deep - 1 {
      var i := 0;
      ChildOf(c, deep, q, 0);
      DeepestIs(c, deep, Child(q, 0));
      while i < c
        invariant 0 <= i <= c && next == cursor + i
        invariant Slots(c, deep, quads[..], cursor, First(c, deep, q), i)
        invariant SameOutside(old(quads[..]), quads[..], cursor, next)
        invariant levelq[..] == old(levelq[..])
      {
        ChildOf(c, deep, q, i);
        DeepestIs(c, deep, Child(q, i));
        ghost var before := quads[..];
        quads[next] := Child(q, i);
        assert SlotIs(c, deep, quads[..], cursor + i, First(c, deep, q) + i, 0);
        SlotsJoin(c, deep, before, quads[..], cursor, First(c, deep, q), i, 1);
        next := next + 1;
        i := i + 1;
      }
    } else {
      DeepestIs(c, deep, q);
      quads[next] := q;
      assert SlotIs(c, deep, quads[..], cursor, First(c, deep, q), 0);
      next := next + 1;
    }
  }

  lemma SameSize(c: Arity, deep: nat, p: Quad, q: Quad)
    requires |p| == |q| <= deep
    ensures Size(c, deep, p) == Size(c, deep, q)
  {
  }

  // ---------------------------------------------------------------- by recursion over index ranges

  /** How many of the indices rf to rl are wanted. */
  function Wanted(rf: int, rl: int, mf: int, ml: int): int {
    Max(0, Min(rl, ml) - Max(rf, mf) + 1)
  }

  /** The range of a node of the recursion: quadrant number n of its level. */
  ghost predicate NodeRange(c: Arity, deep: nat, level: nat, n: nat, rf: int, rl: int) {
    level <= deep && n < Pow(c, level) && rf == n * Pow(c, deep - level) && rl == rf + Pow(c, deep - level) - 1
  }

  lemma NodeQuad(c: Arity, deep: nat, level: nat, n: nat, rf: int, rl: int)
    requires NodeRange(c, deep, level, n, rf, rl)
    ensures 0 <= rf && rf / Pow(c, deep - level) == n
    ensures var q := FromId(c, level, n);
            |q| == level && IsQuad(c, q) && First(c, deep, q) == rf && Size(c, deep, q) == rl - rf + 1
  {
    IdOfFromId(c, level, n);
    FromIdIsQuad(c, level, n);
    var p := Pow(c, deep - level);
    assert rf == p * n;
    Exact(p, n);
  }

  lemma Exact(p: int, n: int)
    requires p >= 1
    ensures (p * n) / p == n
  {
    var y := p * n;
    assert y == p * (y / p) + y % p;
    Multiple(p, y / p, n, -(y % p));
  }

  lemma KidRange(c: Arity, deep: nat, level: nat, n: nat, rf: int, rl: int, i: nat, d: int)
    requires NodeRange(c, deep, level, n, rf, rl) && level < deep && i < c && d == (rl - rf + 1) / c
    ensures d >= 1 && rl - rf + 1 == c * d && (i + 1) * d == i * d + d
    ensures NodeRange(c, deep, level + 1, c * n + i, rf + i * d, rf + i * d + d - 1)
    ensures FromId(c, level + 1, c * n + i) == Child(FromId(c, level, n), i)
  {
    var k: int := c;
    var p: int := Pow(c, deep - level - 1);
    Exact(k, p);
    assert rl - rf + 1 == k * p && d == p;
    Distribute(n, k, p, i);
    NextMultiple(n, Pow(c, level), c);
    DivMod(c, n, i);
  }

  lemma Distribute(n: int, c: int, p: int, i: int)
    ensures n * (c * p) + i * p == (c * n + i) * p && (i + 1) * p == i * p + p
  {
    assert n * (c * p) == (c * n) * p;
  }

  lemma WantedAdds(rf: int, m: int, rl: int, mf: int, ml: int)
    requires rf <= m <= rl + 1 && mf <= ml
    ensures Wanted(rf, m - 1, mf, ml) + Wanted(m, rl, mf, ml) == Wanted(rf, rl, mf, ml)
    ensures Wanted(rf, m - 1, mf, ml) > 0 && Wanted(m, rl, mf, ml) > 0 ==>
              Max(m, mf) == Max(rf, mf) + Wanted(rf, m - 1, mf, ml)
    ensures Wanted(rf, m - 1, mf, ml) == 0 && Wanted(m, rl, mf, ml) > 0 ==> Max(m, mf) == Max(rf, mf)
  {
  }

  /** Slots of the wanted indices of a range. */
  ghost predicate RangeDone(c: Arity, deep: nat, s: seq<Quad>, cursor: int, rf: int, rl: int, mf: int, ml: int) {
    Wanted(rf, rl, mf, ml) > 0 ==> Slots(c, deep, s, cursor, Max(rf, mf), Wanted(rf, rl, mf, ml))
  }

  lemma RangeJoin(c: Arity, deep: nat, s: seq<Quad>, t: seq<Quad>, cursor: int, rf: int, m: int, rl: int, mf: int,
                  ml: int)
    requires rf <= m <= rl + 1 && mf <= ml
    requires RangeDone(c, deep, s, cursor, rf, m - 1, mf, ml)
    requires RangeDone(c, deep, t, cursor + Wanted(rf, m - 1, mf, ml), m, rl, mf, ml)
    requires SameOutside(s, t, cursor + Wanted(rf, m - 1, mf, ml), cursor + Wanted(rf, rl, mf, ml))
    ensures RangeDone(c, deep, t, cursor, rf, rl, mf, ml)
  {
    WantedAdds(rf, m, rl, mf, ml);
    var x, y := Wanted(rf, m - 1, mf, ml), Wanted(m, rl, mf, ml);
    if x > 0 && y > 0 {
      SlotsJoin(c, deep, s, t, cursor, Max(rf, mf), x, y);
    } else if x > 0 {
      forall i | 0 <= i < x
        ensures SlotIs(c, deep, t, cursor, Max(rf, mf), i)
      {
        assert SlotIs(c, deep, s, cursor, Max(rf, mf), i);
      }
    }
  }

  /** p4est3_recursive_partition, or with `carry` p4est3_recursive_partition_child, which finds
      the quadrant of the range in the scratch array instead of computing it. */
  method RecursivePartition(c: Arity, deep: nat, level: nat, carry: bool, rf: int, rl: int, mf: int, ml: int,
                            levelq: array<Quad>, quads: array<Quad>, cursor: nat, ghost n: nat) returns (next: nat)
    requires NodeRange(c, deep, level, n, rf, rl) && 0 <= mf <= ml && levelq.Length > deep && levelq != quads
    requires carry ==> levelq[level] == FromId(c, level, n)
    requires cursor + Wanted(rf, rl, mf, ml) <= quads.Length
    modifies levelq, quads
    ensures next == cursor + Wanted(rf, rl, mf, ml)
    ensures RangeDone(c, deep, quads[..], cursor, rf, rl, mf, ml)
    ensures SameOutside(old(quads[..]), quads[..], cursor, next)
    ensures forall l :: 0 <= l < level ==> levelq[l] == old(levelq[l])
    ensures carry ==> levelq[level] == old(levelq[level])
    decreases deep - level
  {
    hide First, Size, FromId, IsQuad, NodeRange, Wanted, RangeDone, SameOutside, Slots, Pow;
    assert level <= deep by { NodeLevel(c, deep, level, n, rf, rl); }
    next := cursor;
    NothingDone(c, deep, quads[..], cursor, rf, rl, mf, ml);
    if rf >= mf && rl <= ml {
      NodeQuad(c, deep, level, n, rf, rl);
      if !carry {
        levelq[level] := FromId(c, level, rf / Pow(c, deep - level));
      }
      AllWanted(rf, rl, mf, ml);
      next := LowestChildren(c, deep, levelq[level], levelq, quads, next);
      WholeRange(c, deep, quads[..], cursor, rf, rl, mf, ml);
    } else if rf > ml || rl < mf {
    } else {
      NodeIsInner(c, deep, level, n, rf, rl, mf, ml);
      var numLower := (rl - rf + 1) / c;
      var f, l := rf, rf + numLower - 1;
      var i := 0;
      KidRange(c, deep, level, n, rf, rl, 0, numLower);
      while i < c
        invariant 0 <= i <= c && f == rf + i * numLower && l == f + numLower - 1
        invariant next == cursor + Wanted(rf, f - 1, mf, ml)
        invariant RangeDone(c, deep, quads[..], cursor, rf, f - 1, mf, ml)
        invariant SameOutside(old(quads[..]), quads[..], cursor, next)
        invariant forall k :: 0 <= k < level ==> levelq[k] == old(levelq[k])
        invariant carry ==> levelq[level] == old(levelq[level])
      {
        KidRange(c, deep, level, n, rf, rl, i, numLower);
        KidFits(rf, rl, mf, ml, c, i, numLower, f, l);
        if carry {
          levelq[level + 1] := Child(levelq[level], i);
        }
        ghost var before := quads[..];
        next := RecursivePartition(c, deep, level + 1, carry, f, l, mf, ml, levelq, quads, next, c * n + i);
        RangeJoin(c, deep, before, quads[..], cursor, rf, f, l, mf, ml);
        OutsideJoin(old(quads[..]), before, quads[..], cursor, next - Wanted(f, l, mf, ml), next);
        i, f, l := i + 1, f + numLower, l + numLower;
      }
      assert f == rl + 1;
    }
  }

  lemma NothingDone(c: Arity, deep: nat, s: seq<Quad>, cursor: int, rf: int, rl: int, mf: int, ml: int)
    ensures Wanted(rf, rf - 1, mf, ml) == 0 && RangeDone(c, deep, s, cursor, rf, rf - 1, mf, ml)
    ensures SameOutside(s, s, cursor, cursor)
    ensures rf > ml || rl < mf ==> Wanted(rf, rl, mf, ml) == 0 && RangeDone(c, deep, s, cursor, rf, rl, mf, ml)
  {
  }

  lemma AllWanted(rf: int, rl: int, mf: int, ml: int)
    requires mf <= rf <= rl + 1 && rl <= ml
    ensures Wanted(rf, rl, mf, ml) == rl - rf + 1
  {
  }

  lemma WholeRange(c: Arity, deep: nat, s: seq<Quad>, cursor: int, rf: int, rl: int, mf: int, ml: int)
    requires mf <= rf <= rl + 1 && rl <= ml && Slots(c, deep, s, cursor, rf, rl - rf + 1)
    ensures RangeDone(c, deep, s, cursor, rf, rl, mf, ml)
  {
  }

  lemma OutsideJoin(s: seq<Quad>, t: seq<Quad>, u: seq<Quad>, a: int, m: int, b: int)
    requires SameOutside(s, t, a, m) && SameOutside(t, u, m, b) && a <= m <= b
    ensures SameOutside(s, u, a, b)
  {
  }

  lemma KidFits(rf: int, rl: int, mf: int, ml: int, c: int, i: int, d: int, f: int, l: int)
    requires 0 <= i < c && d >= 1 && rl - rf + 1 == c * d && f == rf + i * d && l == f + d - 1 && mf <= ml
    ensures rf <= f <= l <= rl && f + d == rf + (i + 1) * d
    ensures 0 <= Wanted(rf, f - 1, mf, ml) && 0 <= Wanted(f, l, mf, ml)
    ensures Wanted(rf, f - 1, mf, ml) + Wanted(f, l, mf, ml) == Wanted(rf, l, mf, ml) <= Wanted(rf, rl, mf, ml)
  {
    ChildrenFit(c, d, i);
    assert (i + 1) * d == i * d + d;
    WantedAdds(rf, f, l, mf, ml);
    WantedAdds(rf, l + 1, rl, mf, ml);
  }

  lemma NodeLevel(c: Arity, deep: nat, level: nat, n: nat, rf: int, rl: int)
    requires NodeRange(c, deep, level, n, rf, rl)
    ensures level <= deep
  {
  }

  lemma NodeIsInner(c: Arity, deep: nat, level: nat, n: nat, rf: int, rl: int, mf: int, ml: int)
    requires NodeRange(c, deep, level, n, rf, rl) && !(rf >= mf && rl <= ml) && !(rf > ml || rl < mf)
    ensures level < deep && rf <= rl
  {
  }

  // ---------------------------------------------------------------- one after the other

  /** p4est3_internal_populate_morton */
  method PopulateMorton(c: Arity, deep: nat, count: nat, first: nat, quads: array<Quad>, cursor: nat) returns (gq: nat)
    requires cursor + count <= quads.Length
    modifies quads
    ensures gq == first + count && Slots(c, deep, quads[..], cursor, first, count)
    ensures SameOutside(old(quads[..]), quads[..], cursor, cursor + count)
  {
    hide FromId;
    var tq := 0;
    gq := first;
    while tq < count
      invariant 0 <= tq <= count && gq == first + tq
      invariant Slots(c, deep, quads[..], cursor, first, tq)
      invariant SameOutside(old(quads[..]), quads[..], cursor, cursor + tq)
    {
      ghost var before := quads[..];
      quads[cursor + tq] := FromId(c, deep, gq);
      assert SlotIs(c, deep, quads[..], cursor + tq, gq, 0);
      SlotsJoin(c, deep, before, quads[..], cursor, first, tq, 1);
      tq, gq := tq + 1, gq + 1;
    }
  }

  /** The next quadrant of the same level. */
  function Successor(c: Arity, q: Quad): (r: Quad)
    ensures |r| == |q|
  {
    if q == [] then []
    else if ChildId(q) + 1 < c then Sibling(q, ChildId(q) + 1)
    else Child(Successor(c, Parent(q)), 0)
  }

  lemma NextDigits(c: Arity, id: nat)
    ensures if id % c + 1 < c then (id + 1) / c == id / c && (id + 1) % c == id % c + 1
            else (id + 1) / c == id / c + 1 && (id + 1) % c == 0
  {
    var k: int := c;
    var p, d := id / k, id % k;
    assert id == k * p + d;
    if d + 1 < k {
      DivMod(c, p, d + 1);
    } else {
      assert k * (p + 1) == k * p + k;
      DivMod(c, p + 1, 0);
    }
  }

  lemma {:induction false} SuccessorOfId(c: Arity, level: nat, id: nat)
    requires id + 1 < Pow(c, level)
    ensures Successor(c, FromId(c, level, id)) == FromId(c, level, id + 1)
  {
    if level > 0 {
      DivBound(c, id + 1, Pow(c, level - 1));
      NextDigits(c, id);
      var q := FromId(c, level, id);
      LastDigit(c, level, id);
      if id % c + 1 >= c {
        SuccessorOfId(c, level - 1, id / c);
      }
    }
  }

  lemma LastDigit(c: Arity, level: nat, id: nat)
    requires level > 0
    ensures var q := FromId(c, level, id); q != [] && Parent(q) == FromId(c, level - 1, id / c) && ChildId(q) == id % c
  {
  }

  /** p4est3_internal_populate_successor */
  method PopulateSuccessor(c: Arity, deep: nat, count: nat, first: nat, quads: array<Quad>, cursor: nat)
    returns (gq: nat)
    requires cursor + count <= quads.Length && first + count <= Pow(c, deep)
    modifies quads
    ensures gq == first + (if count > 0 then 1 else 0) && Slots(c, deep, quads[..], cursor, first, count)
    ensures SameOutside(old(quads[..]), quads[..], cursor, cursor + count)
  {
    hide FromId, Successor;
    gq := first;
    if 0 < count {
      quads[cursor] := FromId(c, deep, gq);
      assert SlotIs(c, deep, quads[..], cursor, first, 0);
      gq := gq + 1;
      var tq, previous := 1, cursor;
      while tq < count
        invariant 1 <= tq <= count && previous == cursor + tq - 1 && gq == first + 1
        invariant Slots(c, deep, quads[..], cursor, first, tq)
        invariant SameOutside(old(quads[..]), quads[..], cursor, cursor + tq)
      {
        ghost var before := quads[..];
        assert SlotIs(c, deep, before, cursor, first, tq - 1);
        SuccessorOfId(c, deep, first + tq - 1);
        quads[cursor + tq] := Successor(c, quads[previous]);
        assert SlotIs(c, deep, quads[..], cursor + tq, first + tq, 0);
        SlotsJoin(c, deep, before, quads[..], cursor, first, tq, 1);
        previous := cursor + tq;
        tq := tq + 1;
      }
    }
  }

  // ---------------------------------------------------------------- by regions

  /** Cell k of the level lies in q. */
  predicate Has(c: Arity, deep: nat, q: Quad, k: int)
    requires |q| <= deep
  {
    First(c, deep, q) <= k < First(c, deep, q) + Size(c, deep, q)
  }

  ghost predicate Within(c: Arity, deep: nat, s: seq<Quad>) {
    forall i :: 0 <= i < |s| ==> |s[i]| <= deep && IsQuad(c, s[i])
  }

  ghost predicate Hit(c: Arity, deep: nat, s: seq<Quad>, k: int)
    requires Within(c, deep, s)
  {
    exists i :: 0 <= i < |s| && Has(c, deep, s[i], k)
  }

  lemma HitAt(c: Arity, deep: nat, s: seq<Quad>, k: int, i: nat)
    requires Within(c, deep, s) && i < |s| && Has(c, deep, s[i], k)
    ensures Hit(c, deep, s, k)
  {
  }

  /** The cells from lo up to hi are in the region or still to be examined. */
  ghost predicate Covered(c: Arity, deep: nat, region: seq<Quad>, rest: seq<Quad>, lo: int, hi: int)
    requires Within(c, deep, region) && Within(c, deep, rest)
  {
    forall k :: lo <= k < hi ==> Hit(c, deep, region, k) || Hit(c, deep, rest, k)
  }

  /** A cell is a quadrant of the level. */
  lemma CellInterval(c: Arity, deep: nat, q: Quad, a: Quad)
    requires |q| <= deep && IsQuad(c, q) && |a| == deep && IsQuad(c, a)
    ensures q < a ==> Has(c, deep, q, First(c, deep, a)) && |q| < deep
    ensures !(q < a) && q != a ==> !Has(c, deep, q, First(c, deep, a))
    ensures q == a ==> Size(c, deep, q) == 1
  {
    if q < a {
      AncestorInterval(c, deep, q, a);
    } else if q != a {
      Trichotomy(q, a);
      if Before(q, a) {
        BeforeInterval(c, deep, q, a);
      } else {
        assert !(a <= q);
        BeforeInterval(c, deep, a, q);
      }
    }
  }

  lemma HitChildren(c: Arity, deep: nat, q: Quad, k: int) returns (i: nat)
    requires |q| < deep && IsQuad(c, q) && Has(c, deep, q, k)
    ensures i < c && Has(c, deep, Child(q, i), k)
  {
    ChildOf(c, deep, q, 0);
    var s := Size(c, deep, Child(q, 0));
    i := QuotientBound(k - First(c, deep, q), s, c);
    ChildOf(c, deep, q, i);
    SameSize(c, deep, Child(q, i), Child(q, 0));
  }

  lemma QuotientBound(d: int, s: int, c: int) returns (i: nat)
    requires 0 <= d < c * s && s >= 1 && c >= 1
    ensures i < c && i * s <= d < i * s + s
  {
    i := d / s;
    assert d == s * i + d % s;
    assert i >= c ==> s * i >= s * c by {
      if i >= c {
        AtLeastProduct(s, c, i);
      }
    }
  }

  lemma AtLeastProduct(s: int, c: int, i: int)
    requires s >= 1 && i >= c
    ensures s * i >= s * c
  {
    assert s * (i - c) >= 0;
  }

  ghost function Weight(c: Arity, n: nat): (w: nat)
    ensures w >= 1
  {
    if n == 0 then 1 else c * Weight(c, n - 1) + 1
  }

  /** Bounds the work that is left. */
  ghost function Work(c: Arity, deep: nat, s: seq<Quad>): nat {
    if s == [] then 0
    else Work(c, deep, s[..|s| - 1]) + Weight(c, if |s[|s| - 1]| <= deep then deep - |s[|s| - 1]| else 0)
  }

  lemma {:induction false} WorkConcat(c: Arity, deep: nat, s: seq<Quad>, t: seq<Quad>)
    ensures Work(c, deep, s + t) == Work(c, deep, s) + Work(c, deep, t)
  {
    if t == [] {
      assert s + t == s;
    } else {
      assert (s + t)[..|s + t| - 1] == s + t[..|t| - 1];
      WorkConcat(c, deep, s, t[..|t| - 1]);
    }
  }

  lemma {:induction false} WorkSame(c: Arity, deep: nat, s: seq<Quad>, n: nat)
    requires n <= deep && forall i :: 0 <= i < |s| ==> |s[i]| == n
    ensures Work(c, deep, s) == |s| * Weight(c, deep - n)
  {
    if s != [] {
      WorkSame(c, deep, s[..|s| - 1], n);
      var w := Weight(c, deep - n);
      assert |s| * w == (|s| - 1) * w + w;
    }
  }

  /** What one round of the work list does to the quadrant q: into the region, or replaced by
      its children, or dropped because it is outside. */
  ghost predicate RoundFits(c: Arity, deep: nat, q: Quad, lo: int, hi: int, taken: bool, split: bool)
    requires |q| <= deep
  {
    && (taken ==> lo <= First(c, deep, q) && First(c, deep, q) + Size(c, deep, q) <= hi)
    && (!taken && split ==> |q| < deep)
    && (!taken && !split ==> forall k :: lo <= k < hi ==> !Has(c, deep, q, k))
  }

  lemma RoundStep(c: Arity, deep: nat, region: seq<Quad>, rest: seq<Quad>, lo: int, hi: int, taken: bool, split: bool)
    requires Within(c, deep, region) && Within(c, deep, rest) && rest != [] && Covered(c, deep, region, rest, lo, hi)
    requires RoundFits(c, deep, rest[0], lo, hi, taken, split)
    ensures var region' := if taken then region + [rest[0]] else region;
            var rest' := rest[1..] + if !taken && split then Children(c, rest[0]) else [];
            && Within(c, deep, region') && Within(c, deep, rest') && Covered(c, deep, region', rest', lo, hi)
            && Work(c, deep, rest') < Work(c, deep, rest)
  {
    hide First, Size, Has, IsQuad, Hit, Work, Children;
    var q := rest[0];
    var region' := if taken then region + [q] else region;
    var more := if !taken && split then Children(c, q) else [];
    var rest' := rest[1..] + more;
    assert rest == [q] + rest[1..];
    WorkConcat(c, deep, [q], rest[1..]);
    WorkConcat(c, deep, rest[1..], more);
    WorkOne(c, deep, q, more);
    if more != [] {
      ChildrenWithin(c, deep, q);
    }
    forall k | lo <= k < hi
      ensures Hit(c, deep, region', k) || Hit(c, deep, rest', k)
    {
      RoundHit(c, deep, region, rest, lo, hi, taken, split, k);
    }
  }

  lemma ChildrenWithin(c: Arity, deep: nat, q: Quad)
    requires |q| < deep && IsQuad(c, q)
    ensures Within(c, deep, Children(c, q))
  {
  }

  /** A covered cell stays covered. */
  lemma RoundHit(c: Arity, deep: nat, region: seq<Quad>, rest: seq<Quad>, lo: int, hi: int, taken: bool, split: bool,
                 k: int)
    requires Within(c, deep, region) && Within(c, deep, rest) && rest != [] && lo <= k < hi
    requires Hit(c, deep, region, k) || Hit(c, deep, rest, k)
    requires RoundFits(c, deep, rest[0], lo, hi, taken, split)
    ensures var region' := if taken then region + [rest[0]] else region;
            var rest' := rest[1..] + if !taken && split then Children(c, rest[0]) else [];
            Within(c, deep, region') && Within(c, deep, rest') && (Hit(c, deep, region', k) || Hit(c, deep, rest', k))
  {
    hide First, Size, Has;
    var q := rest[0];
    var region' := if taken then region + [q] else region;
    var rest' := rest[1..] + if !taken && split then Children(c, q) else [];
    if Hit(c, deep, region, k) {
      var i :| 0 <= i < |region| && Has(c, deep, region[i], k);
      HitAt(c, deep, region', k, i);
    } else {
      var i :| 0 <= i < |rest| && Has(c, deep, rest[i], k);
      if i > 0 {
        HitAt(c, deep, rest', k, i - 1);
      } else if taken {
        HitAt(c, deep, region', k, |region|);
      } else {
        var j := HitChildren(c, deep, q, k);
        HitAt(c, deep, rest', k, |rest| - 1 + j);
      }
    }
  }

  lemma WorkOne(c: Arity, deep: nat, q: Quad, more: seq<Quad>)
    requires |q| <= deep && (more == [] || (|q| < deep && more == Children(c, q)))
    ensures Work(c, deep, more) < Work(c, deep, [q])
  {
    assert [q][..0] == [];
    if more != [] {
      WorkSame(c, deep, more, |q| + 1);
    }
  }

  /** p4est3_region: quadrants that fill the cells from a up to, but not including, b. */
  method Region(c: Arity, deep: nat, a: Quad, b: Quad) returns (region: seq<Quad>)
    requires IsQuad(c, a) && IsQuad(c, b) && |a| == |b| == deep && First(c, deep, a) < First(c, deep, b)
    ensures RegionFills(c, deep, region, First(c, deep, a), First(c, deep, b))
  {
    hide IsQuad, First, Size, Has, Hit, Covered, Work, Children;
    var aid, bid := First(c, deep, a), First(c, deep, b);
    var ancestor := NearestCommonAncestor(a, b);
    var testq := [ancestor] + Children(c, ancestor);
    region := [];
    StartAtAncestor(c, deep, a, b);
    var i := 1;
    while i < |testq|
      invariant 1 <= i <= |testq| && Within(c, deep, region) && Within(c, deep, testq[i..])
      invariant Covered(c, deep, region, testq[i..], aid, bid) && InBounds(c, deep, region, aid, bid)
      decreases Work(c, deep, testq[i..])
    {
      var q := testq[i];
      assert q == testq[i..][0];
      var cid, lc := First(c, deep, q), |q|;
      ghost var rest := testq[i..];
      RegionRound(c, deep, q, a, b);
      if (aid < cid || (aid == cid && |a| <= lc)) && (cid < bid || (cid == bid && lc < |b|)) && !(q < b) {
        RoundStep(c, deep, region, rest, aid, bid, true, q < a || q < b);
        region := region + [q];
        assert testq[i + 1..] == rest[1..] + [];
      } else if q < a || q < b {
        RoundStep(c, deep, region, rest, aid, bid, false, true);
        assert (testq + Children(c, q))[i + 1..] == rest[1..] + Children(c, q);
        testq := testq + Children(c, q);
      } else {
        RoundStep(c, deep, region, rest, aid, bid, false, false);
        assert testq[i + 1..] == rest[1..] + [];
      }
      i := i + 1;
    }
    AllFilled(c, deep, region, testq[i..], aid, bid);
  }

  /** p4est3_region_end: quadrants that fill the cells from a to the end of the tree. */
  method RegionEnd(c: Arity, deep: nat, a: Quad, b: Quad) returns (region: seq<Quad>)
    requires IsQuad(c, a) && IsQuad(c, b) && |a| == |b| == deep
    requires First(c, deep, b) == Pow(c, deep) - 1
    ensures RegionFills(c, deep, region, First(c, deep, a), Pow(c, deep))
  {
    hide IsQuad, First, Size, Has, Hit, Covered, Work, Children;
    var aid := First(c, deep, a);
    var testq := [NearestCommonAncestor(a, b)];
    region := [];
    StartAtEnd(c, deep, a, b);
    var i := 0;
    while i < |testq|
      invariant 0 <= i <= |testq| && Within(c, deep, region) && Within(c, deep, testq[i..])
      invariant Covered(c, deep, region, testq[i..], aid, Pow(c, deep)) && InBounds(c, deep, region, aid, Pow(c, deep))
      decreases Work(c, deep, testq[i..])
    {
      var q := testq[i];
      assert q == testq[i..][0];
      var cid, lc := First(c, deep, q), |q|;
      ghost var rest := testq[i..];
      RegionEndRound(c, deep, q, a);
      if aid < cid || (aid == cid && |a| <= lc) {
        RoundStep(c, deep, region, rest, aid, Pow(c, deep), true, q < a);
        region := region + [q];
        assert testq[i + 1..] == rest[1..] + [];
      } else if q < a {
        RoundStep(c, deep, region, rest, aid, Pow(c, deep), false, true);
        assert (testq + Children(c, q))[i + 1..] == rest[1..] + Children(c, q);
        testq := testq + Children(c, q);
      } else {
        RoundStep(c, deep, region, rest, aid, Pow(c, deep), false, false);
        assert testq[i + 1..] == rest[1..] + [];
      }
      i := i + 1;
    }
    AllFilled(c, deep, region, testq[i..], aid, Pow(c, deep));
  }

  ghost predicate InBounds(c: Arity, deep: nat, s: seq<Quad>, lo: int, hi: int)
    requires Within(c, deep, s)
  {
    forall i :: 0 <= i < |s| ==> lo <= First(c, deep, s[i]) && First(c, deep, s[i]) + Size(c, deep, s[i]) <= hi
  }

  ghost predicate RegionFills(c: Arity, deep: nat, s: seq<Quad>, lo: int, hi: int) {
    Within(c, deep, s) && InBounds(c, deep, s, lo, hi) && forall k :: lo <= k < hi ==> Hit(c, deep, s, k)
  }

  lemma AllFilled(c: Arity, deep: nat, region: seq<Quad>, rest: seq<Quad>, lo: int, hi: int)
    requires Within(c, deep, region) && rest == [] && Covered(c, deep, region, rest, lo, hi)
    requires InBounds(c, deep, region, lo, hi)
    ensures RegionFills(c, deep, region, lo, hi)
  {
  }

  lemma RegionRound(c: Arity, deep: nat, q: Quad, a: Quad, b: Quad)
    requires |q| <= deep && IsQuad(c, q) && IsQuad(c, a) && IsQuad(c, b) && |a| == |b| == deep
    ensures var aid, bid, cid, lc := First(c, deep, a), First(c, deep, b), First(c, deep, q), |q|;
            var taken := (aid < cid || (aid == cid && |a| <= lc)) &&
                         (cid < bid || (cid == bid && lc < |b|)) && !(q < b);
            RoundFits(c, deep, q, aid, bid, taken, q < a || q < b)
  {
    CellInterval(c, deep, q, a);
    CellInterval(c, deep, q, b);
    CellInterval(c, deep, a, a);
    if |q| == deep {
      DeepestIs(c, deep, q);
      DeepestIs(c, deep, a);
      DeepestIs(c, deep, b);
    }
  }

  lemma RegionEndRound(c: Arity, deep: nat, q: Quad, a: Quad)
    requires |q| <= deep && IsQuad(c, q) && IsQuad(c, a) && |a| == deep
    ensures var aid, cid, lc := First(c, deep, a), First(c, deep, q), |q|;
            var taken := aid < cid || (aid == cid && |a| <= lc);
            RoundFits(c, deep, q, aid, Pow(c, deep), taken, q < a)
  {
    CellInterval(c, deep, q, a);
    CellInterval(c, deep, a, a);
    FirstBelowTop(c, deep, q);
    if |q| == deep {
      DeepestIs(c, deep, q);
      DeepestIs(c, deep, a);
    }
  }

  lemma StartAtAncestor(c: Arity, deep: nat, a: Quad, b: Quad)
    requires IsQuad(c, a) && IsQuad(c, b) && |a| == |b| == deep && First(c, deep, a) < First(c, deep, b)
    ensures var s := NearestCommonAncestor(a, b);
            |s| < deep && IsQuad(c, s) && Within(c, deep, Children(c, s)) &&
            Covered(c, deep, [], Children(c, s), First(c, deep, a), First(c, deep, b))
    ensures ([NearestCommonAncestor(a, b)] + Children(c, NearestCommonAncestor(a, b)))[1..] ==
            Children(c, NearestCommonAncestor(a, b))
  {
    var s := NearestCommonAncestor(a, b);
    assert |s| == deep ==> s == a && s == b;
    CellInterval(c, deep, s, a);
    CellInterval(c, deep, s, b);
    var kids := Children(c, s);
    forall k | First(c, deep, a) <= k < First(c, deep, b)
      ensures Hit(c, deep, kids, k)
    {
      var j := HitChildren(c, deep, s, k);
      HitAt(c, deep, kids, k, j);
    }
  }

  lemma StartAtEnd(c: Arity, deep: nat, a: Quad, b: Quad)
    requires IsQuad(c, a) && IsQuad(c, b) && |a| == |b| == deep && First(c, deep, b) == Pow(c, deep) - 1
    ensures var s := NearestCommonAncestor(a, b);
            Within(c, deep, [s]) && [s][0..] == [s] && Covered(c, deep, [], [s], First(c, deep, a), Pow(c, deep))
  {
    var s := NearestCommonAncestor(a, b);
    AncestorInterval(c, deep, s, a);
    AncestorInterval(c, deep, s, b);
    forall k | First(c, deep, a) <= k < Pow(c, deep)
      ensures Hit(c, deep, [s], k)
    {
      HitAt(c, deep, [s], k, 0);
    }
  }

  /** p4est3_recursive_partition_region: the quadrants of a region are expanded in any order,
      each at its own place.  Two entries of the scratch array are looked up before anything
      else, so it fails when the forest is on level 0 and the array has only one. */
  method RecursivePartitionRegion(c: Arity, deep: nat, isRegionEnd: bool, mf: nat, ml: nat,
                                  levelq: array<Quad>, quads: array<Quad>, cursor: nat) returns (next: nat, ok: bool)
    requires mf <= ml < Pow(c, deep) && (isRegionEnd <==> ml == Pow(c, deep) - 1)
    requires levelq.Length == deep + 1 && levelq != quads && cursor + (ml - mf + 1) <= quads.Length
    modifies levelq, quads
    ensures ok <==> deep >= 1
    ensures ok ==> next == cursor + (ml - mf + 1) && Slots(c, deep, quads[..], cursor, mf, ml - mf + 1)
    ensures ok ==> SameOutside(old(quads[..]), quads[..], cursor, next)
    ensures !ok ==> next == cursor && quads[..] == old(quads[..])
  {
    hide IsQuad, First, Size, Hit, Within, RegionFills, FromId;
    ok := 1 < levelq.Length;
    if !ok {
      return cursor, false;
    }
    levelq[0] := FromId(c, deep, mf);
    var a := levelq[0];
    CellOf(c, deep, mf);
    if mf == ml {
      quads[cursor] := a;
      assert SlotIs(c, deep, quads[..], cursor, mf, 0);
      return cursor + 1, true;
    }
    var region: seq<Quad>;
    if isRegionEnd {
      levelq[1] := FromId(c, deep, ml);
      CellOf(c, deep, ml);
      region := RegionEnd(c, deep, a, levelq[1]);
    } else {
      levelq[1] := FromId(c, deep, ml + 1);
      CellOf(c, deep, ml + 1);
      region := Region(c, deep, a, levelq[1]);
    }
    var i := 0;
    NothingHit(c, deep, region, quads[..], cursor, mf, ml);
    while i < |region|
      invariant 0 <= i <= |region| && RegionDone(c, deep, region, i, quads[..], cursor, mf, ml)
      invariant SameOutside(old(quads[..]), quads[..], cursor, cursor + (ml - mf + 1))
    {
      RegionMember(c, deep, region, i, mf, ml);
      var id := First(c, deep, region[i]);
      ghost var before := quads[..];
      var w := LowestChildren(c, deep, region[i], levelq, quads, cursor + (id - mf));
      RegionPart(c, deep, region, i, before, quads[..], cursor, mf, ml);
      i := i + 1;
    }
    next := cursor + (ml - mf + 1);
    RegionComplete(c, deep, region, quads[..], cursor, mf, ml);
  }

  lemma CellOf(c: Arity, deep: nat, k: nat)
    requires k < Pow(c, deep)
    ensures var q := FromId(c, deep, k); |q| == deep && IsQuad(c, q) && First(c, deep, q) == k
  {
    FromIdIsQuad(c, deep, k);
    IdOfFromId(c, deep, k);
  }

  /** The slots of the cells of the first i members of the region are right. */
  ghost predicate RegionDone(c: Arity, deep: nat, region: seq<Quad>, i: int, s: seq<Quad>, cursor: int, mf: int,
                             ml: int)
  {
    && 0 <= mf <= ml && 0 <= cursor && cursor + (ml - mf + 1) <= |s| && 0 <= i <= |region|
    && RegionFills(c, deep, region, mf, ml + 1)
    && forall k :: mf <= k <= ml && HitBelow(c, deep, region, i, k) ==> SlotIs(c, deep, s, cursor, mf, k - mf)
  }

  ghost predicate HitBelow(c: Arity, deep: nat, region: seq<Quad>, i: int, k: int)
    requires 0 <= i <= |region|
  {
    exists j :: 0 <= j < i && |region[j]| <= deep && Has(c, deep, region[j], k)
  }

  lemma NothingHit(c: Arity, deep: nat, region: seq<Quad>, s: seq<Quad>, cursor: int, mf: int, ml: int)
    requires 0 <= mf <= ml && 0 <= cursor && cursor + (ml - mf + 1) <= |s| && RegionFills(c, deep, region, mf, ml + 1)
    ensures RegionDone(c, deep, region, 0, s, cursor, mf, ml)
  {
  }

  lemma RegionMember(c: Arity, deep: nat, region: seq<Quad>, i: int, mf: int, ml: int)
    requires 0 <= i < |region| && RegionFills(c, deep, region, mf, ml + 1)
    ensures |region[i]| <= deep && IsQuad(c, region[i])
    ensures mf <= First(c, deep, region[i]) && First(c, deep, region[i]) + Size(c, deep, region[i]) <= ml + 1
  {
  }

  lemma RegionPart(c: Arity, deep: nat, region: seq<Quad>, i: int, s: seq<Quad>, t: seq<Quad>, cursor: int, mf: int,
                   ml: int)
    requires RegionDone(c, deep, region, i, s, cursor, mf, ml) && i < |region| && |region[i]| <= deep
    requires var f, n := First(c, deep, region[i]), Size(c, deep, region[i]);
             && mf <= f && f + n <= ml + 1
             && Slots(c, deep, t, cursor + (f - mf), f, n)
             && SameOutside(s, t, cursor + (f - mf), cursor + (f - mf) + n)
    ensures RegionDone(c, deep, region, i + 1, t, cursor, mf, ml)
  {
    hide RegionFills;
    var f, n, m := First(c, deep, region[i]), Size(c, deep, region[i]), i + 1;
    forall k | mf <= k <= ml && HitBelow(c, deep, region, m, k)
      ensures SlotIs(c, deep, t, cursor, mf, k - mf)
    {
      if f <= k < f + n {
        assert SlotIs(c, deep, t, cursor + (f - mf), f, k - f);
      } else {
        assert HitBelow(c, deep, region, i, k);
        assert SlotIs(c, deep, s, cursor, mf, k - mf);
      }
    }
  }

  lemma RegionComplete(c: Arity, deep: nat, region: seq<Quad>, s: seq<Quad>, cursor: int, mf: int, ml: int)
    requires RegionDone(c, deep, region, |region|, s, cursor, mf, ml)
    ensures Slots(c, deep, s, cursor, mf, ml - mf + 1)
  {
    forall i | 0 <= i < ml - mf + 1
      ensures SlotIs(c, deep, s, cursor, mf, i)
    {
      assert Hit(c, deep, region, mf + i);
      assert HitBelow(c, deep, region, |region|, mf + i);
    }
  }

  // ---------------------------------------------------------------- all modes, all local trees

  datatype Mode = ByMorton | BySuccessor | Recursive | RecursiveChild | RecursiveRegion

  /** p4est3_internal_populate_recursive.  The index it leaves is that of the last quadrant
      written, where the loop over Morton indices leaves the next one; the caller starts every
      tree afresh and does not use it. */
  method PopulateRecursive(c: Arity, deep: nat, mode: Mode, count: nat, first: nat, quads: array<Quad>, cursor: nat)
    returns (gq: nat, ok: bool)
    requires mode.Recursive? || mode.RecursiveChild? || mode.RecursiveRegion?
    requires cursor + count <= quads.Length && first + count <= Pow(c, deep)
    modifies quads
    ensures ok <==> (mode.RecursiveRegion? && count > 0 ==> deep >= 1)
    ensures ok ==> Slots(c, deep, quads[..], cursor, first, count)
    ensures ok ==> SameOutside(old(quads[..]), quads[..], cursor, cursor + count)
    ensures ok ==> gq == if count > 0 then first + count - 1 else first
    ensures !ok ==> quads[..] == old(quads[..])
  {
    hide First, Size, FromId, Slots;
    gq, ok := first, true;
    if 0 < count {
      var rl, ml := Pow(c, deep) - 1, first + count - 1;
      var levelq := new Quad[deep + 1](_ => []);
      var next: nat;
      RootRange(c, deep);
      WholeTreeWanted(c, deep, rl, first, ml);
      if mode.Recursive? {
        next := RecursivePartition(c, deep, 0, false, 0, rl, first, ml, levelq, quads, cursor, 0);
        RangeIsSlots(c, deep, quads[..], cursor, rl, first, ml);
      } else if mode.RecursiveChild? {
        next := RecursivePartition(c, deep, 0, true, 0, rl, first, ml, levelq, quads, cursor, 0);
        RangeIsSlots(c, deep, quads[..], cursor, rl, first, ml);
      } else {
        next, ok := RecursivePartitionRegion(c, deep, ml == rl, first, ml, levelq, quads, cursor);
        if !ok {
          return;
        }
      }
      gq := ml;
    } else {
      NoSlots(c, deep, quads[..], cursor, first);
    }
  }

  lemma RootRange(c: Arity, deep: nat)
    ensures NodeRange(c, deep, 0, 0, 0, Pow(c, deep) - 1) && FromId(c, 0, 0) == []
  {
  }

  lemma WholeTreeWanted(c: Arity, deep: nat, rl: int, mf: int, ml: int)
    requires 0 <= mf <= ml <= rl
    ensures Wanted(0, rl, mf, ml) == ml - mf + 1
  {
  }

  lemma RangeIsSlots(c: Arity, deep: nat, s: seq<Quad>, cursor: int, rl: int, mf: int, ml: int)
    requires 0 <= mf <= ml <= rl && RangeDone(c, deep, s, cursor, 0, rl, mf, ml)
    ensures Slots(c, deep, s, cursor, mf, ml - mf + 1)
  {
  }

  lemma NoSlots(c: Arity, deep: nat, s: seq<Quad>, cursor: int, first: int)
    requires 0 <= cursor <= |s| && 0 <= first
    ensures Slots(c, deep, s, cursor, first, 0)
  {
  }

  /** Every mode writes the same quadrants to the same slots; regions fail on level 0, and
      only there. */
  method PopulateTree(c: Arity, deep: nat, mode: Mode, count: nat, first: nat, quads: array<Quad>, cursor: nat)
    returns (ok: bool)
    requires cursor + count <= quads.Length && first + count <= Pow(c, deep)
    modifies quads
    ensures ok <==> (mode.RecursiveRegion? && count > 0 ==> deep >= 1)
    ensures ok ==> Slots(c, deep, quads[..], cursor, first, count)
    ensures ok ==> SameOutside(old(quads[..]), quads[..], cursor, cursor + count)
    ensures !ok ==> quads[..] == old(quads[..])
  {
    ok := true;
    match mode {
      case ByMorton => var gq := PopulateMorton(c, deep, count, first, quads, cursor);
      case BySuccessor => var gq := PopulateSuccessor(c, deep, count, first, quads, cursor);
      case Recursive => var gq; gq, ok := PopulateRecursive(c, deep, mode, count, first, quads, cursor);
      case RecursiveChild => var gq; gq, ok := PopulateRecursive(c, deep, mode, count, first, quads, cursor);
      case RecursiveRegion => var gq; gq, ok := PopulateRecursive(c, deep, mode, count, first, quads, cursor);
    }
  }

  /** Local leaf k of a rank whose leaves start at global index g: trees follow each other. */
  ghost predicate UniformForest(c: Arity, deep: nat, s: seq<Quad>, g: int, n: int) {
    && 0 <= g && 0 <= n <= |s|
    && forall k :: 0 <= k < n ==> s[k] == FromId(c, deep, IndexInTree(c, deep, g + k))
  }

  function IndexInTree(c: Arity, deep: nat, g: nat): nat {
    g % Pow(c, deep)
  }

  /** p4est3_internal_setup_quadrants: the loop over the local trees. */
  method SetupQuadrants(c: Arity, deep: nat, mode: Mode, begin: nat, end: nat, quads: array<Quad>) returns (ok: bool)
    requires begin <= end && quads.Length == end - begin
    modifies quads
    ensures ok <==> (mode.RecursiveRegion? && begin < end ==> deep >= 1)
    ensures ok ==> UniformForest(c, deep, quads[..], begin, end - begin)
    ensures !ok ==> quads[..] == old(quads[..])
  {
    hide FromId, Pow, Slots, SameOutside, UniformForest;
    var numUniform := Pow(c, deep);
    var tree := begin / numUniform;
    var g := begin;
    ok := true;
    NoForest(c, deep, quads[..], begin);
    while g < end
      invariant begin <= g <= end && UniformForest(c, deep, quads[..], begin, g - begin)
      invariant tree >= 0 && (g < end ==> tree == g / numUniform)
      invariant ok && (g == begin ==> quads[..] == old(quads[..]))
      invariant mode.RecursiveRegion? && begin < g ==> deep >= 1
      decreases end - g
    {
      var treeBegin := tree * numUniform;
      var stop := if end < treeBegin + numUniform then end else treeBegin + numUniform;
      TreeOf(numUniform, g, tree);
      ghost var before := quads[..];
      ok := PopulateTree(c, deep, mode, stop - g, g - treeBegin, quads, g - begin);
      if !ok {
        return;
      }
      TreeAdded(c, deep, before, quads[..], begin, g, stop, tree);
      g, tree := stop, tree + 1;
    }
  }

  lemma NoForest(c: Arity, deep: nat, s: seq<Quad>, g: int)
    requires 0 <= g
    ensures UniformForest(c, deep, s, g, 0)
  {
  }

  lemma TreeOf(n: int, g: int, tree: int)
    requires n >= 1 && 0 <= g && tree == g / n
    ensures 0 <= g - tree * n < n && (tree * n + n) / n == tree + 1
  {
    assert g == n * (g / n) + g % n;
    assert tree * n + n == n * (tree + 1);
    Exact(n, tree + 1);
  }

  lemma TreeAdded(c: Arity, deep: nat, s: seq<Quad>, t: seq<Quad>, begin: int, g: int, stop: int, tree: int)
    requires UniformForest(c, deep, s, begin, g - begin) && 0 <= begin <= g < stop && tree >= 0
    requires tree * Pow(c, deep) <= g && stop <= tree * Pow(c, deep) + Pow(c, deep)
    requires Slots(c, deep, t, g - begin, g - tree * Pow(c, deep), stop - g)
    requires SameOutside(s, t, g - begin, stop - begin)
    ensures UniformForest(c, deep, t, begin, stop - begin)
  {
    hide FromId;
    var n := Pow(c, deep);
    forall k | 0 <= k < stop - begin
      ensures t[k] == FromId(c, deep, IndexInTree(c, deep, begin + k))
    {
      if k < g - begin {
        assert s[k] == FromId(c, deep, IndexInTree(c, deep, begin + k));
      } else {
        assert SlotIs(c, deep, t, g - begin, g - tree * n, k - (g - begin));
        RemainderIs(n, tree, begin + k - tree * n);
      }
    }
  }

  lemma RemainderIs(n: int, q: int, r: int)
    requires n >= 1 && 0 <= r < n
    ensures (q * n + r) % n == r
  {
    var y := q * n + r;
    assert y == n * (y / n) + y % n;
    Multiple(n, y / n, q, r - y % n);
  }
}
