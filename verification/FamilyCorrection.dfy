/** Moving partition cuts so that no family is split (p4est_partition_correction,
    p4est_algorithms.c, and the end of p4est_partition_for_coarsening, p4est.c). */
module FamilyCorrection {
  import opened Quadrants
  import opened TwoPass
  import opened FamilyCuts
  import opened MinMax
  import opened PartitionSearch

  /** Rank r has the leaves from part[r] up to part[r + 1]. */
  ghost predicate Offsets(part: seq<int>) {
    |part| >= 2 && part[0] == 0 && forall i, j :: 0 <= i <= j < |part| ==> part[i] <= part[j]
  }

  /** Last leaf of every rank. */
  function LastIndices(part: seq<int>): seq<int>
    requires |part| >= 1
  {
    seq(|part| - 1, i requires 0 <= i < |part| - 1 => part[i + 1] - 1)
  }

  lemma LastIndicesOrdered(part: seq<int>)
    requires Offsets(part)
    ensures |LastIndices(part)| == |part| - 1 && LastIndices(part)[0] >= -1
    ensures Ascending(LastIndices(part)) && LastIndices(part)[|part| - 2] == part[|part| - 1] - 1
  {
    assert part[0] <= part[1];
    forall i, j | 0 <= i <= j < |part| - 1
      ensures LastIndices(part)[i] <= LastIndices(part)[j]
    {
      assert part[i + 1] <= part[j + 1];
    }
  }

  lemma PartInside(part: seq<int>, r: int)
    requires Offsets(part) && 0 <= r < |part| - 1
    ensures 0 <= part[r] <= part[r + 1] <= part[|part| - 1]
  {
    assert part[0] <= part[r];
  }

  /** How many of the leaves lo to hi belong to rank i. */
  function Held(part: seq<int>, lo: int, hi: int, i: int): int
    requires 0 <= i < |part| - 1
  {
    Max(0, Min(hi + 1, part[i + 1]) - Max(lo, part[i]))
  }

  /** The leaves lo to hi that lie in the part of rank i, counted one by one. */
  function Members(part: seq<int>, lo: int, hi: int, i: int): int
    requires 0 <= i < |part| - 1
  {
    CountBetween(part[i], part[i + 1], lo, hi)
  }

  function CountBetween(b: int, e: int, lo: int, hi: int): int
    decreases hi - lo
  {
    if hi < lo then 0 else CountBetween(b, e, lo, hi - 1) + if b <= hi < e then 1 else 0
  }

  lemma {:induction false} HeldIsMembers(part: seq<int>, lo: int, hi: int, i: int)
    requires 0 <= i < |part| - 1
    ensures Held(part, lo, hi, i) == Members(part, lo, hi, i)
    decreases hi - lo
  {
    if lo <= hi {
      HeldIsMembers(part, lo, hi - 1, i);
    }
  }

  /** The lowest rank with most of the leaves lo to hi. */
  ghost predicate Winner(part: seq<int>, lo: int, hi: int, w: int) {
    && 0 <= w < |part| - 1 && Held(part, lo, hi, w) > 0
    && (forall i :: 0 <= i < |part| - 1 ==> Held(part, lo, hi, i) <= Held(part, lo, hi, w))
    && (forall i :: 0 <= i < w ==> Held(part, lo, hi, i) < Held(part, lo, hi, w))
  }

  /** The same with the leaves counted: no rank has more, and no lower one as many. */
  lemma WinnerByCount(part: seq<int>, lo: int, hi: int, w: int)
    ensures Winner(part, lo, hi, w) <==>
              && 0 <= w < |part| - 1 && Members(part, lo, hi, w) > 0
              && (forall i :: 0 <= i < |part| - 1 ==> Members(part, lo, hi, i) <= Members(part, lo, hi, w))
              && forall i :: 0 <= i < w ==> Members(part, lo, hi, i) < Members(part, lo, hi, w)
  {
    hide Members, Held;
    forall i | 0 <= i < |part| - 1
      ensures Held(part, lo, hi, i) == Members(part, lo, hi, i)
    {
      HeldIsMembers(part, lo, hi, i);
    }
  }

  lemma OneWinner(part: seq<int>, lo: int, hi: int, v: int, w: int)
    requires Winner(part, lo, hi, v) && Winner(part, lo, hi, w)
    ensures v == w
  {
    assert Held(part, lo, hi, v) == Held(part, lo, hi, w);
  }

  lemma {:induction false} HolderExists(part: seq<int>, lo: int, hi: int, n: int) returns (r: int)
    requires Offsets(part) && 0 <= lo <= hi && 0 <= n < |part| && lo < part[n]
    ensures 0 <= r < n && Held(part, lo, hi, r) > 0
    decreases n
  {
    if part[n - 1] <= lo {
      r := n - 1;
    } else {
      r := HolderExists(part, lo, hi, n - 1);
    }
  }

  /** Decreasing search: the lowest rank with most leaves among those up to `rank`. */
  method SearchLower(part: seq<int>, rank: int, lo: int, hi: int) returns (winner: int, best: int, ghost down: int)
    requires Offsets(part) && 0 <= rank < |part| - 1 && 0 <= lo <= part[rank] <= hi
    ensures down < winner <= rank && 0 <= winner && best == Held(part, lo, hi, winner) && lo <= part[winner + 1]
    ensures forall j :: 0 <= j <= rank ==> Held(part, lo, hi, j) <= best
    ensures forall j :: 0 <= j && down < j < winner ==> Held(part, lo, hi, j) < best
    ensures forall j :: 0 <= j <= down ==> Held(part, lo, hi, j) == 0
  {
    best := Min(hi, part[rank + 1] - 1) - part[rank] + 1;
    winner := rank;
    var i := rank - 1;
    while lo < part[i + 1]
      invariant -1 <= i < winner <= rank && best == Held(part, lo, hi, winner) && lo <= part[winner + 1]
      invariant forall j :: i < j <= rank ==> Held(part, lo, hi, j) <= best
      invariant forall j :: i < j < winner ==> Held(part, lo, hi, j) < best
      decreases i
    {
      var h := part[i + 1] - Max(lo, part[i]);
      assert h == Held(part, lo, hi, i);
      if best <= h {
        best := h;
        winner := i;
      }
      i := i - 1;
    }
    down := i;
  }

  /** Increasing search from the winner on, for strictly more leaves. */
  method SearchUpper(part: seq<int>, first: int, most: int, lo: int, hi: int) returns (winner: int)
    requires Offsets(part) && 0 <= first < |part| - 1 && hi < part[|part| - 1]
    requires most == Held(part, lo, hi, first) && lo <= part[first + 1]
    ensures first <= winner < |part| - 1
    ensures forall j :: first <= j < |part| - 1 ==> Held(part, lo, hi, j) <= Held(part, lo, hi, winner)
    ensures forall j :: first <= j < winner ==> Held(part, lo, hi, j) < Held(part, lo, hi, winner)
  {
    winner := first;
    var best := most;
    var i := winner + 1;
    while part[i] <= hi
      invariant first <= winner < i < |part| && best == Held(part, lo, hi, winner)
      invariant forall j :: first <= j < i ==> Held(part, lo, hi, j) <= best
      invariant forall j :: first <= j < winner ==> Held(part, lo, hi, j) < best
      decreases |part| - i
    {
      var h := Min(hi, part[i + 1] - 1) - part[i] + 1;
      assert h == Held(part, lo, hi, i);
      if best < h {
        best := h;
        winner := i;
      }
      i := i + 1;
    }
  }

  /** The correction of one rank: every rank whose cut lies in the same family finds the same
      winner, keeps its cut at the start of the family up to the winner and at its end after. */
  method Correction(c: Arity, part: seq<int>, rank: int, lo: int, hi: int) returns (corr: int)
    requires Offsets(part) && 0 <= rank < |part| - 1 && 0 <= lo <= part[rank] <= hi
    requires hi - lo + 1 == c ==> hi < part[|part| - 1]
    ensures Corrects(c, part, rank, lo, hi, corr)
  {
    if hi - lo + 1 != c {
      return 0;
    }
    var first, best, down := SearchLower(part, rank, lo, hi);
    var winner := SearchUpper(part, first, best, lo, hi);
    WinnerFound(part, lo, hi, first, winner, down);
    if winner < rank {
      corr := part[rank] - hi - 1;
    } else {
      corr := part[rank] - lo;
    }
  }

  ghost predicate Corrects(c: Arity, part: seq<int>, rank: int, lo: int, hi: int, corr: int)
    requires 0 <= rank < |part| - 1
  {
    if hi - lo + 1 == c then exists w :: Winner(part, lo, hi, w) && part[rank] - corr == if w < rank then hi + 1 else lo
    else corr == 0
  }

  lemma WinnerFound(part: seq<int>, lo: int, hi: int, first: int, w: int, down: int)
    requires Offsets(part) && 0 <= lo <= hi < part[|part| - 1] && down < first <= w < |part| - 1 && 0 <= first
    requires forall j :: 0 <= j <= first ==> Held(part, lo, hi, j) <= Held(part, lo, hi, first)
    requires forall j :: 0 <= j && down < j < first ==> Held(part, lo, hi, j) < Held(part, lo, hi, first)
    requires forall j :: 0 <= j <= down ==> Held(part, lo, hi, j) == 0
    requires forall j :: first <= j < |part| - 1 ==> Held(part, lo, hi, j) <= Held(part, lo, hi, w)
    requires forall j :: first <= j < w ==> Held(part, lo, hi, j) < Held(part, lo, hi, w)
    ensures Winner(part, lo, hi, w)
  {
    hide Held;
    var r := HolderExists(part, lo, hi, |part| - 1);
    assert Held(part, lo, hi, first) <= Held(part, lo, hi, w);
  }

  // ---------------------------------------------------------------- all ranks together

  /** The partition is one of the leaves s of a forest. */
  ghost predicate Divides(c: Arity, s: seq<Leaf>, part: seq<int>) {
    Contiguous(c, s) && Offsets(part) && part[|part| - 1] == |s|
  }

  ghost predicate CutsFamily(c: Arity, s: seq<Leaf>, cut: int, f: int) {
    f >= 0 && FamilyAt(c, s, f) && f < cut < f + c
  }

  /** The rank that gets the family at f. */
  ghost predicate WinnerOf(c: Arity, part: seq<int>, f: int, w: int) {
    Winner(part, f, f + c - 1, w)
  }

  /** Where the cut of rank r goes. */
  ghost predicate MovesTo(c: Arity, s: seq<Leaf>, part: seq<int>, r: int, cut: int)
    requires 0 <= r < |part|
  {
    && (forall f, w :: CutsFamily(c, s, part[r], f) && WinnerOf(c, part, f, w) ==> cut == if w < r then f + c else f)
    && ((forall f :: !CutsFamily(c, s, part[r], f)) ==> cut == part[r])
  }

  /** The limits lo and hi found for rank r name a family whenever the cut splits one. */
  ghost predicate Recognized(c: Arity, s: seq<Leaf>, cut: int, lo: int, hi: int) {
    && 0 <= lo <= cut <= hi
    && (hi - lo + 1 == c ==> FamilyAt(c, s, lo))
    && forall f :: CutsFamily(c, s, cut, f) ==> lo == f && hi == f + c - 1
  }

  /** The correction computed from recognized limits moves the cut as specified. */
  lemma CorrectionMoves(c: Arity, s: seq<Leaf>, part: seq<int>, r: int, lo: int, hi: int, corr: int)
    requires Divides(c, s, part) && 0 <= r < |part| - 1 && Recognized(c, s, part[r], lo, hi)
    requires Corrects(c, part, r, lo, hi, corr)
    ensures MovesTo(c, s, part, r, part[r] - corr)
  {
    hide FamilyAt, Contiguous;
    forall f, v | CutsFamily(c, s, part[r], f) && WinnerOf(c, part, f, v)
      ensures part[r] - corr == if v < r then f + c else f
    {
      var w :| Winner(part, lo, hi, w) && part[r] - corr == if w < r then hi + 1 else lo;
      OneWinner(part, lo, hi, v, w);
    }
    if forall f :: !CutsFamily(c, s, part[r], f) {
      if hi - lo + 1 == c {
        assert !CutsFamily(c, s, part[r], lo);
        assert part[r] == lo;
        assert forall w :: 0 <= w < r ==> Held(part, lo, hi, w) == 0;
      }
    }
  }

  /** A moved cut splits no family and stays within the leaves. */
  lemma MovedCutsNothing(c: Arity, s: seq<Leaf>, part: seq<int>, r: int, cut: int, f: int)
    requires Divides(c, s, part) && 0 <= r < |part| && MovesTo(c, s, part, r, cut)
    ensures !CutsFamily(c, s, cut, f) && 0 <= cut <= |s|
  {
    hide Contiguous, Winner;
    if g :| CutsFamily(c, s, part[r], g) {
      var w := WinnerExists(c, s, part, g);
      assert cut == g || cut == g + c;
      if f >= 0 && FamilyAt(c, s, f) {
        if f < g {
          FamiliesDisjoint(c, s, f, g);
        } else if g < f {
          FamiliesDisjoint(c, s, g, f);
        }
      }
    } else {
      assert cut == part[r];
      assert !CutsFamily(c, s, part[r], f);
    }
  }

  lemma WinnerExists(c: Arity, s: seq<Leaf>, part: seq<int>, f: int) returns (w: int)
    requires Divides(c, s, part) && f >= 0 && FamilyAt(c, s, f)
    ensures WinnerOf(c, part, f, w)
  {
    w := BestOf(part, f, f + c - 1, |part| - 1);
    var r := HolderExists(part, f, f + c - 1, |part| - 1);
  }

  lemma {:induction false} BestOf(part: seq<int>, lo: int, hi: int, n: int) returns (w: int)
    requires 0 < n < |part|
    ensures 0 <= w < n
    ensures forall i :: 0 <= i < n ==> Held(part, lo, hi, i) <= Held(part, lo, hi, w)
    ensures forall i :: 0 <= i < w ==> Held(part, lo, hi, i) < Held(part, lo, hi, w)
    decreases n
  {
    if n == 1 {
      w := 0;
    } else {
      w := BestOf(part, lo, hi, n - 1);
      if Held(part, lo, hi, w) < Held(part, lo, hi, n - 1) {
        w := n - 1;
      }
    }
  }

  /** Moved cuts stay in order, so no count becomes negative. */
  lemma MovedInOrder(c: Arity, s: seq<Leaf>, part: seq<int>, q: int, r: int, x: int, y: int)
    requires Divides(c, s, part) && 0 <= q <= r < |part| && MovesTo(c, s, part, q, x) && MovesTo(c, s, part, r, y)
    ensures x <= y
  {
    hide Contiguous, Winner, FamilyAt;
    assert part[q] <= part[r];
    if f :| CutsFamily(c, s, part[q], f) {
      var v := WinnerExists(c, s, part, f);
      if g :| CutsFamily(c, s, part[r], g) {
        var w := WinnerExists(c, s, part, g);
        if f == g {
          OneWinner(part, f, f + c - 1, v, w);
        } else if f < g {
          FamiliesDisjoint(c, s, f, g);
        } else {
          FamiliesDisjoint(c, s, g, f);
        }
      } else {
        assert !CutsFamily(c, s, part[r], f) && y == part[r];
      }
    } else {
      assert x == part[q];
      if g :| CutsFamily(c, s, part[r], g) {
        var w := WinnerExists(c, s, part, g);
        assert !CutsFamily(c, s, part[q], g);
      } else {
        assert y == part[r];
      }
    }
  }

  // ---------------------------------------------------------------- applying the corrections

  function CountOf(part: seq<int>, r: int): int
    requires 0 <= r < |part| - 1
  {
    part[r + 1] - part[r]
  }

  lemma OffsetsByCounts(part: seq<int>)
    requires |part| >= 2 && part[0] == 0 && forall i :: 0 <= i < |part| - 1 ==> CountOf(part, i) >= 0
    ensures Offsets(part)
  {
    forall i, j | 0 <= i <= j < |part|
      ensures part[i] <= part[j]
    {
      AscendingFrom(part, i, j);
    }
  }

  lemma {:induction false} AscendingFrom(part: seq<int>, i: int, j: int)
    requires 0 <= i <= j < |part| && forall k :: 0 <= k < |part| - 1 ==> CountOf(part, k) >= 0
    ensures part[i] <= part[j]
    decreases j
  {
    if i < j {
      AscendingFrom(part, i, j - 1);
      assert CountOf(part, j - 1) >= 0;
    }
  }

  ghost function NextFilled(part: seq<int>, r: int): int
    requires 0 <= r < |part|
    decreases |part| - r
  {
    if r == |part| - 1 || part[r] < part[r + 1] then r else NextFilled(part, r + 1)
  }

  lemma {:induction false} NextFilledIs(part: seq<int>, r: int)
    requires Offsets(part) && 0 <= r < |part|
    ensures var n := NextFilled(part, r);
            r <= n < |part| && part[n] == part[r] && (n < |part| - 1 ==> part[n] < part[n + 1])
    decreases |part| - r
  {
    if r < |part| - 1 && part[r] == part[r + 1] {
      NextFilledIs(part, r + 1);
    }
  }

  /** The new first leaf of rank r: an empty rank shares it with the next filled one. */
  ghost function NewCut(part: seq<int>, corr: seq<int>, r: int): int
    requires 0 <= r < |part| == |corr| + 1
  {
    var n := NextFilled(part, r);
    if 0 <= n < |corr| then part[n] - corr[n] else part[|part| - 1]
  }

  ghost predicate AllMove(c: Arity, s: seq<Leaf>, part: seq<int>, corr: seq<int>) {
    |part| == |corr| + 1 && forall r :: 0 <= r < |corr| && part[r] < part[r + 1] ==>
      MovesTo(c, s, part, r, part[r] - corr[r])
  }

  method NextNonEmpty(rank: nat, num: array<int>, ghost part: seq<int>) returns (r: nat)
    requires Offsets(part) && num.Length == |part| - 1
    requires forall j :: rank <= j < num.Length ==> num[..][j] == CountOf(part, j)
    ensures r == if rank < |part| then NextFilled(part, rank) else num.Length
    ensures r <= num.Length
  {
    if rank >= num.Length {
      return num.Length;
    }
    r := rank;
    while r < num.Length && num[r] == 0
      invariant rank <= r <= num.Length && NextFilled(part, rank) == NextFilled(part, r)
    {
      assert num[..][r] == CountOf(part, r);
      r := r + 1;
    }
    assert r < num.Length ==> num[..][r] == CountOf(part, r);
  }

  /** The last loop of p4est_partition_for_coarsening: the counts of all ranks become the
      distances between the moved cuts; the result is how far the cuts have moved. */
  method ApplyCorrections(c: Arity, ghost s: seq<Leaf>, ghost part: seq<int>, corr: seq<int>, num: array<int>)
    returns (moved: int)
    requires Divides(c, s, part) && AllMove(c, s, part, corr) && num.Length == |corr| == |part| - 1
    requires forall j :: 0 <= j < num.Length ==> num[..][j] == CountOf(part, j)
    modifies num
    ensures forall j :: 0 <= j < num.Length ==> num[j] == Final(part, corr, j)
    ensures moved == CorrectionSum(part, corr, num.Length)
  {
    hide AllMove, MovesTo, Divides, NewCut, NextFilled, Final, Offsets, CountOf;
    assert Offsets(part) && part[|part| - 1] == |s| by { SizeOfDivides(c, s, part); }
    var cur: nat := NextNonEmpty(0, num, part);
    NextFilledIs(part, 0);
    FinalBetween(part, corr, num[..], 0, cur);
    assert Progress(part, corr, num[..], cur);
    FirstStays(c, s, part, corr);
    var next: nat := NextNonEmpty(cur + 1, num, part);
    moved := 0;
    SumSkips(part, corr, 0, cur);
    while cur < num.Length
      invariant Progress(part, corr, num[..], cur)
      invariant cur < num.Length ==> part[cur] < part[cur + 1] && next == NextFilled(part, cur + 1)
      invariant moved == CorrectionSum(part, corr, cur)
      decreases num.Length - cur
    {
      ghost var before := num[..];
      CutStep(part, corr, cur, next);
      SumSkips(part, corr, cur + 1, next);
      if 0 < cur && cur < num.Length {
        num[cur] := num[cur] + corr[cur];
        moved := moved + Abs(corr[cur]);
      }
      if next < num.Length {
        num[cur] := num[cur] - corr[next];
      }
      ProgressStep(part, corr, before, num[..], cur, next);
      cur := next;
      next := NextNonEmpty(next + 1, num, part);
    }
  }

  /** How far the cuts of the first n ranks are moved; ranks without leaves do not count. */
  function CorrectionSum(part: seq<int>, corr: seq<int>, n: nat): int
    requires n <= |corr| && n < |part|
  {
    if n == 0 then 0
    else CorrectionSum(part, corr, n - 1) + if part[n - 1] < part[n] then Abs(corr[n - 1]) else 0
  }

  lemma SumSkips(part: seq<int>, corr: seq<int>, a: nat, n: nat)
    requires Offsets(part) && |part| == |corr| + 1 && a <= |corr| && n == NextFilled(part, a)
    ensures a <= n <= |corr| && CorrectionSum(part, corr, n) == CorrectionSum(part, corr, a)
  {
    EmptiesBetween(part, corr, a, n);
    SumSkipsEmpty(part, corr, a, n);
  }

  lemma {:induction false} SumSkipsEmpty(part: seq<int>, corr: seq<int>, a: nat, n: nat)
    requires |part| == |corr| + 1 && a <= n <= |corr| && forall j :: a <= j < n ==> part[j + 1] == part[j]
    ensures CorrectionSum(part, corr, n) == CorrectionSum(part, corr, a)
  {
    if a < n {
      SumSkipsEmpty(part, corr, a, n - 1);
      assert part[n - 1 + 1] == part[n - 1];
    }
  }

  /** Counts before rank cur are final, the others are still the old ones. */
  ghost predicate Progress(part: seq<int>, corr: seq<int>, num: seq<int>, cur: int) {
    && |part| == |corr| + 1 == |num| + 1 && 0 <= cur <= |num|
    && (forall j :: 0 <= j < cur ==> num[j] == Final(part, corr, j))
    && forall j :: cur <= j < |num| ==> num[j] == CountOf(part, j)
  }

  lemma ProgressStep(part: seq<int>, corr: seq<int>, num: seq<int>, num': seq<int>, cur: int, next: int)
    requires Offsets(part) && Progress(part, corr, num, cur) && cur < |num| && next == NextFilled(part, cur + 1)
    requires num' == num[cur := Final(part, corr, cur)]
    ensures Progress(part, corr, num', next)
  {
    hide Final, Offsets;
    FinalBetween(part, corr, num, cur + 1, next);
  }

  ghost function Final(part: seq<int>, corr: seq<int>, j: int): int
    requires 0 <= j < |corr| == |part| - 1
  {
    NewCut(part, corr, j + 1) - NewCut(part, corr, j)
  }

  lemma FinalBetween(part: seq<int>, corr: seq<int>, num: seq<int>, a: int, n: int)
    requires Offsets(part) && |part| == |corr| + 1 == |num| + 1 && 0 <= a <= |corr| && n == NextFilled(part, a)
    requires forall j :: a <= j < |num| ==> num[j] == CountOf(part, j)
    ensures a <= n <= |corr|
    ensures forall j :: a <= j < n ==> num[j] == Final(part, corr, j)
  {
    EmptiesBetween(part, corr, a, n);
    forall j | a <= j < n
      ensures num[j] == Final(part, corr, j)
    {
      assert part[j + 1] == part[j];
    }
  }

  lemma CutStep(part: seq<int>, corr: seq<int>, cur: int, next: int)
    requires Offsets(part) && |part| == |corr| + 1 && 0 <= cur < |corr| && part[cur] < part[cur + 1]
    requires next == NextFilled(part, cur + 1)
    ensures cur < next <= |corr| && (next < |corr| ==> part[next] < part[next + 1])
    ensures Final(part, corr, cur) ==
            CountOf(part, cur) + corr[cur] - if next < |corr| then corr[next] else 0
  {
    NextFilledIs(part, cur + 1);
  }

  lemma SizeOfDivides(c: Arity, s: seq<Leaf>, part: seq<int>)
    requires Divides(c, s, part)
    ensures Offsets(part) && part[|part| - 1] == |s|
  {
  }

  lemma FirstStays(c: Arity, s: seq<Leaf>, part: seq<int>, corr: seq<int>)
    requires Divides(c, s, part) && AllMove(c, s, part, corr)
    ensures part[0] < part[1] ==> corr[0] == 0
    ensures NewCut(part, corr, 0) == 0
  {
    NextFilledIs(part, 0);
    var n := NextFilled(part, 0);
    assert forall f :: !CutsFamily(c, s, part[n], f);
  }

  lemma EmptiesBetween(part: seq<int>, corr: seq<int>, a: int, n: int)
    requires Offsets(part) && |part| == |corr| + 1 && 0 <= a <= |corr| && n == NextFilled(part, a)
    ensures a <= n <= |corr|
    ensures forall j :: a <= j < n ==> part[j + 1] == part[j] && NewCut(part, corr, j + 1) == NewCut(part, corr, j)
  {
    SameNext(part, a, n);
    NextFilledIs(part, a);
  }

  lemma {:induction false} SameNext(part: seq<int>, a: int, n: int)
    requires Offsets(part) && 0 <= a < |part| && n == NextFilled(part, a)
    ensures forall j :: a <= j <= n < |part| ==> NextFilled(part, j) == n
    ensures forall j :: a <= j < n < |part| ==> part[j + 1] == part[j]
    decreases |part| - a
  {
    if n != a {
      SameNext(part, a + 1, n);
    }
  }

  function Sum(num: seq<int>): int {
    if num == [] then 0 else Sum(num[..|num| - 1]) + num[|num| - 1]
  }

  lemma {:induction false} SumsAreCuts(part: seq<int>, corr: seq<int>, num: seq<int>, r: nat)
    requires |part| == |corr| + 1 && |num| == |corr| && r <= |num| && NewCut(part, corr, 0) == 0
    requires forall j :: 0 <= j < |num| ==> num[j] == Final(part, corr, j)
    ensures Sum(num[..r]) == NewCut(part, corr, r)
  {
    if r > 0 {
      SumsAreCuts(part, corr, num, r - 1);
      assert num[..r][..r - 1] == num[..r - 1];
    }
  }

  /** How far the first leaves of the first n ranks have moved from the partition to the
      counts num. */
  function Travel(part: seq<int>, num: seq<int>, n: nat): int
    requires n < |part| && n <= |num|
  {
    if n == 0 then 0
    else Travel(part, num, n - 1) + if part[n - 1] < part[n] then Abs(part[n - 1] - Sum(num[..n - 1])) else 0
  }

  lemma {:induction false} TravelIsCorrectionSum(part: seq<int>, corr: seq<int>, num: seq<int>, n: nat)
    requires |part| == |corr| + 1 && |num| == |corr| && n <= |num| && NewCut(part, corr, 0) == 0
    requires forall j :: 0 <= j < |num| ==> num[j] == Final(part, corr, j)
    ensures Travel(part, num, n) == CorrectionSum(part, corr, n)
  {
    hide Final;
    if n > 0 {
      TravelIsCorrectionSum(part, corr, num, n - 1);
      SumsAreCuts(part, corr, num, n - 1);
    }
  }

  /** After the correction every count is non-negative, the counts still cover all leaves and
      no family is shared between ranks. */
  lemma CorrectedPartition(c: Arity, s: seq<Leaf>, part: seq<int>, corr: seq<int>, num: seq<int>, r: nat, f: int)
    requires Divides(c, s, part) && AllMove(c, s, part, corr) && |num| == |corr|
    requires forall j :: 0 <= j < |num| ==> num[j] == Final(part, corr, j)
    requires r <= |num|
    ensures r < |num| ==> num[r] >= 0
    ensures Sum(num) == |s|
    ensures !CutsFamily(c, s, Sum(num[..r]), f)
  {
    FirstStays(c, s, part, corr);
    SumsAreCuts(part, corr, num, r);
    SumsAreCuts(part, corr, num, |num|);
    assert num[..|num|] == num;
    NewCutMoves(c, s, part, corr, r);
    hide MovesTo;
    MovedCutsNothing(c, s, part, NextFilled(part, r), NewCut(part, corr, r), f);
    if r < |num| {
      NewCutMoves(c, s, part, corr, r + 1);
      NextInOrder(part, r);
      MovedInOrder(c, s, part, NextFilled(part, r), NextFilled(part, r + 1), NewCut(part, corr, r),
                   NewCut(part, corr, r + 1));
    }
  }

  /** Where the new cuts are: a rank with leaves has its cut moved out of the family it splits,
      and left alone otherwise; a rank without leaves gets none; no cut moves by a whole family. */
  lemma CorrectedCuts(c: Arity, s: seq<Leaf>, part: seq<int>, corr: seq<int>, num: seq<int>, r: nat)
    requires Divides(c, s, part) && AllMove(c, s, part, corr) && |num| == |corr| && r <= |num|
    requires forall j :: 0 <= j < |num| ==> num[j] == Final(part, corr, j)
    ensures r < |num| && part[r] < part[r + 1] ==> MovesTo(c, s, part, r, Sum(num[..r]))
    ensures r < |num| && part[r] == part[r + 1] ==> num[r] == 0
    ensures (forall f :: !CutsFamily(c, s, part[r], f)) ==> Sum(num[..r]) == part[r]
    ensures Sum(num[..r]) - part[r] < c && part[r] - Sum(num[..r]) < c
  {
    FirstStays(c, s, part, corr);
    SumsAreCuts(part, corr, num, r);
    NewCutMoves(c, s, part, corr, r);
    NextFilledIs(part, r);
    var n := NextFilled(part, r);
    MovesLittle(c, s, part, n, NewCut(part, corr, r));
    assert r < |num| && part[r] == part[r + 1] ==> n == NextFilled(part, r + 1);
  }

  lemma MovesLittle(c: Arity, s: seq<Leaf>, part: seq<int>, r: int, cut: int)
    requires Divides(c, s, part) && 0 <= r < |part| && MovesTo(c, s, part, r, cut)
    ensures cut - part[r] < c && part[r] - cut < c
    ensures (forall f :: !CutsFamily(c, s, part[r], f)) ==> cut == part[r]
  {
    if f :| CutsFamily(c, s, part[r], f) {
      var w := WinnerExists(c, s, part, f);
    }
  }

  /** The rank with most leaves of a family gets all of it. */
  lemma WinnerGetsFamily(c: Arity, s: seq<Leaf>, part: seq<int>, corr: seq<int>, num: seq<int>, f: int, w: int)
    requires Divides(c, s, part) && AllMove(c, s, part, corr) && |num| == |corr|
    requires forall j :: 0 <= j < |num| ==> num[j] == Final(part, corr, j)
    requires f >= 0 && FamilyAt(c, s, f) && WinnerOf(c, part, f, w)
    ensures Sum(num[..w]) <= f && f + c <= Sum(num[..w + 1])
  {
    FirstStays(c, s, part, corr);
    SumsAreCuts(part, corr, num, w);
    SumsAreCuts(part, corr, num, w + 1);
    NewCutMoves(c, s, part, corr, w);
    NewCutMoves(c, s, part, corr, w + 1);
    NextFilledIs(part, w);
    NextFilledIs(part, w + 1);
    hide AllMove, NewCut, Final;
    assert Held(part, f, f + c - 1, w) > 0;
    assert NextFilled(part, w) == w;
    CutBeside(c, s, part, w, NewCut(part, corr, w), f, w);
    CutBeside(c, s, part, NextFilled(part, w + 1), NewCut(part, corr, w + 1), f, w);
  }

  /** A moved cut up to the winner lies before the family, one behind the winner behind it. */
  lemma CutBeside(c: Arity, s: seq<Leaf>, part: seq<int>, r: int, cut: int, f: int, w: int)
    requires Divides(c, s, part) && 0 <= r < |part| && MovesTo(c, s, part, r, cut)
    requires f >= 0 && FamilyAt(c, s, f) && WinnerOf(c, part, f, w)
    ensures r <= w ==> cut <= f
    ensures r > w ==> f + c <= cut
  {
    hide Contiguous, FamilyAt;
    assert Held(part, f, f + c - 1, w) > 0;
    assert part[w] < f + c && f < part[w + 1];
    assert r <= w ==> part[r] <= part[w];
    assert r > w ==> part[w + 1] <= part[r];
    if !CutsFamily(c, s, part[r], f) {
      if g :| CutsFamily(c, s, part[r], g) {
        var v := WinnerExists(c, s, part, g);
        if f < g {
          FamiliesDisjoint(c, s, f, g);
        } else {
          FamiliesDisjoint(c, s, g, f);
        }
      }
    }
  }

  lemma NextInOrder(part: seq<int>, r: int)
    requires Offsets(part) && 0 <= r < |part| - 1
    ensures 0 <= NextFilled(part, r) <= NextFilled(part, r + 1) < |part|
  {
    NextFilledIs(part, r);
    NextFilledIs(part, r + 1);
  }

  lemma NewCutMoves(c: Arity, s: seq<Leaf>, part: seq<int>, corr: seq<int>, r: int)
    requires Divides(c, s, part) && AllMove(c, s, part, corr) && 0 <= r < |part|
    ensures 0 <= NextFilled(part, r) < |part| && MovesTo(c, s, part, NextFilled(part, r), NewCut(part, corr, r))
  {
    NextFilledIs(part, r);
    assert forall f :: !CutsFamily(c, s, |s|, f);
  }
}
