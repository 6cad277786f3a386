/** New partition boundaries from leaf weights (p4est_partition_ext, p4est.c; the search is
    p4est3_search_lower_bound64, p4est3_search.c; p4est3_weighted_new_boundaries,
    p4est3_partition.c). */
module WeightedPartition {
  import opened FamilyCorrection
  import opened MinMax
  import opened PartitionSearch

  // ---------------------------------------------------------------- search

  /** The first entry that is not below the target, or -1; any guess may start the search. */
  method SearchLowerBound(target: int, a: seq<int>, start: int) returns (guess: int)
    requires Ascending(a) && (a != [] ==> 0 <= start < |a|)
    ensures -1 <= guess < |a|
    ensures guess >= 0 ==> target <= a[guess] && (guess > 0 ==> a[guess - 1] < target)
    ensures guess < 0 <==> forall i :: 0 <= i < |a| ==> a[i] < target
  {
    if |a| == 0 {
      return -1;
    }
    guess := start;
    var low, high := 0, |a| - 1;
    while true
      invariant 0 <= low <= guess <= high < |a|
      invariant forall i :: 0 <= i < low ==> a[i] < target
      invariant high < |a| - 1 ==> target <= a[high]
      decreases high - low
    {
      var cur := a[guess];
      if target <= cur && guess > 0 && target <= a[guess - 1] {
        high := guess - 1;
        guess := (low + high + 1) / 2;
        continue;
      }
      if target > cur {
        low := guess + 1;
        if low > high {
          return -1;
        }
        guess := (low + high) / 2;
        continue;
      }
      break;
    }
  }

  // ---------------------------------------------------------------- weights

  ghost predicate Weights(all: seq<int>) {
    forall i :: 0 <= i < |all| ==> all[i] >= 0
  }

  /** Weight of the first j leaves. */
  function Before(all: seq<int>, j: int): int
    requires 0 <= j <= |all|
  {
    Sum(all[..j])
  }

  lemma BeforeStep(all: seq<int>, j: int)
    requires 0 <= j < |all|
    ensures Before(all, j + 1) == Before(all, j) + all[j]
  {
    assert all[..j + 1][..j] == all[..j];
  }

  lemma {:induction false} BeforeAscends(all: seq<int>, i: int, j: int)
    requires Weights(all) && 0 <= i <= j <= |all|
    ensures Before(all, i) <= Before(all, j)
    decreases j
  {
    if i < j {
      BeforeAscends(all, i, j - 1);
      BeforeStep(all, j - 1);
    }
  }

  lemma {:induction false} BeforeSplits(all: seq<int>, a: int, k: int)
    requires 0 <= a <= a + k <= |all|
    ensures Before(all, a + k) == Before(all, a) + Before(all[a..], k)
    decreases k
  {
    if k > 0 {
      BeforeSplits(all, a, k - 1);
      BeforeStep(all, a + k - 1);
      BeforeStep(all[a..], k - 1);
    } else {
      assert all[a..][..0] == [];
    }
  }

  /** The new boundary for a cut: the first index with at least that much weight before it. */
  ghost predicate IsBound(all: seq<int>, cut: int, j: int) {
    0 <= j <= |all| && Before(all, j) >= cut && (j > 0 ==> Before(all, j - 1) < cut)
  }

  lemma OneBound(all: seq<int>, cut: int, i: int, j: int)
    requires Weights(all) && IsBound(all, cut, i) && IsBound(all, cut, j)
    ensures i == j
  {
    if i < j {
      BeforeAscends(all, i, j - 1);
    } else if j < i {
      BeforeAscends(all, j, i - 1);
    }
  }

  /** Local prefix sums, shifted by the weight of all lower ranks. */
  method LocalWeights(ghost all: seq<int>, ghost first: int, trees: seq<seq<int>>, offset: int)
    returns (local: seq<int>)
    requires 0 <= first && first + |Flat(trees)| <= |all| && Flat(trees) == all[first..first + |Flat(trees)|]
    requires offset == Before(all, first)
    ensures |local| == |Flat(trees)| + 1 && forall k :: 0 <= k < |local| ==> local[k] == Before(all, first + k)
  {
    var sums := [0];
    var nt := 0;
    ghost var flat := Flat(trees);
    FlatPrefix(trees, 0);
    assert flat[..0] == [];
    while nt < |trees|
      invariant 0 <= nt <= |trees| && |sums| == |Flat(trees[..nt])| + 1
      invariant SumsOf(flat, sums) && Flat(trees[..nt]) <= flat
    {
      FlatPrefix(trees, nt);
      ghost var done := |Flat(trees[..nt])|;
      var lz := 0;
      while lz < |trees[nt]|
        invariant 0 <= lz <= |trees[nt]| && |sums| == done + lz + 1 && SumsOf(flat, sums)
      {
        ghost var k := |sums| - 1;
        assert flat[k] == Flat(trees[..nt + 1])[k] == trees[nt][lz];
        BeforeStep(flat, k);
        sums := sums + [sums[|sums| - 1] + trees[nt][lz]];
        lz := lz + 1;
      }
      nt := nt + 1;
    }
    assert trees[..nt] == trees;
    local := AddOffset(all, first, flat, sums, offset);
  }

  /** Shifts the local sums to global ones. */
  method AddOffset(ghost all: seq<int>, ghost first: int, ghost flat: seq<int>, sums: seq<int>, offset: int)
    returns (local: seq<int>)
    requires 0 <= first && first + |flat| <= |all| && flat == all[first..first + |flat|]
    requires SumsOf(flat, sums) && offset == Before(all, first)
    ensures |local| == |sums| && forall k :: 0 <= k < |local| ==> local[k] == Before(all, first + k)
  {
    local := [];
    var k := 0;
    while k < |sums|
      invariant 0 <= k <= |sums| && |local| == k
      invariant forall i :: 0 <= i < k ==> local[i] == Before(all, first + i)
    {
      BeforeSplits(all, first, k);
      assert all[first..][..k] == flat[..k];
      local := local + [sums[k] + offset];
      k := k + 1;
    }
  }

  ghost predicate SumsOf(w: seq<int>, sums: seq<int>) {
    0 < |sums| <= |w| + 1 && forall k :: 0 <= k < |sums| ==> sums[k] == Before(w, k)
  }

  function Flat(trees: seq<seq<int>>): seq<int> {
    if trees == [] then [] else Flat(trees[..|trees| - 1]) + trees[|trees| - 1]
  }

  lemma {:induction false} FlatPrefix(trees: seq<seq<int>>, n: int)
    requires 0 <= n <= |trees|
    ensures Flat(trees[..n]) <= Flat(trees)
    ensures n < |trees| ==>
              trees[..n + 1][..n] == trees[..n] && Flat(trees[..n + 1]) == Flat(trees[..n]) + trees[n] &&
              Flat(trees[..n + 1]) <= Flat(trees)
    decreases |trees| - n
  {
    if n < |trees| {
      assert trees[..n + 1][..n] == trees[..n];
      FlatPrefix(trees, n + 1);
    } else {
      assert trees[..n] == trees;
    }
  }

  // ---------------------------------------------------------------- cuts

  /** p4est_partition_cut_uint64 in exact arithmetic. */
  function Cut(total: int, p: int, num: int): int
    requires 0 <= p <= num && num >= 1 && total >= 0
  {
    if p == num then total else total * p / num
  }

  /** The cut is the share p / num of the total, rounded down. */
  lemma CutIs(total: int, p: int, num: int)
    requires 0 <= p <= num && num >= 1 && total >= 0
    ensures num * Cut(total, p, num) <= total * p < num * (Cut(total, p, num) + 1)
  {
    var x := total * p;
    assert x == num * (x / num) + x % num;
    assert num * (Cut(total, p, num) + 1) == num * Cut(total, p, num) + num;
  }

  lemma CutAscends(total: int, p: int, q: int, num: int)
    requires 0 <= p <= q <= num && num >= 1 && total >= 0
    ensures 0 <= Cut(total, p, num) <= Cut(total, q, num) <= total
    ensures Cut(total, 0, num) == 0
  {
    QuotientAscends(0, total * p, num);
    ProductAscends(total, p, q);
    ProductAscends(total, q, num);
    ProductAscends(total, 0, p);
    QuotientAscends(total * p, total * q, num);
    QuotientAscends(total * q, total * num, num);
    QuotientOfProduct(total, num);
    QuotientOfProduct(0, num);
  }

  lemma ProductAscends(t: int, p: int, q: int)
    requires t >= 0 && p <= q
    ensures t * p <= t * q
  {
    assert t * (q - p) >= 0;
  }

  lemma QuotientAscends(x: int, y: int, n: int)
    requires x <= y && n >= 1
    ensures x / n <= y / n
  {
    var a, b := x / n, y / n;
    assert x == n * a + x % n && y == n * b + y % n;
    assert n * (a - b) == n * a - n * b;
    BelowOne(n, a - b);
  }

  lemma BelowOne(n: int, d: int)
    requires n >= 1 && n * d < n
    ensures d <= 0
  {
    if d >= 1 {
      ProductAscends(n, 1, d);
    }
  }

  lemma QuotientOfProduct(t: int, n: int)
    requires n >= 1
    ensures t * n / n == t
  {
    var y := t * n;
    var d := y / n - t;
    assert y == n * (y / n) + y % n;
    assert n * d == -(y % n);
    assert d >= 1 ==> n * d >= n;
    assert d <= -1 ==> n * d <= -n;
  }

  /** All ranks: leaves from gfq[r] to gfq[r + 1], weight sums before every rank. */
  ghost predicate Ranks(all: seq<int>, gfq: seq<int>, sums: seq<int>) {
    && Weights(all) && Offsets(gfq) && gfq[|gfq| - 1] == |all| && |sums| == |gfq|
    && forall r :: 0 <= r < |gfq| ==> SumAt(all, gfq, sums, r)
  }

  ghost predicate SumAt(all: seq<int>, gfq: seq<int>, sums: seq<int>, r: int)
    requires 0 <= r < |gfq| == |sums|
  {
    0 <= gfq[r] <= |all| && sums[r] == Before(all, gfq[r])
  }

  /** The rank whose weights contain the cut. */
  predicate OwnsCut(sums: seq<int>, r: int, cut: int)
    requires 0 <= r < |sums| - 1
  {
    sums[r] < cut <= sums[r + 1]
  }

  lemma SumsAscend(all: seq<int>, gfq: seq<int>, sums: seq<int>, q: int, r: int)
    requires Ranks(all, gfq, sums) && 0 <= q <= r < |sums|
    ensures sums[q] <= sums[r] && sums[0] == 0 && sums[|sums| - 1] == Before(all, |all|)
  {
    assert SumAt(all, gfq, sums, q) && SumAt(all, gfq, sums, r) && SumAt(all, gfq, sums, 0) &&
           SumAt(all, gfq, sums, |sums| - 1);
    BeforeAscends(all, gfq[q], gfq[r]);
    assert all[..0] == [];
  }

  lemma OneCutOwner(all: seq<int>, gfq: seq<int>, sums: seq<int>, q: int, r: int, cut: int)
    requires Ranks(all, gfq, sums) && 0 <= q < |sums| - 1 && 0 <= r < |sums| - 1 && OwnsCut(sums, q, cut)
    requires OwnsCut(sums, r, cut)
    ensures q == r
  {
    if q < r {
      SumsAscend(all, gfq, sums, q + 1, r);
    } else if r < q {
      SumsAscend(all, gfq, sums, r + 1, q);
    }
  }

  lemma {:induction false} CutOwnerExists(all: seq<int>, gfq: seq<int>, sums: seq<int>, cut: int, n: int)
    returns (r: int)
    requires Ranks(all, gfq, sums) && 0 <= n < |sums| && 0 < cut <= sums[n]
    ensures 0 <= r < n && OwnsCut(sums, r, cut)
    decreases n
  {
    SumsAscend(all, gfq, sums, 0, n);
    if sums[n - 1] < cut {
      r := n - 1;
    } else {
      r := CutOwnerExists(all, gfq, sums, cut, n - 1);
    }
  }

  /** The boundary number i of the new partition. */
  ghost predicate Boundary(all: seq<int>, num: int, i: int, j: int)
    requires 0 <= i <= num && num >= 1 && Before(all, |all|) >= 0
  {
    if i == num then j == |all| else IsBound(all, Cut(Before(all, |all|), i, num), j)
  }

  // ---------------------------------------------------------------- messages

  /** What one rank sends: value i of `low` goes to rank i, value i of `high` to rank i. */
  datatype Sent = Sent(low: map<int, int>, high: map<int, int>)

  ghost predicate SentRight(all: seq<int>, sums: seq<int>, rank: int, num: int, s: Sent)
    requires num >= 1 && |sums| == num + 1 && 0 <= rank < num && Before(all, |all|) >= 0
  {
    && (forall i :: 0 <= i < num ==> LowRight(all, sums, rank, num, s, i))
    && (forall i :: 0 <= i < num ==> HighRight(all, sums, rank, num, s, i))
    && (forall i :: i in s.low ==> 0 <= i < num) && (forall i :: i in s.high ==> 0 <= i < num)
  }

  ghost predicate LowRight(all: seq<int>, sums: seq<int>, rank: int, num: int, s: Sent, i: int)
    requires 0 <= i < num && |sums| == num + 1 && 0 <= rank < num && Before(all, |all|) >= 0
  {
    && (i in s.low <==> OwnsCut(sums, rank, Cut(Before(all, |all|), i, num)))
    && (i in s.low ==> Boundary(all, num, i, s.low[i]))
  }

  ghost predicate HighRight(all: seq<int>, sums: seq<int>, rank: int, num: int, s: Sent, i: int)
    requires 0 <= i < num && |sums| == num + 1 && 0 <= rank < num && Before(all, |all|) >= 0
  {
    && (i in s.high <==> OwnsCut(sums, rank, Cut(Before(all, |all|), i + 1, num)))
    && (i in s.high ==> Boundary(all, num, i + 1, s.high[i]))
  }

  /** Ranks' weights as seen by one of them: its local prefix sums and where it begins. */
  ghost predicate LocalRight(all: seq<int>, gfq: seq<int>, rank: int, local: seq<int>)
    requires 0 <= rank < |gfq| - 1
  {
    && 0 <= gfq[rank] <= gfq[rank + 1] <= |all| && |local| == gfq[rank + 1] - gfq[rank] + 1
    && forall k :: 0 <= k < |local| ==> local[k] == Before(all, gfq[rank] + k)
  }

  lemma LocalAscends(all: seq<int>, gfq: seq<int>, rank: int, local: seq<int>)
    requires Weights(all) && 0 <= rank < |gfq| - 1 && LocalRight(all, gfq, rank, local)
    ensures Ascending(local)
  {
    forall i, j | 0 <= i <= j < |local|
      ensures local[i] <= local[j]
    {
      BeforeAscends(all, gfq[rank] + i, gfq[rank] + j);
    }
  }

  /** The range of cuts that lie in the weights of a rank. */
  method CutRange(ghost all: seq<int>, ghost gfq: seq<int>, sums: seq<int>, rank: int, num: int, total: int)
    returns (lowest: int, highest: int)
    requires Ranks(all, gfq, sums) && num == |sums| - 1 && 0 <= rank < num && total == Before(all, |all|) >= 0
    ensures 1 <= lowest && highest <= num
    ensures forall i :: 1 <= i <= num ==> (lowest <= i <= highest <==> OwnsCut(sums, rank, Cut(total, i, num)))
  {
    lowest, highest := num, 0;
    var any := false;
    var i := 1;
    while i <= num
      invariant 1 <= i <= num + 1 && 1 <= lowest <= num && 0 <= highest < i
      invariant forall j :: 1 <= j < i && OwnsCut(sums, rank, Cut(total, j, num)) ==> any && lowest <= j <= highest
      invariant if any then
                  lowest <= highest && OwnsCut(sums, rank, Cut(total, lowest, num)) &&
                  OwnsCut(sums, rank, Cut(total, highest, num))
                else lowest == num && highest == 0
    {
      var cut := Cut(total, i, num);
      if sums[rank] < cut && cut <= sums[rank + 1] {
        lowest, highest := Min(lowest, i), Max(highest, i);
        if !any {
          assert lowest == i == highest;
        }
        any := true;
      }
      i := i + 1;
    }
    forall j | 1 <= j <= num
      ensures lowest <= j <= highest <==> OwnsCut(sums, rank, Cut(total, j, num))
    {
      if lowest <= j <= highest {
        CutAscends(total, lowest, j, num);
        CutAscends(total, j, highest, num);
      }
    }
  }

  /** The messages of one rank. */
  method PlanSends(ghost all: seq<int>, ghost gfq: seq<int>, sums: seq<int>, rank: int, num: int, total: int,
                   local: seq<int>, firstLocal: int, globalNum: int) returns (s: Sent)
    requires Ranks(all, gfq, sums) && num == |sums| - 1 && 0 <= rank < num && total == Before(all, |all|) >= 0
    requires LocalRight(all, gfq, rank, local) && firstLocal == gfq[rank] && globalNum == |all|
    ensures SentRight(all, sums, rank, num, s)
  {
    hide Before, Cut;
    LocalAscends(all, gfq, rank, local);
    var lowest, highest := CutRange(all, gfq, sums, rank, num, total);
    var low: map<int, int>, high: map<int, int> := map[], map[];
    var lowers := 0;
    var i := lowest;
    while i <= highest
      invariant lowest <= i && 0 <= lowers < |local|
      invariant forall j :: j in low <==> lowest <= j < i && j <= highest && j < num
      invariant forall j :: j in high <==> lowest <= j + 1 < i && j + 1 <= highest
      invariant forall j :: j in low ==> Boundary(all, num, j, low[j])
      invariant forall j :: j in high ==> 0 <= j < num && Boundary(all, num, j + 1, high[j])
    {
      var sendIndex;
      assert OwnsCut(sums, rank, Cut(total, i, num));
      if i < num {
        OwnedCutInside(all, gfq, sums, rank, local, Cut(total, i, num));
        lowers := SearchLowerBound(Cut(total, i, num), local, lowers);
        sendIndex := lowers + firstLocal;
        low := low[i := sendIndex];
      } else {
        lowers := 0;
        sendIndex := globalNum;
      }
      assert Boundary(all, num, i, sendIndex);
      high := high[i - 1 := sendIndex];
      i := i + 1;
    }
    s := Sent(low, high);
    NoCutAtZero(all, gfq, sums, rank, num, total);
  }

  lemma OwnedCutInside(all: seq<int>, gfq: seq<int>, sums: seq<int>, rank: int, local: seq<int>, cut: int)
    requires Ranks(all, gfq, sums) && 0 <= rank < |sums| - 1 && LocalRight(all, gfq, rank, local)
    requires OwnsCut(sums, rank, cut)
    ensures local[0] < cut <= local[|local| - 1]
  {
    assert SumAt(all, gfq, sums, rank) && SumAt(all, gfq, sums, rank + 1);
  }

  lemma NoCutAtZero(all: seq<int>, gfq: seq<int>, sums: seq<int>, rank: int, num: int, total: int)
    requires Ranks(all, gfq, sums) && num == |sums| - 1 && 0 <= rank < num && total >= 0
    ensures !OwnsCut(sums, rank, Cut(total, 0, num))
  {
    CutAscends(total, 0, 0, num);
    SumsAscend(all, gfq, sums, 0, rank);
  }

  /** The rank to receive a cut from: the search goes on from where the lower cut was found. */
  method FindSource(ghost all: seq<int>, ghost gfq: seq<int>, sums: seq<int>, cut: int, start: int)
    returns (source: int)
    requires Ranks(all, gfq, sums) && 0 < cut <= sums[|sums| - 1] && 0 <= start < |sums| - 1
    requires forall r :: 0 <= r < start ==> !OwnsCut(sums, r, cut)
    ensures start <= source < |sums| - 1 && OwnsCut(sums, source, cut)
    ensures forall r :: 0 <= r < |sums| - 1 ==> (OwnsCut(sums, r, cut) <==> r == source)
  {
    ghost var owner := CutOwnerExists(all, gfq, sums, cut, |sums| - 1);
    source := start;
    while !(sums[source] < cut && cut <= sums[source + 1])
      invariant start <= source <= owner && forall r :: 0 <= r < source ==> !OwnsCut(sums, r, cut)
      decreases |sums| - source
    {
      source := source + 1;
    }
    forall r | 0 <= r < |sums| - 1 && OwnsCut(sums, r, cut)
      ensures r == source
    {
      OneCutOwner(all, gfq, sums, r, source, cut);
    }
  }

  /** The new boundaries of one rank, put together from the messages of all ranks. */
  method Receive(ghost all: seq<int>, ghost gfq: seq<int>, sums: seq<int>, rank: int, num: int, total: int,
                 sent: seq<Sent>)
    returns (low: int, high: int)
    requires Ranks(all, gfq, sums) && num == |sums| - 1 && 0 <= rank < num && total == Before(all, |all|) > 0
    requires |sent| == num && forall r :: 0 <= r < num ==> SentRight(all, sums, r, num, sent[r])
    ensures Boundary(all, num, rank, low) && Boundary(all, num, rank + 1, high)
  {
    hide Before, Cut;
    SumsAscend(all, gfq, sums, 0, num);
    CutAscends(total, rank, rank + 1, num);
    var i := 0;
    var lowCut := Cut(total, rank, num);
    if lowCut == 0 {
      low := 0;
      ZeroBoundary(all, num, rank);
    } else {
      i := FindSource(all, gfq, sums, lowCut, i);
      assert SentRight(all, sums, i, num, sent[i]) && LowRight(all, sums, i, num, sent[i], rank);
      low := sent[i].low[rank];
    }
    var highCut := Cut(total, rank + 1, num);
    if highCut == 0 {
      high := 0;
      ZeroBoundary(all, num, rank + 1);
    } else {
      forall r | 0 <= r < i
        ensures !OwnsCut(sums, r, highCut)
      {
        SumsAscend(all, gfq, sums, r + 1, i);
      }
      i := FindSource(all, gfq, sums, highCut, i);
      assert SentRight(all, sums, i, num, sent[i]) && HighRight(all, sums, i, num, sent[i], rank);
      high := sent[i].high[rank];
    }
  }

  lemma ZeroBoundary(all: seq<int>, num: int, i: int)
    requires Weights(all) && 0 <= i <= num && num >= 1 && Before(all, |all|) > 0 && Cut(Before(all, |all|), i, num) == 0
    ensures Boundary(all, num, i, 0)
  {
    assert all[..0] == [];
  }

  // ---------------------------------------------------------------- what the boundaries mean

  /** Boundaries are in order and reach from the first leaf to the last one. */
  lemma BoundariesInOrder(all: seq<int>, num: int, i: int, j: int, x: int, y: int)
    requires Weights(all) && 0 <= i <= j <= num && num >= 1 && Before(all, |all|) > 0
    requires Boundary(all, num, i, x) && Boundary(all, num, j, y)
    ensures 0 <= x <= y <= |all| && (i == 0 ==> x == 0) && (j == num ==> y == |all|)
  {
    hide Before, Cut;
    var total := Before(all, |all|);
    CutAscends(total, i, j, num);
    if i == 0 {
      ZeroBoundary(all, num, 0);
      OneBound(all, Cut(total, 0, num), x, 0);
    }
    if j < num && y < x {
      BeforeAscends(all, y, x - 1);
    }
  }

  /** The weight below a boundary exceeds its cut by less than one leaf. */
  lemma BoundaryWeight(all: seq<int>, num: int, i: int, j: int, most: int)
    requires Weights(all) && 0 <= i <= num && num >= 1 && Before(all, |all|) > 0 && Boundary(all, num, i, j)
    requires most > 0 && forall k :: 0 <= k < |all| ==> all[k] <= most
    ensures 0 <= j <= |all| && 0 <= Before(all, j) - Cut(Before(all, |all|), i, num) < most
  {
    hide Before;
    if i < num {
      if j > 0 {
        BeforeStep(all, j - 1);
      } else {
        CutAscends(Before(all, |all|), 0, i, num);
        NothingBefore(all);
      }
    }
  }

  lemma NothingBefore(all: seq<int>)
    ensures Before(all, 0) == 0
  {
    assert all[..0] == [];
  }

  /** A boundary is the first index below which no less than the share i / num of all weight
      lies, that share rounded down. */
  ghost predicate ReachesShare(all: seq<int>, num: int, i: int, j: int) {
    && 0 <= j <= |all| && Before(all, |all|) * i < num * (Before(all, j) + 1)
    && (j > 0 ==> num * (Before(all, j - 1) + 1) <= Before(all, |all|) * i)
  }

  lemma BoundaryIff(all: seq<int>, num: int, i: int, j: int)
    requires 0 <= i <= num && num >= 1 && Before(all, |all|) >= 0
    ensures Boundary(all, num, i, j) <==> if i == num then j == |all| else ReachesShare(all, num, i, j)
  {
    hide Before, Cut;
    var total := Before(all, |all|);
    var cut := Cut(total, i, num);
    CutIs(total, i, num);
    if 0 <= j <= |all| {
      ShareOrder(total * i, num, cut, Before(all, j));
      if j > 0 {
        ShareOrder(total * i, num, cut, Before(all, j - 1));
      }
    }
  }

  /** Comparing with the rounded quotient of x by num. */
  lemma ShareOrder(x: int, num: int, cut: int, w: int)
    requires num >= 1 && num * cut <= x < num * (cut + 1)
    ensures w >= cut <==> x < num * (w + 1)
  {
    if w >= cut {
      ProductAscends(num, cut + 1, w + 1);
    } else {
      ProductAscends(num, w + 1, cut);
    }
  }

  /** The weight of a rank differs from its fair share of all weight by less than the largest
      weight of a single leaf. */
  lemma FairShare(all: seq<int>, num: int, r: int, x: int, y: int, most: int)
    requires Weights(all) && 0 <= r < num && Before(all, |all|) > 0 && Boundary(all, num, r, x)
    requires Boundary(all, num, r + 1, y)
    requires most > 0 && forall k :: 0 <= k < |all| ==> all[k] <= most
    ensures 0 <= x <= y <= |all|
    ensures -(num * most) < num * (Before(all, y) - Before(all, x)) - Before(all, |all|) < num * most
  {
    hide Before, Cut;
    BoundariesInOrder(all, num, r, r + 1, x, y);
    BoundaryWeight(all, num, r, x, most);
    BoundaryWeight(all, num, r + 1, y, most);
    var total, weight := Before(all, |all|), Before(all, y) - Before(all, x);
    var low, high := Cut(total, r, num), Cut(total, r + 1, num);
    CutIs(total, r, num);
    CutIs(total, r + 1, num);
    ProductAscends(num, weight - (high - low), most - 1);
    ProductAscends(num, 1 - most, weight - (high - low));
    assert num * (weight - (high - low)) == num * weight - num * high + num * low;
    assert num * (most - 1) == num * most - num && num * (1 - most) == num - num * most;
    assert num * (low + 1) == num * low + num && num * (high + 1) == num * high + num;
    assert total * (r + 1) == total * r + total;
  }

  ghost predicate NoneHeavier(all: seq<int>, most: int) {
    forall k :: 0 <= k < |all| ==> all[k] <= most
  }

  /** The leaves of rank r weigh the num-th part of all, give or take less than `most`. */
  ghost predicate IsFair(all: seq<int>, bounds: seq<int>, r: int, most: int)
    requires 0 <= r < |bounds| - 1
  {
    var x, y, num := bounds[r], bounds[r + 1], |bounds| - 1;
    && 0 <= x <= y <= |all|
    && -(num * most) < num * (Before(all, y) - Before(all, x)) - Before(all, |all|) < num * most
  }

  lemma AllFair(all: seq<int>, num: int, bounds: seq<int>, r: int, most: int)
    requires Weights(all) && 0 <= r < num && Before(all, |all|) > 0 && |bounds| == num + 1
    requires forall i :: 0 <= i <= num ==> Boundary(all, num, i, bounds[i])
    ensures ReachesShare(all, num, r, bounds[r])
    ensures NoneHeavier(all, most) ==> IsFair(all, bounds, r, most)
  {
    hide Before, Boundary, ReachesShare;
    SomeWeight(all, |all|);
    BoundaryIff(all, num, r, bounds[r]);
    BoundariesInOrder(all, num, r, r + 1, bounds[r], bounds[r + 1]);
    if NoneHeavier(all, most) {
      FairShare(all, num, r, bounds[r], bounds[r + 1], most);
    }
  }

  /** All ranks together: every rank gets its boundaries, and the counts add up to all leaves. */
  method NewCounts(ghost all: seq<int>, gfq: seq<int>, sums: seq<int>, locals: seq<seq<int>>)
    returns (counts: seq<int>, ghost bounds: seq<int>)
    requires Ranks(all, gfq, sums) && |locals| == |gfq| - 1
    requires forall r :: 0 <= r < |locals| ==> LocalRight(all, gfq, r, locals[r])
    requires Before(all, |all|) > 0
    ensures |counts| == |locals| && |bounds| == |counts| + 1 && bounds[0] == 0 && bounds[|counts|] == |all|
    ensures forall i :: 0 <= i <= |counts| ==> Boundary(all, |counts|, i, bounds[i])
    ensures forall r :: 0 <= r < |counts| ==> CountIs(bounds, counts, r)
  {
    hide Before, Boundary, SentRight;
    var num := |locals|;
    SumsAscend(all, gfq, sums, 0, num);
    var total := sums[num];
    var sent: seq<Sent> := [];
    var r := 0;
    while r < num
      invariant 0 <= r <= num && |sent| == r && forall q :: 0 <= q < r ==> SentRight(all, sums, q, num, sent[q])
    {
      var s := PlanSends(all, gfq, sums, r, num, total, locals[r], gfq[r], gfq[num]);
      sent := sent + [s];
      r := r + 1;
    }
    counts := [];
    var low, high := Receive(all, gfq, sums, 0, num, total, sent);
    bounds := [low];
    r := 0;
    while r < num
      invariant 0 <= r <= num && |counts| == r && |bounds| == r + 1
      invariant forall i :: 0 <= i <= r ==> Boundary(all, num, i, bounds[i])
      invariant forall q :: 0 <= q < r ==> CountIs(bounds, counts, q)
    {
      var a, b := Receive(all, gfq, sums, r, num, total, sent);
      BoundariesInOrder(all, num, r, r, a, bounds[r]);
      BoundariesInOrder(all, num, r, r, bounds[r], a);
      BoundariesInOrder(all, num, r, r + 1, a, b);
      ghost var counts0, bounds0 := counts, bounds;
      counts, bounds := counts + [b - a], bounds + [b];
      forall q | 0 <= q < r + 1
        ensures CountIs(bounds, counts, q)
      {
        if q < r {
          assert CountIs(bounds0, counts0, q);
        }
      }
      r := r + 1;
    }
    BoundariesInOrder(all, num, 0, num, bounds[0], bounds[num]);
  }

  /** The weighted part of p4est_partition_ext: without any weight it does nothing. */
  method WeightedPartition(ghost all: seq<int>, gfq: seq<int>, sums: seq<int>, locals: seq<seq<int>>)
    returns (shipping: bool, counts: seq<int>, ghost bounds: seq<int>)
    requires Ranks(all, gfq, sums) && |locals| == |gfq| - 1
    requires forall r :: 0 <= r < |locals| ==> LocalRight(all, gfq, r, locals[r])
    ensures shipping <==> exists k :: 0 <= k < |all| && all[k] > 0
    ensures Before(all, |all|) >= 0
    ensures shipping ==>
              && |counts| == |locals| && |bounds| == |counts| + 1 && bounds[0] == 0 && bounds[|counts|] == |all|
              && (forall i :: 0 <= i <= |counts| ==> Boundary(all, |counts|, i, bounds[i]))
              && (forall r :: 0 <= r < |counts| ==> CountIs(bounds, counts, r))
              && (forall r :: 0 <= r < |counts| ==> ReachesShare(all, |counts|, r, bounds[r]))
              && forall r, most :: 0 <= r < |counts| && NoneHeavier(all, most) ==> IsFair(all, bounds, r, most)
  {
    hide Before, Boundary, ReachesShare, NoneHeavier, IsFair;
    var num := |locals|;
    SumsAscend(all, gfq, sums, 0, num);
    SomeWeight(all, |all|);
    counts, bounds := [], [];
    shipping := sums[num] != 0;
    if shipping {
      counts, bounds := NewCounts(all, gfq, sums, locals);
      forall r | 0 <= r < num
        ensures ReachesShare(all, num, r, bounds[r])
      {
        AllFair(all, num, bounds, r, 0);
      }
      forall r, most | 0 <= r < num && NoneHeavier(all, most)
        ensures IsFair(all, bounds, r, most)
      {
        AllFair(all, num, bounds, r, most);
      }
    }
  }

  lemma {:induction false} SomeWeight(all: seq<int>, j: int)
    requires Weights(all) && 0 <= j <= |all|
    ensures Before(all, j) >= 0
    ensures Before(all, j) > 0 <==> exists k :: 0 <= k < j && all[k] > 0
  {
    if j > 0 {
      SomeWeight(all, j - 1);
      BeforeStep(all, j - 1);
    }
  }

  ghost predicate CountIs(bounds: seq<int>, counts: seq<int>, q: int)
    requires 0 <= q < |counts| && q + 1 < |bounds|
  {
    counts[q] == bounds[q + 1] - bounds[q] >= 0
  }

  // ---------------------------------------------------------------- the variant with left-closed cuts

  /** p4est3_weighted_new_boundaries: cut i belongs to the rank whose weights contain it,
      the lower end included, and there to the first local index with enough weight. */
  ghost predicate SharedBoundary(all: seq<int>, gfq: seq<int>, sums: seq<int>, num: int, i: int, j: int)
    requires num >= 1 && |sums| == |gfq| == num + 1 && 0 <= i < num && Before(all, |all|) >= 0
  {
    exists r :: 0 <= r < num && FoundIn(all, gfq, sums, Cut(Before(all, |all|), i, num), j, r)
  }

  ghost predicate FoundIn(all: seq<int>, gfq: seq<int>, sums: seq<int>, cut: int, j: int, r: int)
    requires 0 <= r < |sums| - 1 && |sums| == |gfq|
  {
    && HoldsCut(sums, r, cut) && 0 <= gfq[r] <= j <= gfq[r + 1] <= |all|
    && Before(all, j) >= cut && (j > gfq[r] ==> Before(all, j - 1) < cut)
  }

  predicate HoldsCut(sums: seq<int>, r: int, cut: int)
    requires 0 <= r < |sums| - 1
  {
    sums[r] <= cut < sums[r + 1]
  }

  /** The boundaries that one rank writes. */
  method WriteBoundaries(ghost all: seq<int>, gfq: seq<int>, sums: seq<int>, rank: int, num: int, local: seq<int>,
                         goffset: array<int>)
    requires Ranks(all, gfq, sums) && num == |sums| - 1 && 0 <= rank < num && Before(all, |all|) >= 0
    requires LocalRight(all, gfq, rank, local) && goffset.Length == num + 1
    modifies goffset
    ensures Before(all, |all|) == 0 ==> goffset[..] == old(goffset[..])
    ensures forall i :: 0 <= i < num ==>
              if HoldsCut(sums, rank, Cut(Before(all, |all|), i, num)) then
                SharedBoundary(all, gfq, sums, num, i, goffset[i])
              else goffset[i] == old(goffset[i])
    ensures goffset[num] == old(goffset[num])
  {
    hide Before, Cut, FoundIn;
    LocalAscends(all, gfq, rank, local);
    SumsAscend(all, gfq, sums, 0, num);
    var weightSum := sums[num];
    if weightSum == 0 {
      SumsAscend(all, gfq, sums, rank + 1, num);
      forall i | 0 <= i < num
        ensures !HoldsCut(sums, rank, Cut(weightSum, i, num))
      {
        CutAscends(weightSum, i, i, num);
      }
      return;
    }
    var border := 0;
    var i := 0;
    while i < num
      invariant 0 <= i <= num && 0 <= border < |local| && goffset[num] == old(goffset[num])
      invariant forall j :: 0 <= j < i ==>
                  if HoldsCut(sums, rank, Cut(weightSum, j, num)) then
                    SharedBoundary(all, gfq, sums, num, j, goffset[j])
                  else goffset[j] == old(goffset[j])
      invariant forall j :: i <= j < num ==> goffset[j] == old(goffset[j])
    {
      var cut := Cut(weightSum, i, num);
      if !(sums[rank] > cut || cut >= sums[rank + 1]) {
        HeldCutInside(all, gfq, sums, rank, local, cut);
        border := SearchLowerBound(cut, local, border);
        goffset[i] := border + gfq[rank];
        BorderFound(all, gfq, sums, rank, local, cut, border);
        assert SharedBoundary(all, gfq, sums, num, i, goffset[i]);
      }
      i := i + 1;
    }
  }

  lemma HeldCutInside(all: seq<int>, gfq: seq<int>, sums: seq<int>, rank: int, local: seq<int>, cut: int)
    requires Ranks(all, gfq, sums) && 0 <= rank < |sums| - 1 && LocalRight(all, gfq, rank, local)
    requires HoldsCut(sums, rank, cut)
    ensures local[0] <= cut < local[|local| - 1] && |local| > 1
  {
    assert SumAt(all, gfq, sums, rank) && SumAt(all, gfq, sums, rank + 1);
  }

  lemma BorderFound(all: seq<int>, gfq: seq<int>, sums: seq<int>, rank: int, local: seq<int>, cut: int, border: int)
    requires 0 <= rank < |sums| - 1 && |sums| == |gfq| && LocalRight(all, gfq, rank, local) && HoldsCut(sums, rank, cut)
    requires 0 <= border < |local| && cut <= local[border] && (border > 0 ==> local[border - 1] < cut)
    ensures FoundIn(all, gfq, sums, cut, border + gfq[rank], rank)
  {
  }

  lemma CutBelowTotal(total: int, i: int, num: int)
    requires 0 <= i < num && total > 0
    ensures 0 <= Cut(total, i, num) < total
  {
    CutAscends(total, 0, i, num);
    var x, y := total * i, total * i / num;
    assert x == num * y + x % num;
    ProductAscends(total, i, num - 1);
    assert total * (num - 1) == num * total - total;
    if y >= total {
      ProductAscends(num, total, y);
    }
  }

  lemma {:induction false} HolderOfCut(sums: seq<int>, cut: int, n: int) returns (r: int)
    requires 0 <= n < |sums| && sums[0] <= cut < sums[n]
    ensures 0 <= r < n && HoldsCut(sums, r, cut)
    decreases n
  {
    if sums[n - 1] <= cut {
      r := n - 1;
    } else {
      r := HolderOfCut(sums, cut, n - 1);
    }
  }

  /** Every boundary is written, and by one rank only, exactly when some leaf has weight. */
  lemma OneWriterIff(all: seq<int>, gfq: seq<int>, sums: seq<int>, num: int, i: int)
    requires Ranks(all, gfq, sums) && num == |sums| - 1 && 0 <= i < num && Before(all, |all|) >= 0
    ensures var cut := Cut(Before(all, |all|), i, num);
            && ((exists r :: 0 <= r < num && HoldsCut(sums, r, cut)) <==> Before(all, |all|) > 0)
            && forall q, r :: 0 <= q < num && 0 <= r < num && HoldsCut(sums, q, cut) && HoldsCut(sums, r, cut) ==>
                 q == r
  {
    hide Before, Cut, Ranks;
    var total := Before(all, |all|);
    var cut := Cut(total, i, num);
    SumsAscend(all, gfq, sums, 0, num);
    CutAscends(total, i, i, num);
    if total > 0 {
      CutBelowTotal(total, i, num);
      var r := HolderOfCut(sums, cut, num);
    }
    forall r | 0 <= r < num && HoldsCut(sums, r, cut)
      ensures total > 0
    {
      SumsAscend(all, gfq, sums, r + 1, num);
    }
    forall q, r | 0 <= q < num && 0 <= r < num && HoldsCut(sums, q, cut) && HoldsCut(sums, r, cut)
      ensures q == r
    {
      if q < r {
        SumsAscend(all, gfq, sums, q + 1, r);
      } else if r < q {
        SumsAscend(all, gfq, sums, r + 1, q);
      }
    }
  }

  /** All ranks write, in any order, then the array becomes the new offsets.  Without any weight
      these are what the array held before. */
  method NewOffsets(ghost all: seq<int>, gfq: seq<int>, sums: seq<int>, locals: seq<seq<int>>, order: seq<nat>,
                    goffset: array<int>)
    returns (offsets: seq<int>)
    requires Ranks(all, gfq, sums) && |locals| == |sums| - 1 && goffset.Length == |sums|
    requires forall r :: 0 <= r < |locals| ==> LocalRight(all, gfq, r, locals[r])
    requires forall k :: 0 <= k < |order| ==> order[k] < |locals|
    requires forall r :: 0 <= r < |locals| ==> r in order
    requires Before(all, |all|) >= 0
    modifies goffset
    ensures |offsets| == |sums| && offsets[|locals|] == |all|
    ensures Before(all, |all|) > 0 ==>
              forall i :: 0 <= i < |locals| ==> SharedBoundary(all, gfq, sums, |locals|, i, offsets[i])
    ensures Before(all, |all|) == 0 ==> offsets[..|locals|] == old(goffset[..|locals|])
  {
    hide Before, Cut, LocalRight, SharedBoundary, HoldsCut, SumAt;
    ghost var total := Before(all, |all|);
    var num := |locals|;
    var k := 0;
    while k < |order|
      invariant 0 <= k <= |order|
      invariant total == 0 ==> goffset[..] == old(goffset[..])
      invariant forall m, i :: 0 <= m < k && 0 <= i < num && HoldsCut(sums, order[m], Cut(total, i, num)) ==>
                  SharedBoundary(all, gfq, sums, num, i, goffset[i])
    {
      WriteBoundaries(all, gfq, sums, order[k], num, locals[order[k]], goffset);
      k := k + 1;
    }
    offsets := goffset[..num] + [gfq[num]];
    if total > 0 {
      forall i | 0 <= i < num
        ensures SharedBoundary(all, gfq, sums, num, i, offsets[i])
      {
        OneWriterIff(all, gfq, sums, num, i);
        var r :| 0 <= r < num && HoldsCut(sums, r, Cut(total, i, num));
        assert r in order;
      }
    }
  }

  /** The code asserts that the boundary is one of the rank's own leaves.  That is so exactly
      when the cut does not lie inside the last one. */
  lemma BorderIsLocalIff(all: seq<int>, gfq: seq<int>, sums: seq<int>, cut: int, j: int, r: int)
    requires Weights(all) && 0 <= r < |sums| - 1 && |sums| == |gfq| && FoundIn(all, gfq, sums, cut, j, r)
    requires gfq[r] < gfq[r + 1]
    ensures j < gfq[r + 1] <==> cut <= Before(all, gfq[r + 1] - 1)
  {
    if j < gfq[r + 1] {
      BeforeAscends(all, j, gfq[r + 1] - 1);
    }
  }

  /** Two ranks with one leaf each, of weights 3 and 1: the second cut, 2, lies inside the
      only leaf of rank 0, and the boundary found is one past that leaf. */
  lemma BorderPastLastLeaf()
    ensures Ranks([3, 1], [0, 1, 2], [0, 3, 4]) && Before([3, 1], 2) == 4 && Cut(4, 1, 2) == 2
    ensures FoundIn([3, 1], [0, 1, 2], [0, 3, 4], 2, 1, 0) && SharedBoundary([3, 1], [0, 1, 2], [0, 3, 4], 2, 1, 1)
  {
    var all, gfq, sums := [3, 1], [0, 1, 2], [0, 3, 4];
    NothingBefore(all);
    BeforeStep(all, 0);
    BeforeStep(all, 1);
    assert SumAt(all, gfq, sums, 0) && SumAt(all, gfq, sums, 1) && SumAt(all, gfq, sums, 2);
    assert FoundIn(all, gfq, sums, 2, 1, 0);
  }

  /** With weights 1 and 3 the boundary is one past the last leaf of all. */
  lemma BorderBehindAll()
    ensures Ranks([1, 3], [0, 1, 2], [0, 1, 4]) && Before([1, 3], 2) == 4 && Cut(4, 1, 2) == 2
    ensures SharedBoundary([1, 3], [0, 1, 2], [0, 1, 4], 2, 1, 2)
  {
    var all, gfq, sums := [1, 3], [0, 1, 2], [0, 1, 4];
    NothingBefore(all);
    BeforeStep(all, 0);
    BeforeStep(all, 1);
    assert SumAt(all, gfq, sums, 0) && SumAt(all, gfq, sums, 1) && SumAt(all, gfq, sums, 2);
    assert FoundIn(all, gfq, sums, 2, 2, 1);
  }

  /** The first rank that has leaves has leaves of positive weight. */
  ghost predicate FirstLeavesWeigh(gfq: seq<int>, sums: seq<int>, r: int) {
    0 <= r < |sums| - 1 && |sums| == |gfq| && gfq[r] == 0 && sums[r + 1] > 0
  }

  /** Here the first boundary is the first leaf only in that case; otherwise the leaves of
      leading ranks without weight are left out. */
  lemma FirstBoundaryIff(all: seq<int>, gfq: seq<int>, sums: seq<int>, num: int, j: int)
    requires Ranks(all, gfq, sums) && num == |sums| - 1 >= 1 && Before(all, |all|) > 0
    requires SharedBoundary(all, gfq, sums, num, 0, j)
    ensures j == 0 <==> exists r :: FirstLeavesWeigh(gfq, sums, r)
  {
    hide Before;
    CutAscends(Before(all, |all|), 0, 0, num);
    var r :| 0 <= r < num && FoundIn(all, gfq, sums, 0, j, r);
    NothingBefore(all);
    assert SumAt(all, gfq, sums, r);
    if j > gfq[r] {
      BeforeAscends(all, 0, j - 1);
    }
    assert j == gfq[r];
    if j == 0 {
      assert FirstLeavesWeigh(gfq, sums, r);
    }
    if q :| FirstLeavesWeigh(gfq, sums, q) {
      assert SumAt(all, gfq, sums, q);
      if q < r {
        SumsAscend(all, gfq, sums, q + 1, r);
      } else if r < q {
        SumsAscend(all, gfq, sums, r + 1, q);
      }
    }
  }

  /** Two ranks with one leaf each, the first without weight: the new partition starts at
      leaf 1. */
  lemma FirstLeafLeftOut()
    ensures Ranks([0, 1], [0, 1, 2], [0, 0, 1]) && Before([0, 1], 2) == 1
    ensures SharedBoundary([0, 1], [0, 1, 2], [0, 0, 1], 2, 0, 1)
  {
    var all, gfq, sums := [0, 1], [0, 1, 2], [0, 0, 1];
    NothingBefore(all);
    BeforeStep(all, 0);
    BeforeStep(all, 1);
    CutAscends(1, 0, 0, 2);
    assert SumAt(all, gfq, sums, 0) && SumAt(all, gfq, sums, 1) && SumAt(all, gfq, sums, 2);
    assert FoundIn(all, gfq, sums, 0, 1, 1);
  }
}
