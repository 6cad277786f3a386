/** Moving leaves to a new partition (p4est_partition_given, p4est_algorithms.c).  All ranks
    together hold one global sequence of leaves, cut by tree and by rank. */
module PartitionGiven {
  import opened FamilyCorrection
  import opened MinMax
  import opened PartitionSearch
  import Subtrees

  function Clamp(x: int, lo: int, hi: int): int {
    Max(lo, Min(x, hi))
  }

  /** Global index of the first leaf of every tree and of the end. */
  ghost predicate Trees(before: seq<int>) {
    |before| >= 2 && before[0] == 0 && forall t, u :: 0 <= t < u < |before| ==> before[t] < before[u]
  }

  function NumTrees(before: seq<int>): int {
    |before| - 1
  }

  /** The leaves of tree t among those from a up to b. */
  ghost function Slice<Q>(all: seq<Q>, before: seq<int>, t: int, a: int, b: int): (s: seq<Q>)
    requires Trees(before) && before[|before| - 1] == |all| && 0 <= t < |before| - 1 && 0 <= a <= b <= |all|
    ensures |s| == SliceSize(before, t, a, b)
  {
    assert before[t] < before[t + 1];
    all[Clamp(before[t], a, b)..Clamp(before[t + 1], a, b)]
  }

  function SliceSize(before: seq<int>, t: int, a: int, b: int): int
    requires 0 <= t < |before| - 1
  {
    Clamp(before[t + 1], a, b) - Clamp(before[t], a, b)
  }

  // ---------------------------------------------------------------- who sends how much

  /** Leaves of the former part of rank r that belong to the new part of rank i. */
  function Overlap(was: seq<int>, next: seq<int>, r: int, i: int): int
    requires 0 <= r < |was| - 1 && 0 <= i < |next| - 1
  {
    Max(0, Min(was[r + 1], next[i + 1]) - Max(was[r], next[i]))
  }

  /** Leaves from `begin` to `end` that belong to rank i. */
  function CountFor(last: seq<int>, begin: int, end: int, i: int): int
    requires 0 <= i < |last|
  {
    if begin > end then 0 else Max(0, Min(end, last[i]) - FirstFor(last, begin, i) + 1)
  }

  function FirstFor(last: seq<int>, begin: int, i: int): int
    requires 0 <= i < |last|
  {
    Max(begin, if i == 0 then 0 else last[i - 1] + 1)
  }

  /** How many leaves from `begin` to `end` every rank has, and where they begin; `last` are
      the last indices of all ranks.  The ranks from lo to hi are the only ones looked at. */
  method CountPerRank(last: seq<int>, begin: int, end: int, rank: int)
    returns (num: seq<int>, first: seq<int>, lo: int, hi: int)
    requires Ascending(last) && 0 <= rank < |last| && last[0] >= -1
    requires 0 <= begin && (begin <= end ==> end <= last[|last| - 1])
    ensures |num| == |first| == |last| && 0 <= lo <= hi < |last|
    ensures forall i :: 0 <= i < |last| ==> num[i] == CountFor(last, begin, end, i) && (num[i] > 0 ==> lo <= i <= hi)
    ensures forall i :: 0 <= i < |last| && num[i] > 0 ==> first[i] == FirstFor(last, begin, i)
  {
    num, first := seq(|last|, _ => 0), seq(|last|, _ => -1);
    lo, hi := rank, rank;
    if begin <= end {
      var window := FindPartition(last, begin, end);
      lo, hi := window.0, window.1;
      WindowHolds(last, begin, end, lo, hi);
      hide CountFor, FirstFor;
      var i := lo;
      while i <= hi
        invariant lo <= i <= hi + 1 && |num| == |first| == |last|
        invariant forall j :: 0 <= j < |last| && (j < i || j > hi) ==> num[j] == CountFor(last, begin, end, j)
        invariant forall j :: lo <= j < i ==> first[j] == FirstFor(last, begin, j)
        invariant forall j :: i <= j <= hi ==> num[j] == 0
      {
        var lower := if i == 0 then 0 else last[i - 1] + 1;
        InCountWindow(last, begin, end, lo, hi, i);
        if lower <= end && last[i] >= begin {
          num := num[i := Min(end, last[i]) - Max(begin, lower) + 1];
          first := first[i := Max(begin, lower)];
        }
        i := i + 1;
      }
    }
  }

  /** The window of p4est_find_partition leaves out no rank. */
  lemma WindowHolds(last: seq<int>, begin: int, end: int, lo: int, hi: int)
    requires Ascending(last) && last != [] && last[0] >= -1 && 0 <= begin <= end <= last[|last| - 1]
    requires FirstFrom(last, begin, lo) && FirstFrom(last, end, hi)
    ensures 0 <= lo <= hi < |last|
    ensures forall j :: 0 <= j < |last| && !(lo <= j <= hi) ==> CountFor(last, begin, end, j) == 0
  {
    assert hi < |last| && last[hi] >= end;
    assert lo <= hi;
    forall j | 0 <= j < |last| && !(lo <= j <= hi)
      ensures CountFor(last, begin, end, j) == 0
    {
      assert j > hi ==> last[j - 1] >= last[hi] >= end;
    }
  }

  /** Every rank of the window passes the test in the loop. */
  lemma InCountWindow(last: seq<int>, begin: int, end: int, lo: int, hi: int, i: int)
    requires Ascending(last) && last != [] && last[0] >= -1 && 0 <= lo <= i <= hi < |last| && 0 <= begin <= end
    requires FirstFrom(last, begin, lo) && FirstFrom(last, end, hi)
    ensures var lower := if i == 0 then 0 else last[i - 1] + 1;
            && lower <= end && last[i] >= begin && FirstFor(last, begin, i) == Max(begin, lower)
            && CountFor(last, begin, end, i) == Min(end, last[i]) - Max(begin, lower) + 1
  {
  }

  /** What rank r plans to send to i is what rank i plans to receive from r. */
  lemma SendMatchesReceive(was: seq<int>, next: seq<int>, r: int, i: int, sent: int, received: int)
    requires Offsets(was) && Offsets(next) && |was| == |next| && 0 <= r < |was| - 1 && 0 <= i < |was| - 1
    requires sent == CountFor(LastIndices(next), was[r], was[r + 1] - 1, i)
    requires received == CountFor(LastIndices(was), next[i], next[i + 1] - 1, r)
    ensures sent == received == Overlap(was, next, r, i)
  {
    assert was[r] <= was[r + 1] && next[i] <= next[i + 1];
  }

  // ---------------------------------------------------------------- the number of shipped leaves

  /** Leaves that rank i receives from other ranks. */
  function Received(was: seq<int>, next: seq<int>, i: int): int
    requires 0 <= i < |was| - 1 && |was| == |next|
  {
    next[i + 1] - next[i] - Overlap(was, next, i, i)
  }

  function ReceivedBelow(was: seq<int>, next: seq<int>, n: nat): int
    requires n < |was| && |was| == |next|
  {
    if n == 0 then 0 else ReceivedBelow(was, next, n - 1) + Received(was, next, n - 1)
  }

  /** Leaves of the new part of rank i that were below, or at and above, the former cut x. */
  function FromLower(next: seq<int>, i: int, x: int): int
    requires 0 <= i < |next| - 1
  {
    Max(0, Min(x, next[i + 1]) - next[i])
  }

  function FromUpper(next: seq<int>, i: int, x: int): int
    requires 0 <= i < |next| - 1
  {
    Max(0, next[i + 1] - Max(x, next[i]))
  }

  lemma ReceivedFromBothSides(was: seq<int>, next: seq<int>, i: int)
    requires Offsets(was) && Offsets(next) && |was| == |next| && 0 <= i < |was| - 1
    ensures Received(was, next, i) == FromLower(next, i, was[i]) + FromUpper(next, i, was[i + 1])
  {
    assert was[i] <= was[i + 1] && next[i] <= next[i + 1];
  }

  /** The formula over rank boundaries counts every leaf that changes its rank once. */
  method ShippedLeaves(was: seq<int>, counts: seq<int>) returns (next: seq<int>, shipped: int)
    requires Offsets(was) && |was| == |counts| + 1 && (forall i :: 0 <= i < |counts| ==> counts[i] >= 0)
    requires Sum(counts) == was[|was| - 1]
    ensures Offsets(next) && |next| == |was| && next[|next| - 1] == was[|was| - 1]
    ensures forall i :: 0 <= i < |counts| ==> counts[i] == CountOf(next, i)
    ensures shipped == ReceivedBelow(was, next, |counts|)
  {
    hide Received, Offsets;
    FirstOffset(was);
    next, shipped := [0, counts[0]], 0;
    var i := 1;
    assert counts[..1][..0] == [];
    while i < |counts|
      invariant 1 <= i <= |counts| && |next| == i + 1 && next[0] == 0 && next[i] == Sum(counts[..i])
      invariant forall j :: 0 <= j < i ==> CountOf(next, j) == counts[j]
      invariant shipped + FromUpper(next, i - 1, was[i]) == BoundarySum(was, next, i)
    {
      var diff := was[i] - next[i];
      if diff >= 0 {
        shipped := shipped + Min(diff, counts[i]);
      } else {
        shipped := shipped + Min(-diff, counts[i - 1]);
      }
      ghost var before := next;
      assert counts[..i + 1][..i] == counts[..i];
      assert CountOf(next, i - 1) == counts[i - 1];
      next := next + [next[i] + counts[i]];
      BoundarySumSame(was, before, next, i);
      i := i + 1;
    }
    assert counts[..i] == counts;
    OffsetsByCounts(next);
    AllBoundaries(was, next, |counts|);
  }

  lemma FirstOffset(part: seq<int>)
    requires Offsets(part)
    ensures |part| >= 2 && part[0] == 0
  {
  }

  ghost function BoundarySum(was: seq<int>, next: seq<int>, n: nat): int
    requires 1 <= n < |next| <= |was|
  {
    if n == 1 then FromLower(next, 0, 0) + FromUpper(next, 0, was[1])
    else BoundarySum(was, next, n - 1) + FromLower(next, n - 1, was[n - 1]) + FromUpper(next, n - 1, was[n])
  }

  lemma {:induction false} BoundarySumSame(was: seq<int>, a: seq<int>, b: seq<int>, n: nat)
    requires 1 <= n < |a| <= |b| <= |was| && a == b[..|a|]
    ensures BoundarySum(was, a, n) == BoundarySum(was, b, n)
  {
    if n > 1 {
      BoundarySumSame(was, a, b, n - 1);
    }
  }

  lemma {:induction false} AllBoundaries(was: seq<int>, next: seq<int>, n: nat)
    requires Offsets(was) && Offsets(next) && |was| == |next| && 1 <= n < |was|
    ensures BoundarySum(was, next, n) == ReceivedBelow(was, next, n)
  {
    ReceivedFromBothSides(was, next, n - 1);
    if n > 1 {
      AllBoundaries(was, next, n - 1);
    } else {
      assert ReceivedBelow(was, next, 0) == 0;
    }
  }

  // ---------------------------------------------------------------- packing

  /** The partition of one rank: its leaves run from a up to b, its trees from first to last. */
  ghost predicate Owns<Q>(all: seq<Q>, before: seq<int>, a: int, b: int, trees: seq<seq<Q>>, first: int, last: int)
    requires Trees(before) && before[|before| - 1] == |all|
  {
    && 0 <= a <= b <= |all| && |trees| == NumTrees(before)
    && (forall t :: 0 <= t < |trees| ==> trees[t] == Slice(all, before, t, a, b))
    && if a == b then first == -1 && last == -2
       else
         && 0 <= first <= last < NumTrees(before)
         && before[first] <= a < before[first + 1] && before[last] < b <= before[last + 1]
  }

  /** local_tree_last_quad_index: last local index of every local tree. */
  method TreeEnds<Q>(ghost all: seq<Q>, ghost before: seq<int>, a: int, b: int, trees: seq<seq<Q>>, first: int,
                     last: int)
    returns (ends: seq<int>)
    requires Trees(before) && before[|before| - 1] == |all| && Owns(all, before, a, b, trees, first, last)
    ensures |ends| == |trees|
    ensures forall t :: first <= t <= last ==> 0 <= t < |ends| && ends[t] == Clamp(before[t + 1], a, b) - a - 1
  {
    ends := seq(|trees|, _ => 0);
    if first >= 0 {
      ends := ends[first := |trees[first]| - 1];
    }
    var t := first + 1;
    while t <= last
      invariant first + 1 <= t && (t <= last + 1 || t == first + 1) && |ends| == |trees|
      invariant forall u :: first <= u < t && u <= last ==>
                  0 <= u < |ends| && ends[u] == Clamp(before[u + 1], a, b) - a - 1
    {
      ends := ends[t := |trees[t]| + ends[t - 1]];
      t := t + 1;
    }
  }

  /** A message: how many leaves of every tree from `first` on, and the leaves. */
  datatype Parcel<Q> = Parcel(counts: seq<int>, quads: seq<Q>)

  ghost predicate IsParcel<Q>(all: seq<Q>, before: seq<int>, first: int, from: int, to: int, p: Parcel<Q>)
    requires Trees(before) && before[|before| - 1] == |all|
  {
    && 0 <= from <= to <= |all| && p.quads == all[from..to]
    && forall k :: 0 <= k < |p.counts| ==>
         && 0 <= first + k
         && p.counts[k] == if first + k < NumTrees(before) then SliceSize(before, first + k, from, to) else 0
  }

  /** Packs the leaves from `from` up to `to` for another rank; `numTrees` is one more than
      the distance to the first tree of the next rank. */
  method Pack<Q>(ghost all: seq<Q>, ghost before: seq<int>, a: int, b: int, trees: seq<seq<Q>>, first: int, last: int,
                 ends: seq<int>, numTrees: int, from: int, to: int) returns (p: Parcel<Q>)
    requires Trees(before) && before[|before| - 1] == |all| && Owns(all, before, a, b, trees, first, last)
    requires |ends| == |trees| && forall t :: first <= t <= last ==> ends[t] == Clamp(before[t + 1], a, b) - a - 1
    requires a <= from < to <= b && numTrees >= last - first + 1
    ensures |p.counts| == numTrees && IsParcel(all, before, first, from, to, p)
  {
    hide Owns, Trees, Clamp, Slice, SliceSize;
    LocalRange(all, before, a, b, trees, first, last, from, to);
    var counts, quads := seq(numTrees, _ => 0), [];
    var base := a;
    var myBegin, myEnd := from - base, to - 1 - base;
    var t := first;
    while t <= last
      invariant first <= t <= last + 1 && |counts| == numTrees
      invariant from <= myBegin + base == Clamp(before[t], from, to) <= to && quads == all[from..myBegin + base]
      invariant forall k :: 0 <= k < t - first ==> counts[k] == SliceSize(before, first + k, from, to)
      invariant forall k :: t - first <= k < numTrees ==> counts[k] == 0
    {
      var fromBegin := if t == first then 0 else ends[t - 1] + 1;
      var fromEnd := ends[t];
      LocalTree(all, before, a, b, trees, first, last, t, ends);
      TreePart(all, before, a, b, t, from, to, fromBegin, fromEnd);
      if fromBegin <= myEnd && fromEnd >= myBegin {
        var treeFromBegin := Max(myBegin, fromBegin) - fromBegin;
        var treeFromEnd := Min(myEnd, fromEnd) - fromBegin;
        var numCopy := treeFromEnd - treeFromBegin + 1;
        counts := counts[t - first := numCopy];
        TreePartLeaves(all, before, a, b, t, from, to, treeFromBegin);
        JoinSlices(all, from, myBegin + base, myBegin + base + numCopy);
        quads := quads + trees[t][treeFromBegin..treeFromBegin + numCopy];
        myBegin := myBegin + numCopy;
      }
      t := t + 1;
    }
    LaterTrees(before, last, b, from, to);
    p := Parcel(counts, quads);
  }

  lemma LocalRange<Q>(all: seq<Q>, before: seq<int>, a: int, b: int, trees: seq<seq<Q>>, first: int, last: int,
                      from: int, to: int)
    requires Trees(before) && before[|before| - 1] == |all| && Owns(all, before, a, b, trees, first, last)
    requires a <= from < to <= b
    ensures 0 <= a <= b <= |all| && 0 <= first <= last < NumTrees(before) == |trees| && b <= before[last + 1]
    ensures Clamp(before[first], from, to) == from
  {
  }

  lemma LocalTree<Q>(all: seq<Q>, before: seq<int>, a: int, b: int, trees: seq<seq<Q>>, first: int, last: int, t: int,
                     ends: seq<int>)
    requires Trees(before) && before[|before| - 1] == |all| && Owns(all, before, a, b, trees, first, last) && a < b
    requires first <= t <= last && |ends| == |trees|
    requires forall u :: first <= u <= last ==> ends[u] == Clamp(before[u + 1], a, b) - a - 1
    ensures trees[t] == Slice(all, before, t, a, b) && a < before[t + 1] && before[t] < b
    ensures (if t == first then 0 else ends[t - 1] + 1) == Clamp(before[t], a, b) - a
  {
    assert first < t ==> before[first + 1] <= before[t];
    assert t < last ==> before[t] < before[last];
    assert before[t] < before[t + 1];
  }

  lemma JoinSlices<Q>(all: seq<Q>, a: int, m: int, b: int)
    requires 0 <= a <= m <= b <= |all|
    ensures all[a..m] + all[m..b] == all[a..b]
  {
  }

  /** Where a tree lies inside the local leaves and what of it is wanted. */
  lemma TreePart<Q>(all: seq<Q>, before: seq<int>, a: int, b: int, t: int, from: int, to: int, fromBegin: int,
                    fromEnd: int)
    requires Trees(before) && before[|before| - 1] == |all| && 0 <= t < NumTrees(before)
    requires 0 <= a <= from < to <= b <= |all| && a < before[t + 1] && before[t] < b
    requires fromBegin == Clamp(before[t], a, b) - a && fromEnd == Clamp(before[t + 1], a, b) - a - 1
    ensures var myBegin, myEnd := Clamp(before[t], from, to) - a, to - 1 - a;
            && (fromBegin <= myEnd && fromEnd >= myBegin ==>
                  && fromBegin <= myBegin
                  && Min(myEnd, fromEnd) - Max(myBegin, fromBegin) + 1 == SliceSize(before, t, from, to) >= 0
                  && Max(myBegin, fromBegin) - fromBegin == Clamp(before[t], from, to) - Clamp(before[t], a, b))
            && (!(fromBegin <= myEnd && fromEnd >= myBegin) ==> SliceSize(before, t, from, to) == 0)
            && from <= Clamp(before[t], from, to) <= Clamp(before[t + 1], from, to) ==
               Clamp(before[t], from, to) + SliceSize(before, t, from, to) <= to
            && (fromBegin <= myEnd && fromEnd >= myBegin ==> SliceSize(before, t, from, to) > 0)
  {
    assert before[t] < before[t + 1];
  }

  lemma TreePartLeaves<Q>(all: seq<Q>, before: seq<int>, a: int, b: int, t: int, from: int, to: int, skip: int)
    requires Trees(before) && before[|before| - 1] == |all| && 0 <= t < NumTrees(before)
    requires 0 <= a <= from <= to <= b <= |all| && skip == Clamp(before[t], from, to) - Clamp(before[t], a, b)
    requires SliceSize(before, t, from, to) > 0
    ensures 0 <= skip <= skip + SliceSize(before, t, from, to) <= SliceSize(before, t, a, b)
    ensures Slice(all, before, t, a, b)[skip..skip + SliceSize(before, t, from, to)] == Slice(all, before, t, from, to)
    ensures Slice(all, before, t, from, to) ==
            all[Clamp(before[t], from, to)..Clamp(before[t], from, to) + SliceSize(before, t, from, to)]
  {
    assert before[t] < before[t + 1];
    var n, x, y := SliceSize(before, t, from, to), Clamp(before[t], a, b), Clamp(before[t + 1], a, b);
    Subtrees.SliceOfSlice(all, x, y, skip, skip + n);
  }

  lemma LaterTrees(before: seq<int>, last: int, b: int, from: int, to: int)
    requires Trees(before) && 0 <= last < NumTrees(before) && from <= to <= b <= before[last + 1]
    ensures Clamp(before[last + 1], from, to) == to
    ensures forall t :: last < t < NumTrees(before) ==> SliceSize(before, t, from, to) == 0
  {
    forall t | last < t < NumTrees(before)
      ensures SliceSize(before, t, from, to) == 0
    {
      assert before[last + 1] <= before[t] < before[t + 1];
    }
  }

  // ---------------------------------------------------------------- unpacking

  /** First trees of all ranks: right for the ranks that have leaves. */
  ghost predicate FirstTrees(before: seq<int>, was: seq<int>, gfp: seq<int>) {
    && |gfp| == |was|
    && forall f :: 0 <= f < |was| - 1 && was[f] < was[f + 1] ==> StartsAt(before, was, gfp, f)
  }

  ghost predicate StartsAt(before: seq<int>, was: seq<int>, gfp: seq<int>, f: int)
    requires 0 <= f < |was| - 1 && |gfp| == |was|
  {
    && 0 <= gfp[f] < NumTrees(before) && before[gfp[f]] <= was[f] < before[gfp[f] + 1] && gfp[f] <= gfp[f + 1]
    && (gfp[f + 1] < NumTrees(before) ==> was[f + 1] <= before[gfp[f + 1] + 1])
  }

  /** Everything one rank receives, its own share included. */
  ghost predicate Incoming<Q>(all: seq<Q>, before: seq<int>, was: seq<int>, gfp: seq<int>, rank: int, x: int, y: int,
                              num: seq<int>, parcels: seq<Parcel<Q>>)
    requires Trees(before) && before[|before| - 1] == |all|
  {
    && Offsets(was) && was[|was| - 1] == |all| && FirstTrees(before, was, gfp) && 0 <= rank < |was| - 1
    && 0 <= x <= y <= |all|
    && |num| == |parcels| == |was| - 1
    && forall f :: 0 <= f < |num| ==> FromRank(all, before, was, gfp, rank, x, y, f, num[f], parcels[f])
  }

  /** How many of the leaves from x up to y rank f held. */
  function Share(was: seq<int>, x: int, y: int, f: int): int
    requires 0 <= f < |was| - 1
  {
    Max(0, Min(was[f + 1], y) - Max(was[f], x))
  }

  ghost predicate FromRank<Q>(all: seq<Q>, before: seq<int>, was: seq<int>, gfp: seq<int>, rank: int, x: int, y: int,
                              f: int, num: int, p: Parcel<Q>)
    requires Trees(before) && before[|before| - 1] == |all| && 0 <= f < |was| - 1 && |gfp| == |was|
  {
    && num == Share(was, x, y, f)
    && (num > 0 ==> |p.counts| == gfp[f + 1] - gfp[f] + 1
                    && IsParcel(all, before, gfp[f], Max(was[f], x), Min(was[f + 1], y), p))
  }

  lemma SliceSizeAdds(before: seq<int>, t: int, a: int, m: int, b: int)
    requires Trees(before) && 0 <= t < NumTrees(before) && a <= m <= b
    ensures SliceSize(before, t, a, m) + SliceSize(before, t, m, b) == SliceSize(before, t, a, b)
    ensures SliceSize(before, t, a, m) >= 0 && SliceSize(before, t, m, b) >= 0
  {
    assert before[t] < before[t + 1];
  }

  /** What rank f contributes continues where the ranks before it end. */
  lemma ShareContinues<Q>(all: seq<Q>, before: seq<int>, was: seq<int>, gfp: seq<int>, rank: int, x: int, y: int,
                          f: int, num: int, p: Parcel<Q>)
    requires Trees(before) && before[|before| - 1] == |all| && Offsets(was) && was[|was| - 1] == |all|
    requires FirstTrees(before, was, gfp)
    requires 0 <= x <= y <= |all| && 0 <= f < |was| - 1 && FromRank(all, before, was, gfp, rank, x, y, f, num, p)
    ensures var m, n := Clamp(was[f], x, y), Clamp(was[f + 1], x, y);
            && 0 <= x <= m <= n <= y && n - m == num
            && (num > 0 ==> |p.counts| == gfp[f + 1] - gfp[f] + 1 && IsParcel(all, before, gfp[f], m, n, p)
                            && 0 <= gfp[f])
            && (num > 0 ==> forall t :: 0 <= t < NumTrees(before) && !(gfp[f] <= t < gfp[f] + |p.counts|) ==>
                  SliceSize(before, t, m, n) == 0)
  {
    var m, n := Clamp(was[f], x, y), Clamp(was[f + 1], x, y);
    assert was[f] <= was[f + 1];
    if num > 0 {
      assert StartsAt(before, was, gfp, f);
      forall t | 0 <= t < NumTrees(before) && !(gfp[f] <= t < gfp[f] + |p.counts|)
        ensures SliceSize(before, t, m, n) == 0
      {
        OutsideRange(before, t, gfp[f], gfp[f + 1], m, n);
      }
    }
  }

  lemma OutsideRange(before: seq<int>, t: int, first: int, last: int, m: int, n: int)
    requires Trees(before) && 0 <= t < NumTrees(before) && 0 <= first < NumTrees(before) && m <= n
    requires before[first] <= m && (t > last ==> 0 <= last && n <= before[last + 1]) && !(first <= t <= last)
    ensures SliceSize(before, t, m, n) == 0
  {
    assert before[t] < before[t + 1];
    if t < first {
      assert t + 1 < first ==> before[t + 1] < before[first];
    } else {
      assert last + 1 < t ==> before[last + 1] < before[t];
    }
  }

  /** The trees from first to last are those with leaves. */
  ghost predicate TreeRange(total: seq<int>, first: int, last: int) {
    && (forall t :: 0 <= t < |total| && total[t] > 0 ==> first <= t <= last)
    && (if first <= last then 0 <= first && last < |total| && total[first] > 0 && total[last] > 0
        else first >= |total| && last <= 0)
  }

  /** How many leaves of every tree this rank will have, and how many of them come from lower
      ranks. */
  method CountTrees<Q>(ghost all: seq<Q>, ghost before: seq<int>, n: int, was: seq<int>, gfp: seq<int>, rank: int,
                       ghost x: int, ghost y: int, num: seq<int>, parcels: seq<Parcel<Q>>)
    returns (total: seq<int>, lower: seq<int>, first: int, last: int)
    requires Trees(before) && before[|before| - 1] == |all| && n == NumTrees(before)
    requires Incoming(all, before, was, gfp, rank, x, y, num, parcels)
    ensures |total| == |lower| == n && TreeRange(total, first, last)
    ensures forall t :: 0 <= t < n ==> total[t] == SliceSize(before, t, x, y)
    ensures forall t :: 0 <= t < n ==> lower[t] == SliceSize(before, t, x, Clamp(was[rank], x, y))
  {
    hide Clamp, SliceSize, Trees, FromRank, IsParcel, FirstTrees, Offsets, TreeRange;
    assert n >= 1 && |gfp| == |was| by { SomeTrees(before, was, gfp); }
    total, lower := seq(n, _ => 0), seq(n, _ => 0);
    first, last := n, 0;
    var f := 0;
    NoSizes(before, was, n, x, y);
    assert TreeRange(total, first, last) by { NoTrees(total, n); }
    while f < |num|
      invariant 0 <= f <= |num| && TreeRange(total, first, last)
      invariant total == Sizes(before, n, x, Clamp(was[f], x, y))
      invariant lower == Sizes(before, n, x, Clamp(was[if f < rank then f else rank], x, y))
    {
      ghost var from, to := Clamp(was[f], x, y), Clamp(was[f + 1], x, y);
      ShareContinues(all, before, was, gfp, rank, x, y, f, num[f], parcels[f]);
      if num[f] > 0 {
        ParcelAdds(all, before, n, gfp[f], x, from, to, parcels[f]);
        total, lower, first, last := AddCounts(gfp[f], parcels[f].counts, f < rank, total, lower, first, last);
      }
      f := f + 1;
    }
    SizesAtEnd(before, was, n, x, y);
    assert forall t :: 0 <= t < n ==> Sizes(before, n, x, y)[t] == SliceSize(before, t, x, y);
  }

  ghost function Sizes(before: seq<int>, n: int, a: int, b: int): seq<int>
    requires 0 <= n <= |before| - 1
  {
    seq(n, t requires 0 <= t < n => SliceSize(before, t, a, b))
  }

  lemma NoSizes(before: seq<int>, was: seq<int>, n: int, x: int, y: int)
    requires Trees(before) && Offsets(was) && 0 <= n == |before| - 1 && 0 <= x <= y
    ensures Sizes(before, n, x, Clamp(was[0], x, y)) == seq(n, _ => 0)
  {
  }

  lemma SomeTrees(before: seq<int>, was: seq<int>, gfp: seq<int>)
    requires Trees(before) && FirstTrees(before, was, gfp)
    ensures |before| >= 2 && |gfp| == |was|
  {
  }

  lemma NoTrees(total: seq<int>, n: int)
    requires n == |total| && n >= 1 && forall t :: 0 <= t < n ==> total[t] == 0
    ensures TreeRange(total, n, 0)
  {
  }

  lemma SizesAtEnd(before: seq<int>, was: seq<int>, n: int, x: int, y: int)
    requires Offsets(was) && x <= y <= was[|was| - 1]
    ensures Clamp(was[|was| - 1], x, y) == y
  {
  }

  function Added(sizes: seq<int>, first: int, counts: seq<int>): seq<int> {
    seq(|sizes|, t requires 0 <= t < |sizes| =>
      sizes[t] + if first <= t < first + |counts| then counts[t - first] else 0)
  }

  /** The inner loop over the trees of one message. */
  method AddCounts(from: int, counts: seq<int>, below: bool, total0: seq<int>, lower0: seq<int>, first0: int,
                   last0: int)
    returns (total: seq<int>, lower: seq<int>, first: int, last: int)
    requires |total0| == |lower0| && TreeRange(total0, first0, last0)
    requires 0 <= from && forall k :: 0 <= k < |counts| ==> counts[k] >= 0 && (from + k >= |total0| ==> counts[k] == 0)
    requires forall t :: 0 <= t < |total0| ==> total0[t] >= 0
    ensures total == Added(total0, from, counts)
    ensures lower == if below then Added(lower0, from, counts) else lower0
    ensures TreeRange(total, first, last)
  {
    hide TreeRange, Added;
    total, lower, first, last := total0, lower0, first0, last0;
    var it := 0;
    NothingAdded(total0, from);
    NothingAdded(lower0, from);
    while it < |counts|
      invariant 0 <= it <= |counts| && |total| == |lower| == |total0|
      invariant total == Added(total0, from, counts[..it])
      invariant lower == if below then Added(lower0, from, counts[..it]) else lower0
      invariant TreeRange(total, first, last) && forall t :: 0 <= t < |total| ==> total[t] >= 0
    {
      AddedStep(total0, from, counts, it);
      AddedStep(lower0, from, counts, it);
      if counts[it] > 0 {
        var t := from + it;
        RangeGrows(total, first, last, t, counts[it]);
        first, last := Min(first, t), Max(last, t);
        total := total[t := total[t] + counts[it]];
        lower := if below then lower[t := lower[t] + counts[it]] else lower;
      }
      it := it + 1;
    }
    assert counts[..it] == counts;
  }

  lemma NothingAdded(sizes: seq<int>, from: int)
    ensures Added(sizes, from, []) == sizes
  {
  }

  lemma AddedStep(sizes: seq<int>, from: int, counts: seq<int>, it: nat)
    requires 0 <= from && it < |counts| && (from + it >= |sizes| ==> counts[it] == 0) && counts[it] >= 0
    ensures |Added(sizes, from, counts[..it])| == |sizes|
    ensures var a := Added(sizes, from, counts[..it]);
            Added(sizes, from, counts[..it + 1]) ==
              if counts[it] > 0 then a[from + it := a[from + it] + counts[it]] else a
  {
    var a, b := Added(sizes, from, counts[..it]), Added(sizes, from, counts[..it + 1]);
    forall t | 0 <= t < |sizes|
      ensures b[t] == if t == from + it then a[t] + counts[it] else a[t]
    {
    }
  }

  lemma RangeGrows(total: seq<int>, first: int, last: int, t: int, n: int)
    requires TreeRange(total, first, last) && 0 <= t < |total| && n > 0 && total[t] >= 0
    ensures TreeRange(total[t := total[t] + n], Min(first, t), Max(last, t))
  {
  }

  lemma ParcelAdds<Q>(all: seq<Q>, before: seq<int>, n: int, first: int, x: int, from: int, to: int, p: Parcel<Q>)
    requires Trees(before) && before[|before| - 1] == |all| && n == NumTrees(before) && 0 <= first && x <= from <= to
    requires IsParcel(all, before, first, from, to, p)
    requires forall t :: 0 <= t < n && !(first <= t < first + |p.counts|) ==> SliceSize(before, t, from, to) == 0
    ensures Added(Sizes(before, n, x, from), first, p.counts) == Sizes(before, n, x, to)
    ensures forall k :: 0 <= k < |p.counts| ==> p.counts[k] >= 0 && (first + k >= n ==> p.counts[k] == 0)
    ensures forall t :: 0 <= t < n ==> Sizes(before, n, x, from)[t] >= 0
  {
    forall t | 0 <= t < n
      ensures Added(Sizes(before, n, x, from), first, p.counts)[t] == Sizes(before, n, x, to)[t]
      ensures SliceSize(before, t, x, from) >= 0 && SliceSize(before, t, from, to) >= 0
    {
      SliceSizeAdds(before, t, x, from, to);
    }
  }

  // ---------------------------------------------------------------- the leaves that stay

  function Resize<Q>(s: seq<Q>, n: int, junk: Q): (r: seq<Q>)
    requires n >= 0
    ensures |r| == n && forall j :: 0 <= j < n && j < |s| ==> r[j] == s[j]
  {
    if n <= |s| then s[..n] else s + seq(n - |s|, _ => junk)
  }

  function Overwrite<Q>(s: seq<Q>, at: int, part: seq<Q>): (r: seq<Q>)
    requires 0 <= at <= at + |part| <= |s|
    ensures |r| == |s| && r[at..at + |part|] == part
    ensures forall j :: 0 <= j < |s| && !(at <= j < at + |part|) ==> r[j] == s[j]
  {
    s[..at] + part + s[at + |part|..]
  }

  /** Keeps the leaves of one tree that stay here, moves them to their new place and gives
      the array its new size. */
  method KeepTree<Q>(quads: seq<Q>, junk: Q, size: int, fromBegin: int, fromEnd: int, myBegin: int, myEnd: int,
                     target: int)
    returns (r: seq<Q>)
    requires |quads| == fromEnd - fromBegin + 1 && size > 0 && fromBegin >= 0
    requires var n := if fromBegin <= myEnd && fromEnd >= myBegin then
               Min(myEnd, fromEnd) - Max(myBegin, fromBegin) + 1 else 0;
             0 <= n && 0 <= target <= target + n <= size
    ensures |r| == size
    ensures var from := Max(myBegin, fromBegin) - fromBegin;
            var n := Min(myEnd, fromEnd) - Max(myBegin, fromBegin) + 1;
            n > 0 ==> 0 <= from <= from + n <= |quads| && r[target..target + n] == quads[from..from + n]
  {
    var treeFromBegin, treeFromEnd, numCopy := 0, -1, 0;
    if fromBegin <= myEnd && fromEnd >= myBegin {
      treeFromBegin := Max(myBegin, fromBegin) - fromBegin;
      treeFromEnd := Min(myEnd, fromEnd) - fromBegin;
      numCopy := treeFromEnd - treeFromBegin + 1;
    }
    r := quads;
    if size > |quads| {
      r := Resize(r, size, junk);
    }
    if numCopy > 0 {
      r := Overwrite(r, target, quads[treeFromBegin..treeFromBegin + numCopy]);
    }
    if size < |quads| {
      ghost var moved := r;
      r := Resize(r, size, junk);
      assert numCopy > 0 ==> r[target..target + numCopy] == moved[target..target + numCopy];
    }
  }

  /** A tree array on its way: the first u leaves and those from v to w are in place. */
  ghost predicate Partly<Q>(whole: seq<Q>, v: int, w: int, u: int, s: seq<Q>) {
    if |s| == |whole| then forall j :: 0 <= j < |s| && (j < u || v <= j < w) ==> s[j] == whole[j]
    else s == [] && u == 0 && v == w
  }

  ghost predicate PartlyAll<Q>(all: seq<Q>, before: seq<int>, x: int, y: int, from: int, to: int, pos: seq<int>,
                               trees: seq<seq<Q>>)
    requires Trees(before) && before[|before| - 1] == |all| && 0 <= x <= y <= |all|
  {
    && |trees| == |pos| == NumTrees(before)
    && forall t :: 0 <= t < |trees| ==>
         Partly(Slice(all, before, t, x, y), SliceSize(before, t, x, from), SliceSize(before, t, x, to), pos[t],
                trees[t])
  }

  lemma SliceOfSlices<Q>(all: seq<Q>, before: seq<int>, t: int, x: int, from: int, to: int, y: int)
    requires Trees(before) && before[|before| - 1] == |all| && 0 <= t < NumTrees(before)
    requires 0 <= x <= from <= to <= y <= |all|
    ensures 0 <= SliceSize(before, t, x, from) && 0 <= SliceSize(before, t, from, to)
    ensures SliceSize(before, t, x, from) + SliceSize(before, t, from, to) ==
            SliceSize(before, t, x, to) <= SliceSize(before, t, x, y)
    ensures Slice(all, before, t, x, y)[SliceSize(before, t, x, from)..SliceSize(before, t, x, to)] ==
            Slice(all, before, t, from, to)
  {
    SliceSizeAdds(before, t, x, from, to);
    SliceSizeAdds(before, t, x, to, y);
    assert before[t] < before[t + 1];
    if SliceSize(before, t, from, to) > 0 {
      Subtrees.SliceOfSlice(all, Clamp(before[t], x, y), Clamp(before[t + 1], x, y), SliceSize(before, t, x, from),
                            SliceSize(before, t, x, to));
    }
  }

  /** What this rank knows before it rearranges its trees: its own leaves, the part of them
      that stays and the sizes of its new trees. */
  ghost predicate Plan<Q>(all: seq<Q>, before: seq<int>, a: int, b: int, trees: seq<seq<Q>>, first: int, last: int,
                          ends: seq<int>, x: int, y: int, from: int, to: int, begin: int, num: int, total: seq<int>,
                          lower: seq<int>)
    requires Trees(before) && before[|before| - 1] == |all|
  {
    && Owns(all, before, a, b, trees, first, last)
    && |ends| == |trees| && (forall t :: first <= t <= last ==> ends[t] == Clamp(before[t + 1], a, b) - a - 1)
    && 0 <= x <= from <= to <= y <= |all| && num == to - from && (num > 0 ==> begin == from && a <= from && to <= b)
    && total == Sizes(before, NumTrees(before), x, y) && lower == Sizes(before, NumTrees(before), x, from)
  }

  method KeepShare<Q>(ghost all: seq<Q>, ghost before: seq<int>, quads: seq<Q>, junk: Q, ghost a: int, ghost b: int,
                      ghost t: int, ghost x: int, ghost y: int, ghost from: int, ghost to: int, size: int,
                      fromBegin: int, fromEnd: int, myBegin: int, myEnd: int, target: int)
    returns (r: seq<Q>)
    requires Trees(before) && before[|before| - 1] == |all| && 0 <= t < NumTrees(before) && 0 <= a <= b <= |all|
    requires 0 <= x <= from <= to <= y <= |all| && (from < to ==> a <= from && to <= b)
    requires quads == Slice(all, before, t, a, b) && |quads| == fromEnd - fromBegin + 1 && fromBegin >= 0
    requires size == SliceSize(before, t, x, y) > 0 && 0 <= target == SliceSize(before, t, x, from)
    requires var n := if fromBegin <= myEnd && fromEnd >= myBegin then
               Min(myEnd, fromEnd) - Max(myBegin, fromBegin) + 1 else 0;
             && 0 <= n == SliceSize(before, t, from, to) && target + n <= size
             && (n > 0 ==> Max(myBegin, fromBegin) - fromBegin == Clamp(before[t], from, to) - Clamp(before[t], a, b))
    ensures PartlyAt(all, before, x, y, from, to, t, r)
  {
    hide Trees, Clamp, Slice, SliceSize, PartlyAt;
    r := KeepTree(quads, junk, size, fromBegin, fromEnd, myBegin, myEnd, target);
    SharePlaced(all, before, a, b, t, x, y, from, to, fromBegin, fromEnd, r, quads);
  }

  /** One tree: what stays is moved to its place, what does not is dropped. */
  method RearrangeTree<Q>(ghost all: seq<Q>, ghost before: seq<int>, junk: Q, a: int, ghost b: int, trees: seq<seq<Q>>,
                          first: int, last: int, ends: seq<int>, ghost x: int, ghost y: int, ghost from: int,
                          ghost to: int, begin: int, num: int, total: seq<int>, lower: seq<int>, t: int)
    returns (r: seq<Q>)
    requires Trees(before) && before[|before| - 1] == |all| && 0 <= t < NumTrees(before)
    requires Plan(all, before, a, b, trees, first, last, ends, x, y, from, to, begin, num, total, lower)
    ensures PartlyAt(all, before, x, y, from, to, t, r)
  {
    hide Owns, Trees, Clamp, Slice, SliceSize, PartlyAt;
    LocalSizes(all, before, a, b, trees, first, last);
    var myBegin, myEnd := begin - a, begin + num - 1 - a;
    r := trees[t];
    if total[t] > 0 {
      if first <= t <= last {
        KeepsShare(all, before, a, b, trees, first, last, ends, t, x, y, from, to, begin, num);
        var fromBegin := if t == first then 0 else ends[t - 1] + 1;
        r := KeepShare(all, before, trees[t], junk, a, b, t, x, y, from, to, total[t], fromBegin, ends[t], myBegin,
                       myEnd, lower[t]);
      } else {
        NewTree(all, before, a, b, trees, first, last, t, x, y, from, to);
      }
    } else {
      if first <= t <= last {
        r := [];
      } else {
        NotLocal(all, before, a, b, trees, first, last, t);
      }
      NoLeaves(all, before, t, x, y, from, to);
    }
  }

  /** The loop over all trees that are or become local. */
  method KeepLocal<Q>(ghost all: seq<Q>, ghost before: seq<int>, junk: Q, a: int, ghost b: int, trees: seq<seq<Q>>,
                      first: int, last: int, ends: seq<int>, ghost x: int, ghost y: int, ghost from: int,
                      ghost to: int, begin: int, num: int, total: seq<int>, lower: seq<int>, newFirst: int,
                      newLast: int)
    returns (kept: seq<seq<Q>>)
    requires Trees(before) && before[|before| - 1] == |all|
    requires Plan(all, before, a, b, trees, first, last, ends, x, y, from, to, begin, num, total, lower)
    requires NewRange(total, newFirst, newLast)
    ensures PartlyAll(all, before, x, y, from, to, seq(|trees|, _ => 0), kept)
  {
    hide Trees, PartlyAt, PartlyAll, Plan;
    PlanSizes(all, before, a, b, trees, first, last, ends, x, y, from, to, begin, num, total, lower);
    var firstTree := if first >= 0 && newFirst >= 0 then Min(first, newFirst) else Max(first, newFirst);
    var lastTree := Max(last, newLast);
    kept := trees;
    var t := firstTree;
    while t <= lastTree
      invariant firstTree <= t && (t <= lastTree + 1 || t == firstTree) && |kept| == |trees|
      invariant forall u :: 0 <= u < |trees| && firstTree <= u < t && u <= lastTree ==>
                  PartlyAt(all, before, x, y, from, to, u, kept[u])
      invariant forall u :: 0 <= u < |trees| && !(firstTree <= u <= lastTree && u < t) ==> kept[u] == trees[u]
    {
      var r := RearrangeTree(all, before, junk, a, b, trees, first, last, ends, x, y, from, to, begin, num, total,
                             lower, t);
      kept := kept[t := r];
      t := t + 1;
    }
    forall u | 0 <= u < |trees| && !(firstTree <= u <= lastTree)
      ensures PartlyAt(all, before, x, y, from, to, u, kept[u])
    {
      assert total[u] <= 0;
      UntouchedTree(all, before, a, b, trees, first, last, ends, x, y, from, to, begin, num, total, lower, u);
    }
    AllPartly(all, before, x, y, from, to, kept);
  }

  ghost predicate NewRange(total: seq<int>, newFirst: int, newLast: int) {
    if newFirst < 0 then newFirst == -1 && newLast == -2 && (forall t :: 0 <= t < |total| ==> total[t] == 0)
    else newFirst <= newLast < |total| && forall t :: 0 <= t < |total| && total[t] > 0 ==> newFirst <= t <= newLast
  }

  lemma PlanSizes<Q>(all: seq<Q>, before: seq<int>, a: int, b: int, trees: seq<seq<Q>>, first: int, last: int,
                     ends: seq<int>, x: int, y: int, from: int, to: int, begin: int, num: int, total: seq<int>,
                     lower: seq<int>)
    requires Trees(before) && before[|before| - 1] == |all|
    requires Plan(all, before, a, b, trees, first, last, ends, x, y, from, to, begin, num, total, lower)
    ensures |trees| == NumTrees(before) == |total| && 0 <= x <= y <= |all|
    ensures if a == b then first == -1 && last == -2 else 0 <= first <= last < |trees|
  {
    LocalSizes(all, before, a, b, trees, first, last);
  }

  lemma UntouchedTree<Q>(all: seq<Q>, before: seq<int>, a: int, b: int, trees: seq<seq<Q>>, first: int, last: int,
                         ends: seq<int>, x: int, y: int, from: int, to: int, begin: int, num: int, total: seq<int>,
                         lower: seq<int>, t: int)
    requires Trees(before) && before[|before| - 1] == |all| && 0 <= t < NumTrees(before)
    requires Plan(all, before, a, b, trees, first, last, ends, x, y, from, to, begin, num, total, lower)
    requires !(first <= t <= last) && total[t] <= 0
    ensures |trees| == NumTrees(before) && PartlyAt(all, before, x, y, from, to, t, trees[t])
  {
    NotLocal(all, before, a, b, trees, first, last, t);
    NoLeaves(all, before, t, x, y, from, to);
  }

  /** Tree t holds the leaves that stay. */
  ghost predicate PartlyAt<Q>(all: seq<Q>, before: seq<int>, x: int, y: int, from: int, to: int, t: int, s: seq<Q>)
    requires Trees(before) && before[|before| - 1] == |all| && 0 <= x <= y <= |all| && 0 <= t < NumTrees(before)
  {
    Partly(Slice(all, before, t, x, y), SliceSize(before, t, x, from), SliceSize(before, t, x, to), 0, s)
  }

  lemma AllPartly<Q>(all: seq<Q>, before: seq<int>, x: int, y: int, from: int, to: int, trees: seq<seq<Q>>)
    requires Trees(before) && before[|before| - 1] == |all| && 0 <= x <= y <= |all| && |trees| == NumTrees(before)
    requires forall t :: 0 <= t < |trees| ==> PartlyAt(all, before, x, y, from, to, t, trees[t])
    ensures PartlyAll(all, before, x, y, from, to, seq(|trees|, _ => 0), trees)
  {
  }

  lemma LocalSizes<Q>(all: seq<Q>, before: seq<int>, a: int, b: int, trees: seq<seq<Q>>, first: int, last: int)
    requires Trees(before) && before[|before| - 1] == |all| && Owns(all, before, a, b, trees, first, last)
    ensures |trees| == NumTrees(before) && 0 <= a <= b <= |all|
    ensures if a == b then first == -1 && last == -2 else 0 <= first <= last < |trees|
  {
  }

  lemma NotLocal<Q>(all: seq<Q>, before: seq<int>, a: int, b: int, trees: seq<seq<Q>>, first: int, last: int, t: int)
    requires Trees(before) && before[|before| - 1] == |all| && Owns(all, before, a, b, trees, first, last)
    requires 0 <= t < NumTrees(before) && !(first <= t <= last)
    ensures |trees| == NumTrees(before) && trees[t] == []
  {
    assert before[t] < before[t + 1];
    if a < b {
      OutsideRange(before, t, first, last, a, b);
    }
  }

  lemma NoLeaves<Q>(all: seq<Q>, before: seq<int>, t: int, x: int, y: int, from: int, to: int)
    requires Trees(before) && before[|before| - 1] == |all| && 0 <= t < NumTrees(before)
    requires 0 <= x <= from <= to <= y <= |all| && SliceSize(before, t, x, y) <= 0
    ensures PartlyAt(all, before, x, y, from, to, t, [])
  {
  }

  lemma NewTree<Q>(all: seq<Q>, before: seq<int>, a: int, b: int, trees: seq<seq<Q>>, first: int, last: int, t: int,
                   x: int, y: int, from: int, to: int)
    requires Trees(before) && before[|before| - 1] == |all| && Owns(all, before, a, b, trees, first, last)
    requires 0 <= t < NumTrees(before) && !(first <= t <= last)
    requires 0 <= x <= from <= to <= y <= |all| && (from < to ==> a <= from && to <= b)
    ensures |trees| == NumTrees(before) && PartlyAt(all, before, x, y, from, to, t, trees[t])
  {
    NotLocal(all, before, a, b, trees, first, last, t);
    SliceSizeAdds(before, t, x, from, to);
    if from < to {
      SliceSizeAdds(before, t, a, from, to);
      SliceSizeAdds(before, t, a, to, b);
      OutsideRange(before, t, first, last, a, b);
    }
  }

  /** The code's bounds of what stays of a local tree. */
  lemma KeepsShare<Q>(all: seq<Q>, before: seq<int>, a: int, b: int, trees: seq<seq<Q>>, first: int, last: int,
                      ends: seq<int>, t: int, x: int, y: int, from: int, to: int, begin: int, num: int)
    requires Trees(before) && before[|before| - 1] == |all| && Owns(all, before, a, b, trees, first, last)
    requires |ends| == |trees| && forall u :: first <= u <= last ==> ends[u] == Clamp(before[u + 1], a, b) - a - 1
    requires 0 <= x <= from <= to <= y <= |all| && num == to - from
    requires num > 0 ==> begin == from && a <= from && to <= b
    requires first <= t <= last
    ensures var fromBegin := if t == first then 0 else ends[t - 1] + 1;
            var myBegin, myEnd := begin - a, begin + num - 1 - a;
            var n := if fromBegin <= myEnd && ends[t] >= myBegin then
              Min(myEnd, ends[t]) - Max(myBegin, fromBegin) + 1 else 0;
            && 0 <= fromBegin == Clamp(before[t], a, b) - a && |trees[t]| == ends[t] - fromBegin + 1
            && trees[t] == Slice(all, before, t, a, b)
            && n == SliceSize(before, t, from, to) >= 0
            && (n > 0 ==> Max(myBegin, fromBegin) - fromBegin == Clamp(before[t], from, to) - Clamp(before[t], a, b)
                          && num > 0
                          && Min(myEnd, ends[t]) - Max(myBegin, fromBegin) + 1 == n)
            && SliceSize(before, t, x, from) >= 0 && SliceSize(before, t, x, from) + n <= SliceSize(before, t, x, y)
  {
    SliceSizeAdds(before, t, x, from, to);
    SliceSizeAdds(before, t, x, to, y);
    LocalTree(all, before, a, b, trees, first, last, t, ends);
    if num > 0 {
      TreePart(all, before, a, b, t, from, to, Clamp(before[t], a, b) - a, ends[t]);
    }
  }

  lemma SharePlaced<Q>(all: seq<Q>, before: seq<int>, a: int, b: int, t: int, x: int, y: int, from: int, to: int,
                       fromBegin: int, fromEnd: int, r: seq<Q>, quads: seq<Q>)
    requires Trees(before) && before[|before| - 1] == |all| && 0 <= t < NumTrees(before) && 0 <= a <= b <= |all|
    requires quads == Slice(all, before, t, a, b) && |r| == SliceSize(before, t, x, y)
    requires 0 <= x <= from <= to <= y <= |all| && (from < to ==> a <= from && to <= b)
    requires var n, p := SliceSize(before, t, from, to), SliceSize(before, t, x, from);
             var skip := Clamp(before[t], from, to) - Clamp(before[t], a, b);
             n > 0 ==> 0 <= skip <= skip + n <= |quads| && 0 <= p && p + n <= |r|
                       && r[p..p + n] == quads[skip..skip + n]
    ensures PartlyAt(all, before, x, y, from, to, t, r)
  {
    SliceOfSlices(all, before, t, x, from, to, y);
    var whole, n, p := Slice(all, before, t, x, y), SliceSize(before, t, from, to), SliceSize(before, t, x, from);
    if n > 0 {
      TreePartLeaves(all, before, a, b, t, from, to, Clamp(before[t], from, to) - Clamp(before[t], a, b));
      SamePart(r, whole, p, p + n);
    }
  }

  lemma SamePart<Q>(r: seq<Q>, s: seq<Q>, a: int, b: int)
    requires 0 <= a <= b <= |r| && b <= |s| && r[a..b] == s[a..b]
    ensures forall j :: a <= j < b ==> r[j] == s[j]
  {
    forall j | a <= j < b
      ensures r[j] == s[j]
    {
      assert r[a..b][j - a] == s[a..b][j - a];
    }
  }

  // ---------------------------------------------------------------- the leaves that come

  /** Where in a message the leaves of tree t begin. */
  ghost function Skip(before: seq<int>, t: int, from: int, to: int): int
    requires |before| >= 1 && t >= 0
  {
    Clamp(before[Min(t, |before| - 1)], from, to) - from
  }

  lemma SkipStep<Q>(all: seq<Q>, before: seq<int>, first: int, from: int, to: int, p: Parcel<Q>, k: int)
    requires Trees(before) && before[|before| - 1] == |all| && IsParcel(all, before, first, from, to, p) && 0 <= first
    requires 0 <= k < |p.counts|
    ensures 0 <= Skip(before, first + k, from, to) <= Skip(before, first + k + 1, from, to) <= |p.quads|
    ensures Skip(before, first + k + 1, from, to) == Skip(before, first + k, from, to) + p.counts[k]
    ensures p.counts[k] >= 0 && (first + k >= NumTrees(before) ==> p.counts[k] == 0)
    ensures first + k < NumTrees(before) && p.counts[k] > 0 ==>
              p.quads[Skip(before, first + k, from, to)..Skip(before, first + k + 1, from, to)] ==
                Slice(all, before, first + k, from, to)
  {
    if first + k < NumTrees(before) {
      assert before[first + k] < before[first + k + 1];
      Subtrees.SliceOfSlice(all, from, to, Skip(before, first + k, from, to), Skip(before, first + k + 1, from, to));
    }
  }

  /** A chunk of a tree is put behind the leaves that are already there. */
  lemma ChunkPlaced<Q>(whole: seq<Q>, v: int, w: int, u: int, s: seq<Q>, chunk: seq<Q>, junk: Q)
    requires Partly(whole, v, w, u, s) && 0 <= u <= u + |chunk| <= |whole| && chunk == whole[u..u + |chunk|]
    ensures Partly(whole, v, w, u + |chunk|, Overwrite(Resize(s, |whole|, junk), u, chunk))
  {
    var r := Resize(s, |whole|, junk);
    var q := Overwrite(r, u, chunk);
    forall j | 0 <= j < |whole| && (j < u + |chunk| || v <= j < w)
      ensures q[j] == whole[j]
    {
      if u <= j < u + |chunk| {
        assert q[u..u + |chunk|][j - u] == chunk[j - u] == whole[j];
      }
    }
  }

  /** The own share is already in place. */
  lemma OwnPlaced<Q>(whole: seq<Q>, v: int, w: int, s: seq<Q>)
    requires Partly(whole, v, w, v, s)
    ensures Partly(whole, v, w, w, s)
  {
  }

  /** The inner loop over the trees of one message. */
  method CopyParcel<Q>(ghost all: seq<Q>, ghost before: seq<int>, junk: Q, first: int, mine: bool, p: Parcel<Q>,
                       total: seq<int>, ghost x: int, ghost y: int, ghost from: int, ghost to: int, ghost own: int,
                       ghost ownEnd: int, pos0: seq<int>, trees0: seq<seq<Q>>)
    returns (pos: seq<int>, trees: seq<seq<Q>>)
    requires Trees(before) && before[|before| - 1] == |all| && 0 <= x <= from <= to <= y <= |all| && 0 <= first
    requires IsParcel(all, before, first, from, to, p) && Clamp(before[Min(first, |before| - 1)], from, to) == from
    requires total == Sizes(before, NumTrees(before), x, y) && pos0 == Sizes(before, NumTrees(before), x, from)
    requires PartlyAll(all, before, x, y, own, ownEnd, pos0, trees0)
    requires mine ==> own == from && ownEnd == to
    ensures pos == Added(pos0, first, p.counts)
    ensures PartlyAll(all, before, x, y, own, ownEnd, pos, trees)
  {
    hide Trees, Clamp, Slice, SliceSize, IsParcel, Added, Skip, PartlyAll;
    pos, trees := pos0, trees0;
    var it, next := 0, 0;
    NothingAdded(pos0, first);
    SomeTree(before);
    SkipStart(before, first, from, to);
    SizesOfAll(all, before, x, y, own, ownEnd, pos, trees);
    while it < |p.counts|
      invariant 0 <= it <= |p.counts| && next == Skip(before, first + it, from, to) && |pos| == |trees| == |pos0|
      invariant pos == Added(pos0, first, p.counts[..it])
      invariant PartlyAll(all, before, x, y, own, ownEnd, pos, trees)
    {
      var num := p.counts[it];
      SkipStep(all, before, first, from, to, p, it);
      AddedStep(pos0, first, p.counts, it);
      if num > 0 {
        var t := first + it;
        PositionOf(before, x, from, pos0, first, p.counts, it, t);
        if !mine {
          var chunk := p.quads[next..next + num];
          TreePlaced(all, before, junk, x, y, from, to, own, ownEnd, chunk, t, pos, trees, total[t]);
          var resized := Resize(trees[t], total[t], junk);
          trees := trees[t := Overwrite(resized, pos[t], chunk)];
        } else {
          TreeKept(all, before, x, y, from, to, p, it, first, pos, trees);
        }
        pos := pos[t := pos[t] + num];
      }
      next := next + num;
      it := it + 1;
    }
    assert p.counts[..it] == p.counts;
  }

  lemma SomeTree(before: seq<int>)
    requires Trees(before)
    ensures |before| >= 2
  {
  }

  lemma SkipStart(before: seq<int>, first: int, from: int, to: int)
    requires |before| >= 1 && first >= 0 && Clamp(before[Min(first, |before| - 1)], from, to) == from
    ensures Skip(before, first, from, to) == 0
  {
  }

  lemma SizesOfAll<Q>(all: seq<Q>, before: seq<int>, x: int, y: int, own: int, ownEnd: int, pos: seq<int>,
                      trees: seq<seq<Q>>)
    requires Trees(before) && before[|before| - 1] == |all| && 0 <= x <= y <= |all|
    requires PartlyAll(all, before, x, y, own, ownEnd, pos, trees)
    ensures |trees| == |pos| == NumTrees(before)
  {
  }

  lemma PositionOf(before: seq<int>, x: int, from: int, pos0: seq<int>, first: int, counts: seq<int>, it: int, t: int)
    requires |before| >= 1 && pos0 == Sizes(before, |before| - 1, x, from) && 0 <= it < |counts| && t == first + it
    requires 0 <= t < |pos0|
    ensures Added(pos0, first, counts[..it])[t] == SliceSize(before, t, x, from)
  {
  }

  lemma TreePlaced<Q>(all: seq<Q>, before: seq<int>, junk: Q, x: int, y: int, from: int, to: int, own: int, ownEnd: int,
                      chunk: seq<Q>, t: int, pos: seq<int>, trees: seq<seq<Q>>, size: int)
    requires Trees(before) && before[|before| - 1] == |all| && 0 <= x <= from <= to <= y <= |all|
    requires 0 <= t < NumTrees(before)
    requires PartlyAll(all, before, x, y, own, ownEnd, pos, trees) && size == SliceSize(before, t, x, y)
    requires chunk == Slice(all, before, t, from, to) && pos[t] == SliceSize(before, t, x, from)
    ensures t < |pos| == |trees| && 0 <= pos[t] <= pos[t] + |chunk| <= size
    ensures PartlyAll(all, before, x, y, own, ownEnd, pos[t := pos[t] + |chunk|],
                      trees[t := Overwrite(Resize(trees[t], size, junk), pos[t], chunk)])
  {
    hide Partly, Slice, SliceSize, Trees, Resize, Overwrite;
    SliceOfSlices(all, before, t, x, from, to, y);
    ChunkPlaced(Slice(all, before, t, x, y), SliceSize(before, t, x, own), SliceSize(before, t, x, ownEnd), pos[t],
                trees[t], chunk, junk);
  }

  lemma TreeKept<Q>(all: seq<Q>, before: seq<int>, x: int, y: int, from: int, to: int,
                    p: Parcel<Q>, it: int, first: int, pos: seq<int>, trees: seq<seq<Q>>)
    requires Trees(before) && before[|before| - 1] == |all| && 0 <= x <= from <= to <= y <= |all|
    requires IsParcel(all, before, first, from, to, p) && 0 <= it < |p.counts| && 0 <= first
    requires PartlyAll(all, before, x, y, from, to, pos, trees)
    requires p.counts[it] > 0 && 0 <= first + it < NumTrees(before)
    requires pos[first + it] == SliceSize(before, first + it, x, from)
    ensures PartlyAll(all, before, x, y, from, to, pos[first + it := pos[first + it] + p.counts[it]], trees)
  {
    hide Partly, Slice, SliceSize, Trees;
    assert p.counts[it] == SliceSize(before, first + it, from, to);
    var t := first + it;
    SliceSizeAdds(before, t, x, from, to);
    OwnPlaced(Slice(all, before, t, x, y), SliceSize(before, t, x, from), SliceSize(before, t, x, to), trees[t]);
  }

  /** The loop over all messages. */
  method CopyIn<Q>(ghost all: seq<Q>, ghost before: seq<int>, junk: Q, was: seq<int>, gfp: seq<int>, rank: int,
                   ghost x: int, ghost y: int, num: seq<int>, parcels: seq<Parcel<Q>>, total: seq<int>,
                   kept: seq<seq<Q>>)
    returns (trees: seq<seq<Q>>)
    requires Trees(before) && before[|before| - 1] == |all| && Incoming(all, before, was, gfp, rank, x, y, num, parcels)
    requires total == Sizes(before, NumTrees(before), x, y)
    requires PartlyAll(all, before, x, y, Clamp(was[rank], x, y), Clamp(was[rank + 1], x, y),
                       seq(NumTrees(before), _ => 0), kept)
    ensures |trees| == NumTrees(before) && forall t :: 0 <= t < |trees| ==> trees[t] == Slice(all, before, t, x, y)
  {
    hide Clamp, SliceSize, Trees, FromRank, IsParcel, FirstTrees, Offsets, PartlyAll, Slice;
    trees := kept;
    var pos := seq(|total|, _ => 0);
    var f := 0;
    SomeTree(before);
    NoSizes(before, was, |total|, x, y);
    while f < |num|
      invariant 0 <= f <= |num| && |pos| == |total|
      invariant pos == Sizes(before, |total|, x, Clamp(was[f], x, y))
      invariant PartlyAll(all, before, x, y, Clamp(was[rank], x, y), Clamp(was[rank + 1], x, y), pos, trees)
    {
      ghost var from, to := Clamp(was[f], x, y), Clamp(was[f + 1], x, y);
      assert |gfp| == |was| by { SomeTrees(before, was, gfp); }
      ShareContinues(all, before, was, gfp, rank, x, y, f, num[f], parcels[f]);
      if num[f] > 0 {
        ParcelAdds(all, before, |total|, gfp[f], x, from, to, parcels[f]);
        ParcelStart(before, was, gfp, f, x, y);
        pos, trees := CopyParcel(all, before, junk, gfp[f], f == rank, parcels[f], total, x, y, from, to,
                                 Clamp(was[rank], x, y), Clamp(was[rank + 1], x, y), pos, trees);
      }
      f := f + 1;
    }
    SizesAtEnd(before, was, |total|, x, y);
    AllPlaced(all, before, x, y, Clamp(was[rank], x, y), Clamp(was[rank + 1], x, y), pos, trees);
  }

  lemma ParcelStart(before: seq<int>, was: seq<int>, gfp: seq<int>, f: int, x: int, y: int)
    requires Trees(before) && FirstTrees(before, was, gfp) && Offsets(was) && 0 <= f < |was| - 1 && x <= y
    requires Clamp(was[f], x, y) < Clamp(was[f + 1], x, y)
    ensures Clamp(before[Min(gfp[f], |before| - 1)], Clamp(was[f], x, y), Clamp(was[f + 1], x, y)) ==
            Clamp(was[f], x, y)
  {
    assert StartsAt(before, was, gfp, f);
  }

  lemma AllPlaced<Q>(all: seq<Q>, before: seq<int>, x: int, y: int, own: int, ownEnd: int, pos: seq<int>,
                     trees: seq<seq<Q>>)
    requires Trees(before) && before[|before| - 1] == |all| && 0 <= x <= y <= |all|
    requires PartlyAll(all, before, x, y, own, ownEnd, pos, trees)
    requires pos == Sizes(before, NumTrees(before), x, y)
    ensures |trees| == NumTrees(before) && forall t :: 0 <= t < |trees| ==> trees[t] == Slice(all, before, t, x, y)
  {
    forall t | 0 <= t < |trees|
      ensures trees[t] == Slice(all, before, t, x, y)
    {
      assert pos[t] == SliceSize(before, t, x, y);
      assert Partly(Slice(all, before, t, x, y), SliceSize(before, t, x, own), SliceSize(before, t, x, ownEnd), pos[t],
                    trees[t]);
    }
  }

  // ---------------------------------------------------------------- one rank from start to end

  class RankForest<Q> {
    var trees: seq<seq<Q>>
    var firstTree: int
    var lastTree: int

    constructor (trees: seq<seq<Q>>, firstTree: int, lastTree: int)
      ensures this.trees == trees && this.firstTree == firstTree && this.lastTree == lastTree
    {
      this.trees, this.firstTree, this.lastTree := trees, firstTree, lastTree;
    }

    /** The message of this rank for another one. */
    method SendTo(ghost all: seq<Q>, ghost before: seq<int>, was: seq<int>, next: seq<int>, gfp: seq<int>, rank: int,
                  to: int)
      returns (p: Parcel<Q>)
      requires Trees(before) && before[|before| - 1] == |all| && Offsets(was) && Offsets(next) && |was| == |next|
      requires FirstTrees(before, was, gfp)
      requires 0 <= rank < |was| - 1 && 0 <= to < |was| - 1 && was[|was| - 1] == next[|next| - 1] == |all|
      requires Owns(all, before, was[rank], was[rank + 1], trees, firstTree, lastTree)
      requires Overlap(was, next, rank, to) > 0
      ensures FromRank(all, before, was, gfp, to, next[to], next[to + 1], rank, Overlap(was, next, rank, to), p)
    {
      hide Owns, Trees, Clamp, Slice, SliceSize, FirstTrees, IsParcel, Offsets;
      var base := was[rank];
      SendRange(before, was, next, gfp, rank, to);
      SendersTrees(all, before, was, gfp, rank, trees, firstTree, lastTree);
      LastIndicesOrdered(next);
      PartInside(was, rank);
      var ends := TreeEnds(all, before, base, was[rank + 1], trees, firstTree, lastTree);
      var num, begin, lo, hi := CountPerRank(LastIndices(next), base, was[rank + 1] - 1, rank);
      p := Pack(all, before, base, was[rank + 1], trees, firstTree, lastTree, ends, gfp[rank + 1] - gfp[rank] + 1,
                begin[to], begin[to] + num[to]);
    }

    /** After all messages have come, this rank holds exactly its new part of every tree. */
    method Repartition(ghost all: seq<Q>, ghost before: seq<int>, junk: Q, n: int, was: seq<int>, next: seq<int>,
                       gfp: seq<int>, rank: int, parcels: seq<Parcel<Q>>)
      requires Trees(before) && before[|before| - 1] == |all| && n == NumTrees(before)
      requires Offsets(next) && |was| == |next| && next[|next| - 1] == |all| && 0 <= rank < |was| - 1
      requires Delivered(all, before, was, gfp, rank, next[rank], next[rank + 1], parcels)
      requires Owns(all, before, was[rank], was[rank + 1], trees, firstTree, lastTree)
      modifies this
      ensures Owns(all, before, next[rank], next[rank + 1], trees, firstTree, lastTree)
    {
      hide Owns, Trees, Clamp, Slice, SliceSize, PartlyAll, FromRank, FirstTrees, Plan, CountFor, FirstFor;
      ghost var x, y, from, to := next[rank], next[rank + 1], Clamp(was[rank], next[rank], next[rank + 1]),
          Clamp(was[rank + 1], next[rank], next[rank + 1]);
      LastIndicesOrdered(was);
      LastIndicesOrdered(next);
      PartInside(was, rank);
      PartInside(next, rank);
      var ends := TreeEnds(all, before, was[rank], was[rank + 1], trees, firstTree, lastTree);
      var num, w, fromBegin, fromEnd := CountPerRank(LastIndices(was), next[rank], next[rank + 1] - 1, rank);
      var sent, begin, toBegin, toEnd := CountPerRank(LastIndices(next), was[rank], was[rank + 1] - 1, rank);
      SharesCounted(all, before, was, gfp, rank, x, y, num, parcels);
      var total, lower, first, last := CountTrees(all, before, n, was, gfp, rank, x, y, num, parcels);
      if first > last {
        assert forall t :: 0 <= t < n ==> total[t] <= 0;
        first, last := -1, -2;
      }
      assert total == Sizes(before, n, x, y) && lower == Sizes(before, n, x, from);
      assert NewRange(total, first, last) by { RangeIsNew(before, n, x, y, total, first, last); }
      PlanReady(all, before, was, next, rank, trees, firstTree, lastTree, ends, begin[rank], sent[rank], total, lower);
      var kept := KeepLocal(all, before, junk, was[rank], was[rank + 1], trees, firstTree, lastTree, ends,
                            x, y, from, to, begin[rank], sent[rank], total, lower, first, last);
      SameLength(all, before, was[rank], was[rank + 1], trees, firstTree, lastTree);
      trees := CopyIn(all, before, junk, was, gfp, rank, x, y, num, parcels, total, kept);
      firstTree, lastTree := first, last;
      NewOwner(all, before, x, y, trees, total, first, last);
    }
  }

  lemma SendRange(before: seq<int>, was: seq<int>, next: seq<int>, gfp: seq<int>, rank: int, to: int)
    requires Trees(before) && Offsets(was) && Offsets(next) && |was| == |next| && FirstTrees(before, was, gfp)
    requires 0 <= rank < |was| - 1 && 0 <= to < |was| - 1 && Overlap(was, next, rank, to) > 0
    ensures was[rank] < was[rank + 1] && |gfp| == |was| && StartsAt(before, was, gfp, rank)
    ensures LastIndices(next)[to] == next[to + 1] - 1
    ensures (if to == 0 then 0 else LastIndices(next)[to - 1] + 1) == next[to]
  {
  }

  /** A message from every rank that held some of the leaves from x up to y. */
  ghost predicate Delivered<Q>(all: seq<Q>, before: seq<int>, was: seq<int>, gfp: seq<int>, rank: int, x: int, y: int,
                               parcels: seq<Parcel<Q>>)
    requires Trees(before) && before[|before| - 1] == |all|
  {
    && Offsets(was) && was[|was| - 1] == |all| && FirstTrees(before, was, gfp) && |parcels| == |was| - 1
    && forall f :: 0 <= f < |parcels| ==>
         FromRank(all, before, was, gfp, rank, x, y, f, Share(was, x, y, f), parcels[f])
  }

  lemma OneShare(was: seq<int>, x: int, y: int, f: int)
    requires Offsets(was) && 0 <= x <= y && 0 <= f < |was| - 1
    ensures CountFor(LastIndices(was), x, y - 1, f) == Share(was, x, y, f)
  {
    assert f > 0 ==> LastIndices(was)[f - 1] + 1 == was[f];
  }

  lemma SharesCounted<Q>(all: seq<Q>, before: seq<int>, was: seq<int>, gfp: seq<int>, rank: int, x: int, y: int,
                         num: seq<int>, parcels: seq<Parcel<Q>>)
    requires Trees(before) && before[|before| - 1] == |all| && 0 <= x <= y <= |all| && 0 <= rank < |was| - 1
    requires Delivered(all, before, was, gfp, rank, x, y, parcels) && |num| == |was| - 1
    requires forall f :: 0 <= f < |num| ==> num[f] == CountFor(LastIndices(was), x, y - 1, f)
    ensures Incoming(all, before, was, gfp, rank, x, y, num, parcels)
  {
    hide Trees, FromRank, Share, CountFor;
    forall f | 0 <= f < |num|
      ensures num[f] == Share(was, x, y, f)
    {
      OneShare(was, x, y, f);
    }
  }

  lemma RangeIsNew(before: seq<int>, n: int, x: int, y: int, total: seq<int>, first: int, last: int)
    requires Trees(before) && n == NumTrees(before) && x <= y && total == Sizes(before, n, x, y)
    requires (first <= last && TreeRange(total, first, last)) ||
             (first == -1 && last == -2 && forall t :: 0 <= t < n ==> total[t] <= 0)
    ensures NewRange(total, first, last)
  {
    forall t | 0 <= t < n
      ensures total[t] >= 0
    {
      SliceSizeAdds(before, t, x, y, y);
    }
  }

  lemma PlanReady<Q>(all: seq<Q>, before: seq<int>, was: seq<int>, next: seq<int>, rank: int, trees: seq<seq<Q>>,
                     first: int, last: int, ends: seq<int>, begin: int, sent: int, total: seq<int>, lower: seq<int>)
    requires Trees(before) && before[|before| - 1] == |all| && Offsets(was) && Offsets(next) && |was| == |next|
    requires 0 <= rank < |was| - 1
    requires was[|was| - 1] == next[|next| - 1] == |all|
    requires Owns(all, before, was[rank], was[rank + 1], trees, first, last)
    requires |ends| == |trees|
    requires forall t :: first <= t <= last ==>
               ends[t] == Clamp(before[t + 1], was[rank], was[rank + 1]) - was[rank] - 1
    requires sent == CountFor(LastIndices(next), was[rank], was[rank + 1] - 1, rank)
    requires sent > 0 ==> begin == FirstFor(LastIndices(next), was[rank], rank)
    requires total == Sizes(before, NumTrees(before), next[rank], next[rank + 1])
    requires lower == Sizes(before, NumTrees(before), next[rank], Clamp(was[rank], next[rank], next[rank + 1]))
    ensures Plan(all, before, was[rank], was[rank + 1], trees, first, last, ends, next[rank], next[rank + 1],
                 Clamp(was[rank], next[rank], next[rank + 1]), Clamp(was[rank + 1], next[rank], next[rank + 1]), begin,
                 sent, total, lower)
  {
    assert was[rank] <= was[rank + 1] && next[rank] <= next[rank + 1] && 0 <= next[rank] && next[rank + 1] <= |all|;
  }

  lemma SameLength<Q>(all: seq<Q>, before: seq<int>, a: int, b: int, trees: seq<seq<Q>>, first: int, last: int)
    requires Trees(before) && before[|before| - 1] == |all| && Owns(all, before, a, b, trees, first, last)
    ensures |trees| == NumTrees(before)
  {
  }

  lemma NewOwner<Q>(all: seq<Q>, before: seq<int>, x: int, y: int, trees: seq<seq<Q>>, total: seq<int>, first: int,
                    last: int)
    requires Trees(before) && before[|before| - 1] == |all| && 0 <= x <= y <= |all| && |trees| == NumTrees(before)
    requires forall t :: 0 <= t < |trees| ==> trees[t] == Slice(all, before, t, x, y)
    requires total == Sizes(before, NumTrees(before), x, y)
    requires (first <= last && TreeRange(total, first, last)) ||
             (first == -1 && last == -2 && forall t :: 0 <= t < |total| ==> total[t] <= 0)
    ensures Owns(all, before, x, y, trees, first, last)
  {
    SomeLeaves(before, x, y, total);
    if x < y {
      var s := TreeContaining(before, x, NumTrees(before));
      var e := TreeContaining(before, y - 1, NumTrees(before));
      assert total[s] > 0 && total[e] > 0;
      TreesOrdered(before, first + 1, s);
      TreesOrdered(before, e + 1, last);
    }
  }

  lemma SomeLeaves(before: seq<int>, x: int, y: int, total: seq<int>)
    requires Trees(before) && 0 <= x <= y <= before[|before| - 1] && total == Sizes(before, NumTrees(before), x, y)
    ensures x < y <==> exists t :: 0 <= t < |total| && total[t] > 0
  {
    if x < y {
      var s := TreeContaining(before, x, NumTrees(before));
      assert total[s] > 0;
    }
  }

  lemma {:induction false} TreeContaining(before: seq<int>, x: int, n: int) returns (t: int)
    requires Trees(before) && 0 <= n < |before| && 0 <= x < before[n]
    ensures 0 <= t < n && before[t] <= x < before[t + 1]
    decreases n
  {
    if before[n - 1] <= x {
      t := n - 1;
    } else {
      t := TreeContaining(before, x, n - 1);
    }
  }

  lemma SendersTrees<Q>(all: seq<Q>, before: seq<int>, was: seq<int>, gfp: seq<int>, rank: int, trees: seq<seq<Q>>,
                        first: int, last: int)
    requires Trees(before) && before[|before| - 1] == |all| && Offsets(was) && 0 <= rank < |was| - 1 && |gfp| == |was|
    requires Owns(all, before, was[rank], was[rank + 1], trees, first, last) && was[rank] < was[rank + 1]
    requires StartsAt(before, was, gfp, rank)
    ensures gfp[rank] == first && last <= gfp[rank + 1]
  {
    TreesOrdered(before, first + 1, gfp[rank]);
    TreesOrdered(before, gfp[rank] + 1, first);
    TreesOrdered(before, gfp[rank + 1] + 1, last);
  }

  lemma TreesOrdered(before: seq<int>, t: int, u: int)
    requires Trees(before)
    ensures 0 <= t <= u < |before| ==> before[t] <= before[u]
  {
  }

  // ---------------------------------------------------------------- all ranks together

  /** The arrays of all ranks for one tree, one after the other. */
  function Joined<Q>(parts: seq<seq<Q>>): seq<Q> {
    if parts == [] then [] else Joined(parts[..|parts| - 1]) + parts[|parts| - 1]
  }

  ghost predicate PartOf<Q>(all: seq<Q>, before: seq<int>, part: seq<int>, t: int, r: int, s: seq<Q>)
    requires Trees(before) && before[|before| - 1] == |all| && 0 <= t < NumTrees(before) && 0 <= r < |part| - 1
  {
    0 <= part[r] <= part[r + 1] <= |all| && s == Slice(all, before, t, part[r], part[r + 1])
  }

  /** Whatever the partition, the ranks together hold every tree unchanged. */
  lemma {:induction false} ForestUnchanged<Q>(all: seq<Q>, before: seq<int>, part: seq<int>, t: int, parts: seq<seq<Q>>)
    requires Trees(before) && before[|before| - 1] == |all| && Offsets(part) && part[|part| - 1] <= |all|
    requires 0 <= t < NumTrees(before)
    requires |parts| < |part| && forall r :: 0 <= r < |parts| ==> PartOf(all, before, part, t, r, parts[r])
    ensures 0 <= part[|parts|] <= |all| && Joined(parts) == Slice(all, before, t, 0, part[|parts|])
    decreases |parts|
  {
    var n := |parts|;
    assert part[0] <= part[n] <= part[|part| - 1];
    if n > 0 {
      assert PartOf(all, before, part, t, n - 1, parts[n - 1]);
      ForestUnchanged(all, before, part, t, parts[..n - 1]);
      SlicesJoin(all, before, t, 0, part[n - 1], part[n]);
    }
  }

  lemma SlicesJoin<Q>(all: seq<Q>, before: seq<int>, t: int, a: int, m: int, b: int)
    requires Trees(before) && before[|before| - 1] == |all| && 0 <= t < NumTrees(before) && 0 <= a <= m <= b <= |all|
    ensures Slice(all, before, t, a, m) + Slice(all, before, t, m, b) == Slice(all, before, t, a, b)
  {
    assert before[t] < before[t + 1];
    SliceSizeAdds(before, t, a, m, b);
    var x, y, z := Clamp(before[t], a, b), Clamp(before[t + 1], a, m), Clamp(before[t + 1], a, b);
    if SliceSize(before, t, a, m) == 0 || SliceSize(before, t, m, b) == 0 {
    } else {
      JoinSlices(all, x, m, z);
    }
  }

  /** Rank r holds its part of the forest. */
  ghost predicate RankOwns<Q>(all: seq<Q>, before: seq<int>, part: seq<int>, r: int, f: RankForest<Q>)
    requires Trees(before) && before[|before| - 1] == |all| && 0 <= r < |part| - 1
    reads f
  {
    Owns(all, before, part[r], part[r + 1], f.trees, f.firstTree, f.lastTree)
  }

  /** The messages of all ranks for rank `to`. */
  method MailFor<Q>(ghost all: seq<Q>, ghost before: seq<int>, was: seq<int>, next: seq<int>, gfp: seq<int>,
                    ranks: seq<RankForest<Q>>, to: int)
    returns (parcels: seq<Parcel<Q>>)
    requires Trees(before) && before[|before| - 1] == |all| && Offsets(was) && Offsets(next) && |was| == |next|
    requires FirstTrees(before, was, gfp)
    requires was[|was| - 1] == next[|next| - 1] == |all| && |ranks| == |was| - 1 && 0 <= to < |ranks|
    requires forall r :: 0 <= r < |ranks| ==> RankOwns(all, before, was, r, ranks[r])
    ensures Delivered(all, before, was, gfp, to, next[to], next[to + 1], parcels)
  {
    hide Owns, Trees, FirstTrees, Offsets, IsParcel;
    SomeTrees(before, was, gfp);
    parcels := [];
    var f := 0;
    while f < |ranks|
      invariant 0 <= f <= |ranks| && |parcels| == f
      invariant forall q :: 0 <= q < f ==>
                  FromRank(all, before, was, gfp, to, next[to], next[to + 1], q, Overlap(was, next, q, to), parcels[q])
    {
      var p := Parcel([], []);
      if Overlap(was, next, f, to) > 0 {
        assert RankOwns(all, before, was, f, ranks[f]);
        p := ranks[f].SendTo(all, before, was, next, gfp, f, to);
      } else {
        NothingShared(all, before, was, next, gfp, f, to, p);
      }
      parcels := parcels + [p];
      f := f + 1;
    }
  }

  lemma NothingShared<Q>(all: seq<Q>, before: seq<int>, was: seq<int>, next: seq<int>, gfp: seq<int>, f: int, to: int,
                         p: Parcel<Q>)
    requires Trees(before) && before[|before| - 1] == |all| && |was| == |next| && FirstTrees(before, was, gfp)
    requires 0 <= f < |was| - 1 && 0 <= to < |was| - 1 && Overlap(was, next, f, to) <= 0
    ensures |gfp| == |was|
    ensures FromRank(all, before, was, gfp, to, next[to], next[to + 1], f, Overlap(was, next, f, to), p)
  {
  }

  /** All ranks send, with the share that a rank keeps counted like a message to itself. */
  method SendAll<Q>(ghost all: seq<Q>, ghost before: seq<int>, was: seq<int>, next: seq<int>, gfp: seq<int>,
                    ranks: seq<RankForest<Q>>)
    returns (mail: seq<seq<Parcel<Q>>>)
    requires Trees(before) && before[|before| - 1] == |all| && Offsets(was) && Offsets(next) && |was| == |next|
    requires FirstTrees(before, was, gfp)
    requires was[|was| - 1] == next[|next| - 1] == |all| && |ranks| == |was| - 1
    requires forall r :: 0 <= r < |ranks| ==> RankOwns(all, before, was, r, ranks[r])
    ensures |mail| == |ranks|
    ensures forall r :: 0 <= r < |ranks| ==> Delivered(all, before, was, gfp, r, next[r], next[r + 1], mail[r])
  {
    hide RankOwns, Delivered, Trees, Offsets, FirstTrees;
    mail := [];
    var r := 0;
    while r < |ranks|
      invariant 0 <= r <= |ranks| && |mail| == r
      invariant forall q :: 0 <= q < r ==> Delivered(all, before, was, gfp, q, next[q], next[q + 1], mail[q])
    {
      var parcels := MailFor(all, before, was, next, gfp, ranks, r);
      mail := mail + [parcels];
      r := r + 1;
    }
  }

  ghost function PartsOf<Q>(ranks: seq<RankForest<Q>>, t: int, n: nat): (s: seq<seq<Q>>)
    requires n <= |ranks| && 0 <= t && forall r :: 0 <= r < n ==> t < |ranks[r].trees|
    reads ranks
  {
    if n == 0 then [] else PartsOf(ranks, t, n - 1) + [ranks[n - 1].trees[t]]
  }

  lemma {:induction false} PartsAreSlices<Q>(all: seq<Q>, before: seq<int>, part: seq<int>, ranks: seq<RankForest<Q>>,
                                             t: int, n: nat)
    requires Trees(before) && before[|before| - 1] == |all| && n <= |ranks| < |part| && 0 <= t < NumTrees(before)
    requires forall r :: 0 <= r < n ==> RankOwns(all, before, part, r, ranks[r])
    ensures forall r :: 0 <= r < n ==> |ranks[r].trees| == NumTrees(before)
    ensures |PartsOf(ranks, t, n)| == n
    ensures forall r :: 0 <= r < n ==> PartOf(all, before, part, t, r, PartsOf(ranks, t, n)[r])
  {
    hide RankOwns, PartOf;
    if n > 0 {
      PartsAreSlices(all, before, part, ranks, t, n - 1);
      assert RankOwns(all, before, part, n - 1, ranks[n - 1]);
      OwnedSlice(all, before, part, n - 1, ranks[n - 1], t);
    }
  }

  lemma OwnedSlice<Q>(all: seq<Q>, before: seq<int>, part: seq<int>, r: int, f: RankForest<Q>, t: int)
    requires Trees(before) && before[|before| - 1] == |all| && 0 <= r < |part| - 1 && 0 <= t < NumTrees(before)
    requires RankOwns(all, before, part, r, f)
    ensures |f.trees| == NumTrees(before) && PartOf(all, before, part, t, r, f.trees[t])
  {
  }

  /** p4est_partition_given on all ranks: every rank ends with its new part of the forest, and
      put together every tree is the sequence it was. */
  method PartitionGiven<Q>(ghost all: seq<Q>, ghost before: seq<int>, junk: Q, n: int, was: seq<int>, gfp: seq<int>,
                           counts: seq<int>, ranks: seq<RankForest<Q>>) returns (next: seq<int>, shipped: int)
    requires Trees(before) && before[|before| - 1] == |all| && n == NumTrees(before)
    requires Offsets(was) && was[|was| - 1] == |all| && FirstTrees(before, was, gfp) && |ranks| == |was| - 1 == |counts|
    requires (forall r :: 0 <= r < |counts| ==> counts[r] >= 0) && Sum(counts) == |all|
    requires forall i, j :: 0 <= i < j < |ranks| ==> ranks[i] != ranks[j]
    requires forall r :: 0 <= r < |ranks| ==> RankOwns(all, before, was, r, ranks[r])
    modifies ranks
    ensures |next| == |was| && forall r :: 0 <= r < |counts| ==> counts[r] == CountOf(next, r)
    ensures shipped == ReceivedBelow(was, next, |counts|)
    ensures forall r :: 0 <= r < |ranks| ==> RankOwns(all, before, next, r, ranks[r]) && |ranks[r].trees| == n
    ensures forall t :: 0 <= t < n ==> Joined(PartsOf(ranks, t, |ranks|)) == Slice(all, before, t, 0, |all|)
  {
    hide RankOwns, Delivered, Trees, FirstTrees, Owns, Slice, ReceivedBelow, CountOf;
    next, shipped := ShippedLeaves(was, counts);
    var mail := SendAll(all, before, was, next, gfp, ranks);
    var r := 0;
    while r < |ranks|
      invariant 0 <= r <= |ranks|
      invariant forall q :: 0 <= q < r ==> RankOwns(all, before, next, q, ranks[q])
      invariant forall q :: r <= q < |ranks| ==> RankOwns(all, before, was, q, ranks[q])
    {
      RepartitionRank(all, before, junk, n, was, next, gfp, r, mail[r], ranks[r]);
      r := r + 1;
    }
    HasTree(before);
    PartsAreSlices(all, before, next, ranks, 0, |ranks|);
    forall t | 0 <= t < n
      ensures Joined(PartsOf(ranks, t, |ranks|)) == Slice(all, before, t, 0, |all|)
    {
      PartsAreSlices(all, before, next, ranks, t, |ranks|);
      ForestUnchanged(all, before, next, t, PartsOf(ranks, t, |ranks|));
    }
  }

  lemma HasTree(before: seq<int>)
    requires Trees(before)
    ensures NumTrees(before) >= 1
  {
  }

  method RepartitionRank<Q>(ghost all: seq<Q>, ghost before: seq<int>, junk: Q, n: int, was: seq<int>, next: seq<int>,
                            gfp: seq<int>, r: int, parcels: seq<Parcel<Q>>, f: RankForest<Q>)
    requires Trees(before) && before[|before| - 1] == |all| && n == NumTrees(before)
    requires Offsets(next) && |was| == |next| && next[|next| - 1] == |all| && 0 <= r < |was| - 1
    requires Delivered(all, before, was, gfp, r, next[r], next[r + 1], parcels) && RankOwns(all, before, was, r, f)
    modifies f
    ensures RankOwns(all, before, next, r, f)
  {
    f.Repartition(all, before, junk, n, was, next, gfp, r, parcels);
  }
}
