/** Quicksort with a comparison context: insertion sort up to 16 entries, otherwise Hoare
    partitioning around the middle entry (p4est3_ghost_p4est.c). */
module ContextSort {

  type Compare = (nat, nat) -> int

  function Compared(cmp: Compare, x: nat, y: nat): int {
    cmp(x, y)
  }

  /** The comparison is that of a total preorder. */
  ghost predicate Order(cmp: Compare) {
    && (forall x, y :: Compared(cmp, x, y) > 0 <==> Compared(cmp, y, x) < 0)
    && (forall x, y, z :: Compared(cmp, x, y) <= 0 && Compared(cmp, y, z) <= 0 ==> Compared(cmp, x, z) <= 0)
  }

  lemma Flip(cmp: Compare, x: nat, y: nat)
    requires Order(cmp)
    ensures Compared(cmp, x, y) > 0 <==> Compared(cmp, y, x) < 0
  {
  }

  lemma Chain(cmp: Compare, x: nat, y: nat, z: nat)
    requires Order(cmp) && Compared(cmp, x, y) <= 0 && Compared(cmp, y, z) <= 0
    ensures Compared(cmp, x, z) <= 0
  {
  }

  ghost predicate Sorted(cmp: Compare, s: seq<nat>, lo: nat, hi: nat) {
    hi <= |s| && forall i, j :: lo <= i < j < hi ==> Compared(cmp, s[i], s[j]) <= 0
  }

  /** The entries from lo to hi are at most, or at least, p. */
  ghost predicate AtMost(cmp: Compare, s: seq<nat>, lo: nat, hi: nat, p: nat) {
    hi <= |s| && forall k :: lo <= k < hi ==> Compared(cmp, s[k], p) <= 0
  }

  ghost predicate AtLeast(cmp: Compare, s: seq<nat>, lo: nat, hi: nat, p: nat) {
    hi <= |s| && forall k :: lo <= k < hi ==> Compared(cmp, s[k], p) >= 0
  }

  // ---------------------------------------------------------------- rearrangements

  /** t is s with the entries between lo and hi in another order. */
  ghost predicate Rearranged(s: seq<nat>, t: seq<nat>, lo: nat, hi: nat) {
    && lo <= hi <= |s| == |t|
    && s[..lo] == t[..lo] && s[hi..] == t[hi..]
    && multiset(s[lo..hi]) == multiset(t[lo..hi])
  }

  lemma RearrangedSelf(s: seq<nat>, lo: nat, hi: nat)
    requires lo <= hi <= |s|
    ensures Rearranged(s, s, lo, hi)
  {
  }

  lemma RearrangedTransitive(s: seq<nat>, t: seq<nat>, u: seq<nat>, lo: nat, hi: nat)
    requires Rearranged(s, t, lo, hi) && Rearranged(t, u, lo, hi)
    ensures Rearranged(s, u, lo, hi)
  {
  }

  lemma RearrangedWithin(s: seq<nat>, t: seq<nat>, a: nat, b: nat, lo: nat, hi: nat)
    requires Rearranged(s, t, a, b) && lo <= a && b <= hi <= |s|
    ensures Rearranged(s, t, lo, hi)
  {
    Cut(s, a, b, lo, hi);
    Cut(t, a, b, lo, hi);
    assert s[..lo] == s[..a][..lo] == t[..lo];
    assert s[lo..a] == s[..a][lo..] == t[lo..a];
    assert s[b..hi] == s[b..][..hi - b] == t[b..hi];
    assert s[hi..] == s[b..][hi - b..] == t[hi..];
  }

  lemma Cut(s: seq<nat>, a: nat, b: nat, lo: nat, hi: nat)
    requires lo <= a <= b <= hi <= |s|
    ensures multiset(s[lo..hi]) == multiset(s[lo..a]) + multiset(s[a..b]) + multiset(s[b..hi])
  {
    assert s[lo..hi] == s[lo..a] + s[a..b] + s[b..hi];
  }

  /** Entries outside stay, and an entry inside comes from inside. */
  lemma RearrangedOutside(s: seq<nat>, t: seq<nat>, lo: nat, hi: nat, k: nat)
    requires Rearranged(s, t, lo, hi) && k < |s| && (k < lo || hi <= k)
    ensures t[k] == s[k]
  {
    if k < lo {
      assert t[k] == t[..lo][k] && s[k] == s[..lo][k];
    } else {
      assert t[k] == t[hi..][k - hi] && s[k] == s[hi..][k - hi];
    }
  }

  lemma RearrangedInside(s: seq<nat>, t: seq<nat>, lo: nat, hi: nat, k: nat) returns (j: nat)
    requires Rearranged(s, t, lo, hi) && lo <= k < hi
    ensures lo <= j < hi && j < |s| && k < |t| && s[j] == t[k]
  {
    assert t[lo..hi][k - lo] in multiset(t[lo..hi]);
    assert t[k] in s[lo..hi];
    var i :| 0 <= i < hi - lo && s[lo..hi][i] == t[k];
    j := lo + i;
  }

  lemma RearrangedBounds(cmp: Compare, s: seq<nat>, t: seq<nat>, lo: nat, hi: nat, p: nat)
    requires Rearranged(s, t, lo, hi)
    ensures AtMost(cmp, s, lo, hi, p) ==> AtMost(cmp, t, lo, hi, p)
    ensures AtLeast(cmp, s, lo, hi, p) ==> AtLeast(cmp, t, lo, hi, p)
  {
    forall k | lo <= k < hi
      ensures AtMost(cmp, s, lo, hi, p) ==> Compared(cmp, t[k], p) <= 0
      ensures AtLeast(cmp, s, lo, hi, p) ==> Compared(cmp, t[k], p) >= 0
    {
      var j := RearrangedInside(s, t, lo, hi, k);
    }
  }

  lemma SortedOutside(cmp: Compare, s: seq<nat>, t: seq<nat>, lo: nat, hi: nat, a: nat, b: nat)
    requires Rearranged(s, t, lo, hi) && Sorted(cmp, s, a, b) && (b <= lo || hi <= a)
    ensures Sorted(cmp, t, a, b)
  {
    forall k | a <= k < b
      ensures t[k] == s[k]
    {
      RearrangedOutside(s, t, lo, hi, k);
    }
  }

  lemma BoundsOutside(cmp: Compare, s: seq<nat>, t: seq<nat>, lo: nat, hi: nat, a: nat, b: nat, p: nat)
    requires Rearranged(s, t, lo, hi) && (b <= lo || hi <= a) && b <= |s|
    ensures AtMost(cmp, s, a, b, p) ==> AtMost(cmp, t, a, b, p)
    ensures AtLeast(cmp, s, a, b, p) ==> AtLeast(cmp, t, a, b, p)
  {
    forall k | a <= k < b
      ensures t[k] == s[k]
    {
      RearrangedOutside(s, t, lo, hi, k);
    }
  }

  function Swap(s: seq<nat>, i: nat, j: nat): seq<nat>
    requires i < |s| && j < |s|
  {
    s[i := s[j]][j := s[i]]
  }

  lemma SwapRearranges(s: seq<nat>, i: nat, j: nat, lo: nat, hi: nat)
    requires lo <= i <= j < hi <= |s|
    ensures Rearranged(s, Swap(s, i, j), lo, hi)
  {
    var t := Swap(s, i, j);
    if i < j {
      SwapKeeps(s, i, j, lo, hi);
      FiveParts(s, i, j, lo, hi);
      FiveParts(t, i, j, lo, hi);
      hide Swap;
      Exchanged(s[lo..i], s[i], s[i + 1..j], s[j], s[j + 1..hi]);
    } else {
      assert t == s;
    }
  }

  lemma FiveParts(s: seq<nat>, i: nat, j: nat, lo: nat, hi: nat)
    requires lo <= i < j < hi <= |s|
    ensures s[lo..hi] == s[lo..i] + [s[i]] + s[i + 1..j] + [s[j]] + s[j + 1..hi]
  {
  }

  lemma SwapKeeps(s: seq<nat>, i: nat, j: nat, lo: nat, hi: nat)
    requires lo <= i < j < hi <= |s|
    ensures var t := Swap(s, i, j);
            && |t| == |s| && t[i] == s[j] && t[j] == s[i]
            && t[..lo] == s[..lo] && t[lo..i] == s[lo..i] && t[i + 1..j] == s[i + 1..j]
            && t[j + 1..hi] == s[j + 1..hi] && t[hi..] == s[hi..]
  {
  }

  lemma Exchanged(x: seq<nat>, u: nat, m: seq<nat>, v: nat, y: seq<nat>)
    ensures multiset(x + [u] + m + [v] + y) == multiset(x + [v] + m + [u] + y)
  {
  }

  /** Copies one entry. */
  method Put(a: array<nat>, k: nat, x: nat)
    requires k < a.Length
    modifies a
    ensures a[..] == old(a[..])[k := x]
  {
    a[k] := x;
  }

  // ---------------------------------------------------------------- insertion sort

  method InsertionSort(a: array<nat>, base: nat, n: nat, cmp: Compare)
    requires base + n <= a.Length && 0 < n && Order(cmp)
    modifies a
    ensures Rearranged(old(a[..]), a[..], base, base + n)
    ensures Sorted(cmp, a[..], base, base + n)
  {
    hide *;
    var i := 1;
    ghost var was := a[..];
    RearrangedSelf(was, base, base + n);
    SortedShort(cmp, was, base, base + 1);
    while i < n
      invariant 1 <= i <= n
      invariant Rearranged(was, a[..], base, base + n)
      invariant Sorted(cmp, a[..], base, base + i)
    {
      ghost var s := a[..];
      Insert(a, base, i, cmp);
      RearrangedWithin(s, a[..], base, base + i + 1, base, base + n);
      RearrangedTransitive(was, s, a[..], base, base + n);
      i := i + 1;
    }
  }

  /** Sorted but for the entry at the hole, and above it after the hole. */
  ghost predicate SortedButHole(cmp: Compare, s: seq<nat>, lo: nat, hi: nat, hole: nat) {
    && lo <= hole < hi <= |s|
    && (forall i, j :: lo <= i < j < hi && i != hole && j != hole ==> Compared(cmp, s[i], s[j]) <= 0)
    && forall j :: hole < j < hi ==> Compared(cmp, s[j], s[hole]) > 0
  }

  lemma StartHole(cmp: Compare, s: seq<nat>, lo: nat, hi: nat)
    requires lo <= hi < |s| && Sorted(cmp, s, lo, hi)
    ensures SortedButHole(cmp, s, lo, hi + 1, hi)
  {
  }

  lemma MoveHole(cmp: Compare, s: seq<nat>, lo: nat, hi: nat, hole: nat)
    requires SortedButHole(cmp, s, lo, hi, hole) && lo < hole && Compared(cmp, s[hole - 1], s[hole]) > 0
    ensures SortedButHole(cmp, Swap(s, hole - 1, hole), lo, hi, hole - 1)
  {
  }

  lemma FillHole(cmp: Compare, s: seq<nat>, lo: nat, hi: nat, hole: nat)
    requires Order(cmp) && SortedButHole(cmp, s, lo, hi, hole)
    requires lo < hole ==> Compared(cmp, s[hole - 1], s[hole]) <= 0
    ensures Sorted(cmp, s, lo, hi)
  {
    hide Compared, Order;
    forall i, j | lo <= i < j < hi
      ensures Compared(cmp, s[i], s[j]) <= 0
    {
      if i == hole {
        Flip(cmp, s[j], s[i]);
      } else if j == hole && i < hole - 1 {
        Chain(cmp, s[i], s[hole - 1], s[hole]);
      }
    }
  }

  /** s is what the array will hold once the entry taken out is put into the hole. */
  ghost predicate SameButHole(now: seq<nat>, s: seq<nat>, hole: nat, tmp: nat) {
    hole < |now| && s == now[hole := tmp]
  }

  lemma HoleEntries(now: seq<nat>, s: seq<nat>, hole: nat, tmp: nat)
    requires SameButHole(now, s, hole, tmp)
    ensures |now| == |s| && hole < |s| && s[hole] == tmp && s == now[hole := tmp]
    ensures 0 < hole ==> s[hole - 1] == now[hole - 1]
    ensures 0 < hole ==> SameButHole(now[hole := now[hole - 1]], Swap(s, hole - 1, hole), hole - 1, tmp)
  {
    if 0 < hole {
      assert Swap(s, hole - 1, hole) == now[hole := now[hole - 1]][hole - 1 := tmp];
    }
  }

  lemma StartSame(s: seq<nat>, hole: nat)
    requires hole < |s|
    ensures SameButHole(s, s, hole, s[hole])
  {
    assert s == s[hole := s[hole]];
  }

  /** The state of the insertion: s is the outcome if the hole is filled now. */
  ghost predicate Inserting(cmp: Compare, was: seq<nat>, now: seq<nat>, s: seq<nat>, lo: nat, hi: nat, hole: nat,
                            tmp: nat)
  {
    SameButHole(now, s, hole, tmp) && Rearranged(was, s, lo, hi) && SortedButHole(cmp, s, lo, hi, hole)
  }

  lemma InsertStart(cmp: Compare, s: seq<nat>, lo: nat, hi: nat)
    requires lo <= hi < |s| && Sorted(cmp, s, lo, hi)
    ensures Inserting(cmp, s, s, s, lo, hi + 1, hi, s[hi])
  {
    hide Sorted, SortedButHole, SameButHole, Rearranged;
    StartHole(cmp, s, lo, hi);
    StartSame(s, hi);
    RearrangedSelf(s, lo, hi + 1);
  }

  lemma InsertStep(cmp: Compare, was: seq<nat>, now: seq<nat>, s: seq<nat>, lo: nat, hi: nat, hole: nat, tmp: nat)
    requires Inserting(cmp, was, now, s, lo, hi, hole, tmp) && lo < hole
    ensures hole < |now| && |s| == |now|
    ensures Compared(cmp, now[hole - 1], tmp) > 0 ==>
              Inserting(cmp, was, now[hole := now[hole - 1]], Swap(s, hole - 1, hole), lo, hi, hole - 1, tmp)
  {
    HoleEntries(now, s, hole, tmp);
    InsertLow(cmp, s, lo, hi, hole);
    hide SortedButHole, SameButHole, Rearranged, Swap;
    if Compared(cmp, now[hole - 1], tmp) > 0 {
      MoveHole(cmp, s, lo, hi, hole);
      SwapRearranges(s, hole - 1, hole, lo, hi);
      RearrangedTransitive(was, s, Swap(s, hole - 1, hole), lo, hi);
    }
  }

  lemma InsertLow(cmp: Compare, s: seq<nat>, lo: nat, hi: nat, hole: nat)
    requires SortedButHole(cmp, s, lo, hi, hole)
    ensures lo <= hole < hi <= |s|
  {
  }

  lemma InsertEnd(cmp: Compare, was: seq<nat>, now: seq<nat>, s: seq<nat>, lo: nat, hi: nat, hole: nat, tmp: nat)
    requires Order(cmp) && Inserting(cmp, was, now, s, lo, hi, hole, tmp)
    ensures hole < |now|
    ensures (lo < hole ==> Compared(cmp, now[hole - 1], tmp) <= 0) ==>
              Rearranged(was, now[hole := tmp], lo, hi) && Sorted(cmp, now[hole := tmp], lo, hi)
  {
    HoleEntries(now, s, hole, tmp);
    hide Order, Sorted, SortedButHole, SameButHole, Rearranged, Swap;
    if lo < hole ==> Compared(cmp, now[hole - 1], tmp) <= 0 {
      FillHole(cmp, s, lo, hi, hole);
    }
  }

  method Insert(a: array<nat>, base: nat, i: nat, cmp: Compare)
    requires base + i < a.Length && 0 < i && Order(cmp) && Sorted(cmp, a[..], base, base + i)
    modifies a
    ensures Rearranged(old(a[..]), a[..], base, base + i + 1)
    ensures Sorted(cmp, a[..], base, base + i + 1)
  {
    hide *;
    var tmp := a[base + i];
    var j: int := i - 1;
    ghost var was, s, now := a[..], a[..], a[..];
    InsertStart(cmp, s, base, base + i);
    while j >= 0 && Compared(cmp, a[base + j], tmp) > 0
      invariant -1 <= j < i
      invariant a[..] == now && Inserting(cmp, was, now, s, base, base + i + 1, base + j + 1, tmp)
    {
      ghost var hole: nat := base + j + 1;
      InsertStep(cmp, was, now, s, base, base + i + 1, hole, tmp);
      Put(a, base + j + 1, a[base + j]);
      s := Swap(s, hole - 1, hole);
      now := now[hole := now[hole - 1]];
      j := j - 1;
    }
    InsertEnd(cmp, was, now, s, base, base + i + 1, base + j + 1, tmp);
    Put(a, base + j + 1, tmp);
  }

  // ---------------------------------------------------------------- partition

  lemma OneMore(cmp: Compare, s: seq<nat>, lo: nat, hi: nat, p: nat)
    requires hi < |s|
    ensures AtMost(cmp, s, lo, hi, p) && Compared(cmp, s[hi], p) <= 0 ==> AtMost(cmp, s, lo, hi + 1, p)
  {
  }

  lemma OneLess(cmp: Compare, s: seq<nat>, lo: nat, hi: nat, p: nat)
    requires 0 < lo <= |s|
    ensures AtLeast(cmp, s, lo, hi, p) && Compared(cmp, s[lo - 1], p) >= 0 ==> AtLeast(cmp, s, lo - 1, hi, p)
  {
  }

  lemma SwapSides(cmp: Compare, s: seq<nat>, lo: nat, hi: nat, l: nat, r: nat, p: nat)
    requires lo <= l <= r < hi <= |s|
    requires AtMost(cmp, s, lo, l, p) && AtLeast(cmp, s, r + 1, hi, p)
    requires Compared(cmp, s[l], p) >= 0 && Compared(cmp, s[r], p) <= 0
    ensures AtMost(cmp, Swap(s, l, r), lo, l + 1, p) && AtLeast(cmp, Swap(s, l, r), r, hi, p)
  {
  }

  lemma Self(cmp: Compare, p: nat)
    requires Order(cmp)
    ensures Compared(cmp, p, p) == 0
  {
    Flip(cmp, p, p);
  }

  method SwapEntries(a: array<nat>, i: nat, j: nat)
    requires i < a.Length && j < a.Length
    modifies a
    ensures a[..] == Swap(old(a[..]), i, j)
  {
    if i != j {
      var tmp := a[i];
      Put(a, i, a[j]);
      Put(a, j, tmp);
    } else {
      SwapSelf(a[..], i);
    }
  }

  lemma SwapSelf(s: seq<nat>, i: nat)
    requires i < |s|
    ensures Swap(s, i, i) == s
  {
  }

  /** The state of the partition between two swaps. The entries left of l and right of r are on
      their sides; after the first swap both sides hold one. */
  ghost predicate Parted(cmp: Compare, was: seq<nat>, s: seq<nat>, lo: nat, hi: nat, l: nat, r: nat, p: nat) {
    && lo + 1 < hi <= |s| && lo <= l <= hi && lo <= r < hi && Rearranged(was, s, lo, hi)
    && AtMost(cmp, s, lo, l, p) && AtLeast(cmp, s, r + 1, hi, p)
    && (if l == lo then r == hi - 1 && s[lo + (hi - lo) / 2] == p else r <= hi - 2)
  }

  lemma PartedStart(cmp: Compare, s: seq<nat>, lo: nat, hi: nat)
    requires lo + 1 < hi <= |s|
    ensures Parted(cmp, s, s, lo, hi, lo, hi - 1, s[lo + (hi - lo) / 2])
  {
    RearrangedSelf(s, lo, hi);
  }

  /** The entries at which the scans must stop. */
  function LeftStop(lo: nat, hi: nat, l: nat, r: nat): nat {
    if l == lo then lo + (if lo < hi then (hi - lo) / 2 else 0) else r + 1
  }

  function RightStop(lo: nat, hi: nat, l: nat): int {
    if l == lo then lo + (if lo < hi then (hi - lo) / 2 else 0) else l - 1
  }

  lemma Stoppers(cmp: Compare, was: seq<nat>, s: seq<nat>, lo: nat, hi: nat, l: nat, r: nat, p: nat)
    requires Order(cmp) && Parted(cmp, was, s, lo, hi, l, r, p) && l <= r
    ensures hi <= |s| && l <= LeftStop(lo, hi, l, r) < hi && lo <= RightStop(lo, hi, l) <= r < hi
    ensures Compared(cmp, s[LeftStop(lo, hi, l, r)], p) >= 0 && Compared(cmp, s[RightStop(lo, hi, l)], p) <= 0
    ensures AtMost(cmp, s, lo, l, p) && AtLeast(cmp, s, r + 1, hi, p)
  {
    hide Order, Compared;
    Self(cmp, p);
  }

  lemma PartedSwap(cmp: Compare, was: seq<nat>, s: seq<nat>, lo: nat, hi: nat, l0: nat, r0: nat, l: nat, r: nat, p: nat)
    requires Parted(cmp, was, s, lo, hi, l0, r0, p) && l0 <= l <= r <= r0 && RightStop(lo, hi, l0) <= r
    requires AtMost(cmp, s, lo, l, p) && AtLeast(cmp, s, r + 1, hi, p)
    requires l < |s| && r < |s| && Compared(cmp, s[l], p) >= 0 && Compared(cmp, s[r], p) <= 0
    ensures lo < r && Parted(cmp, was, Swap(s, l, r), lo, hi, l + 1, r - 1, p)
  {
    SwapSides(cmp, s, lo, hi, l, r, p);
    hide Rearranged, AtMost, AtLeast, Compared;
    SwapRearranges(s, l, r, lo, hi);
    RearrangedTransitive(was, s, Swap(s, l, r), lo, hi);
  }

  lemma PartedMeets(cmp: Compare, was: seq<nat>, s: seq<nat>, lo: nat, hi: nat, l0: nat, r0: nat, l: nat, r: nat,
                    p: nat)
    requires Parted(cmp, was, s, lo, hi, l0, r0, p) && l0 <= l <= LeftStop(lo, hi, l0, r0)
    requires RightStop(lo, hi, l0) <= r <= r0
    requires l0 <= r0 && l <= hi && lo <= r < l
    requires AtMost(cmp, s, lo, l, p) && AtLeast(cmp, s, r + 1, hi, p)
    ensures Parted(cmp, was, s, lo, hi, l, r, p)
  {
  }

  lemma PartedEnd(cmp: Compare, was: seq<nat>, s: seq<nat>, lo: nat, hi: nat, l: nat, r: nat, p: nat)
    requires Parted(cmp, was, s, lo, hi, l, r, p) && r < l
    ensures lo < l <= hi && r + 2 <= hi && Rearranged(was, s, lo, hi)
    ensures AtMost(cmp, s, lo, l, p) && AtLeast(cmp, s, r + 1, hi, p)
  {
  }

  /** The two scans of the partition loop. Each is stopped by an entry, not by its bound. */
  method ScanUp(a: array<nat>, base: nat, n: nat, cmp: Compare, p: nat, l0: nat, ghost stop: nat) returns (l: nat)
    requires base + n <= a.Length && base + l0 <= stop < base + n
    requires Compared(cmp, a[stop], p) >= 0 && AtMost(cmp, a[..], base, base + l0, p)
    ensures l0 <= l && base + l <= stop
    ensures Compared(cmp, a[base + l], p) >= 0 && AtMost(cmp, a[..], base, base + l, p)
  {
    hide *;
    l := l0;
    while l < n && Compared(cmp, a[base + l], p) < 0
      invariant l0 <= l && base + l <= stop
      invariant AtMost(cmp, a[..], base, base + l, p)
      decreases n - l
    {
      OneMore(cmp, a[..], base, base + l, p);
      l := l + 1;
    }
  }

  method ScanDown(a: array<nat>, base: nat, n: nat, cmp: Compare, p: nat, r0: nat, ghost stop: nat) returns (r: int)
    requires base + n <= a.Length && base <= stop <= base + r0 && r0 < n
    requires Compared(cmp, a[stop], p) <= 0 && AtLeast(cmp, a[..], base + r0 + 1, base + n, p)
    ensures r <= r0 && stop <= base + r
    ensures Compared(cmp, a[base + r], p) <= 0 && AtLeast(cmp, a[..], base + r + 1, base + n, p)
  {
    hide *;
    r := r0;
    while r >= 0 && Compared(cmp, a[base + r], p) > 0
      invariant r <= r0 && stop <= base + r
      invariant AtLeast(cmp, a[..], base + r + 1, base + n, p)
      decreases r
    {
      OneLess(cmp, a[..], base + r + 1, base + n, p);
      r := r - 1;
    }
  }

  /** Hoare partitioning of at least two entries. Both cursors stay inside the array: the right
      one never falls below the base, where its unsigned distance would wrap around. */
  method Split(a: array<nat>, base: nat, n: nat, cmp: Compare) returns (left: nat, right: nat, p: nat)
    requires base + n <= a.Length && 1 < n && Order(cmp)
    modifies a
    ensures right < left <= n && 1 <= left && right + 2 <= n
    ensures Rearranged(old(a[..]), a[..], base, base + n)
    ensures AtMost(cmp, a[..], base, base + left, p)
    ensures AtLeast(cmp, a[..], base + right + 1, base + n, p)
  {
    hide *;
    var l: int, r: int := 0, n - 1;
    p := a[base + n / 2];
    ghost var was, lo, hi := a[..], base, base + n;
    PartedStart(cmp, was, lo, hi);
    while l <= r
      invariant 0 <= l <= n && 0 <= r < n
      invariant Parted(cmp, was, a[..], lo, hi, base + l, base + r, p)
      decreases r - l
    {
      ghost var s, l0, r0 := a[..], base + l, base + r;
      Stoppers(cmp, was, s, lo, hi, l0, r0, p);
      l := ScanUp(a, base, n, cmp, p, l, LeftStop(lo, hi, l0, r0));
      r := ScanDown(a, base, n, cmp, p, r, RightStop(lo, hi, l0));
      if l <= r {
        PartedSwap(cmp, was, s, lo, hi, l0, r0, base + l, base + r, p);
        SwapEntries(a, base + l, base + r);
        l := l + 1;
        r := r - 1;
      } else {
        PartedMeets(cmp, was, s, lo, hi, l0, r0, base + l, base + r, p);
      }
    }
    PartedEnd(cmp, was, a[..], lo, hi, base + l, base + r, p);
    left, right := l, r;
  }

  // ---------------------------------------------------------------- quicksort

  /** Sorts n entries from base on and leaves the others. */
  method Sort(a: array<nat>, base: nat, n: nat, cmp: Compare)
    requires base + n <= a.Length && Order(cmp)
    modifies a
    ensures Rearranged(old(a[..]), a[..], base, base + n)
    ensures Sorted(cmp, a[..], base, base + n)
    decreases n
  {
    hide *;
    if n <= 1 {
      RearrangedSelf(a[..], base, base + n);
      SortedShort(cmp, a[..], base, base + n);
      return;
    }
    if n <= 16 {
      InsertionSort(a, base, n, cmp);
      return;
    }
    ghost var was := a[..];
    var left, right, p := Split(a, base, n, cmp);
    ghost var s := a[..];
    var rightElements := right + 1;
    Sort(a, base, rightElements, cmp);
    ghost var t := a[..];
    var leftElements := n - left;
    if leftElements > 0 {
      Sort(a, base + left, leftElements, cmp);
    } else {
      RearrangedSelf(t, base + left, base + n);
      SortedShort(cmp, t, base + left, base + n);
    }
    Halves(cmp, s, t, a[..], base, base + right + 1, base + left, base + n, p);
    RearrangedTransitive(was, s, a[..], base, base + n);
  }

  lemma SortedShort(cmp: Compare, s: seq<nat>, lo: nat, hi: nat)
    requires hi <= |s| && hi <= lo + 1
    ensures Sorted(cmp, s, lo, hi)
  {
  }

  /** Sorting both sides of a partition sorts the whole; the middle needs no sorting. */
  lemma Halves(cmp: Compare, s: seq<nat>, t: seq<nat>, u: seq<nat>, lo: nat, m: nat, k: nat, hi: nat, p: nat)
    requires Order(cmp) && lo <= m <= k <= hi <= |s|
    requires AtMost(cmp, s, lo, k, p) && AtLeast(cmp, s, m, hi, p)
    requires Rearranged(s, t, lo, m) && Sorted(cmp, t, lo, m)
    requires Rearranged(t, u, k, hi) && Sorted(cmp, u, k, hi)
    ensures Rearranged(s, u, lo, hi)
    ensures Sorted(cmp, u, lo, hi)
  {
    BoundsPart(cmp, s, lo, m, k, hi, p);
    hide *;
    RearrangedWithin(s, t, lo, m, lo, hi);
    RearrangedWithin(t, u, k, hi, lo, hi);
    RearrangedTransitive(s, t, u, lo, hi);
    RearrangedBounds(cmp, s, t, lo, m, p);
    BoundsOutside(cmp, s, t, lo, m, m, k, p);
    BoundsOutside(cmp, s, t, lo, m, k, hi, p);
    SameLength(s, t, lo, m);
    SortedOutside(cmp, t, u, k, hi, lo, m);
    BoundsOutside(cmp, t, u, k, hi, lo, m, p);
    BoundsOutside(cmp, t, u, k, hi, m, k, p);
    RearrangedBounds(cmp, t, u, k, hi, p);
    SortedAround(cmp, u, lo, m, k, hi, p);
  }

  lemma SameLength(s: seq<nat>, t: seq<nat>, lo: nat, hi: nat)
    requires Rearranged(s, t, lo, hi)
    ensures |s| == |t|
  {
  }

  lemma BoundsPart(cmp: Compare, s: seq<nat>, lo: nat, m: nat, k: nat, hi: nat, p: nat)
    requires lo <= m <= k <= hi <= |s| && AtMost(cmp, s, lo, k, p) && AtLeast(cmp, s, m, hi, p)
    ensures AtMost(cmp, s, lo, m, p) && AtMost(cmp, s, m, k, p) && AtLeast(cmp, s, m, k, p) && AtLeast(cmp, s, k, hi, p)
  {
  }

  lemma SortedAround(cmp: Compare, s: seq<nat>, lo: nat, m: nat, k: nat, hi: nat, p: nat)
    requires Order(cmp) && lo <= m <= k <= hi <= |s| && Sorted(cmp, s, lo, m) && Sorted(cmp, s, k, hi)
    requires AtMost(cmp, s, lo, m, p) && AtMost(cmp, s, m, k, p)
    requires AtLeast(cmp, s, m, k, p) && AtLeast(cmp, s, k, hi, p)
    ensures Sorted(cmp, s, lo, hi)
  {
    hide Compared, Order;
    forall i, j | lo <= i < j < hi
      ensures Compared(cmp, s[i], s[j]) <= 0
    {
      if m <= j && i < k {
        assert Compared(cmp, s[i], p) <= 0 && Compared(cmp, s[j], p) >= 0;
        Flip(cmp, p, s[j]);
        Chain(cmp, s[i], p, s[j]);
      }
    }
  }
}
