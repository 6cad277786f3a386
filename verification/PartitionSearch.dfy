/** The search for a window of ranks in a partition array (p4est_find_partition,
    p4est_search.c). */
module PartitionSearch {
  ghost predicate Ascending(a: seq<int>) {
    forall i, j :: 0 <= i <= j < |a| ==> a[i] <= a[j]
  }

  /** Type 0 lies before the window, type 1 inside, type 2 from its end on. */
  function WindowType(x: int, begin: int, end: int): int {
    if x < begin then 0
    else if begin <= x && end > x then 1
    else if end <= x then 2
    else 0
  }

  /** Offset of the entries of type k and above, as sc_array_split returns it. */
  function SplitOffset(a: seq<int>, begin: int, end: int, k: nat): nat {
    if a == [] then 0
    else if WindowType(a[|a| - 1], begin, end) >= k then SplitOffset(a[..|a| - 1], begin, end, k)
    else |a|
  }

  /** n is the first index whose entry is not below x. */
  ghost predicate FirstFrom(a: seq<int>, x: int, n: int) {
    && 0 <= n <= |a| && (forall i :: 0 <= i < n ==> a[i] < x)
    && forall i :: n <= i < |a| ==> a[i] >= x
  }

  lemma {:induction false} SplitIsFirst(a: seq<int>, begin: int, end: int, k: nat)
    requires Ascending(a) && begin <= end && 1 <= k <= 2
    ensures FirstFrom(a, if k == 1 then begin else end, SplitOffset(a, begin, end, k))
  {
    if a != [] {
      SplitIsFirst(a[..|a| - 1], begin, end, k);
    }
  }

  /** The first entries that are not below `begin` and not below `end`. */
  function FindPartition(a: seq<int>, begin: int, end: int): (r: (nat, nat))
    requires Ascending(a) && begin <= end
    ensures FirstFrom(a, begin, r.0) && FirstFrom(a, end, r.1)
  {
    SplitIsFirst(a, begin, end, 1);
    SplitIsFirst(a, begin, end, 2);
    (SplitOffset(a, begin, end, 1), SplitOffset(a, begin, end, 2))
  }
}
