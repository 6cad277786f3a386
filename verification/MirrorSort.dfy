/** The mirrors of a ghost layer are put in order and every rank's list of mirror indices is
    renamed accordingly, then the lists are merged into one array with offsets
    (p4est3_ghost_p4est.c). */
module MirrorSort {
  import opened ContextSort

  /** p4est_quadrant_compare_piggy, for any kind of mirror. */
  type MirrorCompare<!M> = (M, M) -> int

  ghost predicate MirrorOrder<M(!new)>(piggy: MirrorCompare<M>) {
    && (forall x, y :: piggy(x, y) > 0 <==> piggy(y, x) < 0)
    && (forall x, y, z :: piggy(x, y) <= 0 && piggy(y, z) <= 0 ==> piggy(x, z) <= 0)
  }

  ghost predicate InOrder<M>(piggy: MirrorCompare<M>, m: seq<M>) {
    forall i, j :: 0 <= i < j < |m| ==> piggy(m[i], m[j]) <= 0
  }

  /** compare_mirror_indices_context: indices compare as the mirrors they name. */
  function ByMirror<M>(m: seq<M>, piggy: MirrorCompare<M>): Compare {
    (x: nat, y: nat) => if x < |m| && y < |m| then piggy(m[x], m[y]) else x - y
  }

  lemma ByMirrorIsOrder<M(!new)>(m: seq<M>, piggy: MirrorCompare<M>)
    requires MirrorOrder(piggy)
    ensures Order(ByMirror(m, piggy))
  {
  }

  /** compare_locidx */
  function ByIndex(): Compare {
    (x: nat, y: nat) => x - y
  }

  ghost predicate Ascending(s: seq<nat>) {
    forall i, j :: 0 <= i < j < |s| ==> s[i] <= s[j]
  }

  // ---------------------------------------------------------------- names

  ghost predicate Indices(n: nat, s: seq<nat>) {
    forall i :: 0 <= i < |s| ==> s[i] < n
  }

  /** What a list of indices names. */
  ghost function Names<M>(m: seq<M>, s: seq<nat>): (r: seq<M>)
    requires Indices(|m|, s)
    ensures |r| == |s| && forall i :: 0 <= i < |s| ==> r[i] == m[s[i]]
  {
    seq(|s|, i requires 0 <= i < |s| => m[s[i]])
  }

  lemma PermutedIndices(n: nat, s: seq<nat>, t: seq<nat>)
    requires Indices(n, s) && multiset(s) == multiset(t)
    ensures Indices(n, t) && |s| == |t|
  {
    forall i | 0 <= i < |t|
      ensures t[i] < n
    {
      assert t[i] in multiset(t);
      assert t[i] in s;
    }
    assert |multiset(s)| == |s| && |multiset(t)| == |t|;
  }

  function Without(s: seq<nat>, j: nat): seq<nat>
    requires j < |s|
  {
    s[..j] + s[j + 1..]
  }

  lemma NamesWithout<M>(m: seq<M>, s: seq<nat>, j: nat)
    requires Indices(|m|, s) && j < |s|
    ensures Indices(|m|, Without(s, j)) && |Without(s, j)| == |s| - 1
    ensures multiset(Names(m, s)) == multiset{m[s[j]]} + multiset(Names(m, Without(s, j)))
  {
    var r := Names(m, s);
    RemoveOne(r, j);
    assert Names(m, Without(s, j)) == r[..j] + r[j + 1..];
  }

  lemma SomeEqual(s: seq<nat>, t: seq<nat>) returns (j: nat)
    requires |s| > 0 && multiset(s) == multiset(t)
    ensures j < |t| && t[j] == s[0] && multiset(Without(s, 0)) == multiset(Without(t, j))
  {
    assert s[0] in multiset(t);
    j :| 0 <= j < |t| && t[j] == s[0];
    RemoveOne(s, 0);
    RemoveOne(t, j);
  }

  lemma {:induction false} NamesPermuted<M>(m: seq<M>, s: seq<nat>, t: seq<nat>)
    requires Indices(|m|, s) && multiset(s) == multiset(t)
    ensures Indices(|m|, t) && multiset(Names(m, s)) == multiset(Names(m, t))
    decreases |s|
  {
    PermutedIndices(|m|, s, t);
    if s == [] {
      assert Names(m, s) == Names(m, t);
    } else {
      hide *;
      var j := SomeEqual(s, t);
      NamesWithout(m, s, 0);
      NamesWithout(m, t, j);
      NamesPermuted(m, Without(s, 0), Without(t, j));
    }
  }

  lemma RemoveOne<T>(s: seq<T>, j: nat)
    requires j < |s|
    ensures multiset(s) == multiset{s[j]} + multiset(s[..j] + s[j + 1..])
    ensures multiset(s[..j] + s[j + 1..]) == multiset(s) - multiset{s[j]}
  {
    assert s == s[..j] + [s[j]] + s[j + 1..];
  }

  /** 0, 1, ..., n - 1 */
  ghost function Iota(n: nat): (s: seq<nat>)
    ensures |s| == n && forall i :: 0 <= i < n ==> s[i] == i
  {
    seq(n, i requires 0 <= i < n => i)
  }

  /** A rearrangement of 0, ..., n - 1 hits every index exactly once. */
  ghost predicate Bijection(s: seq<nat>) {
    && Indices(|s|, s)
    && (forall i, j :: 0 <= i < j < |s| ==> s[i] != s[j])
    && forall x: nat :: x < |s| ==> x in s
  }

  lemma PermutationIsBijection(s: seq<nat>)
    requires multiset(s) == multiset(Iota(|s|))
    ensures Bijection(s)
  {
    var n := |s|;
    forall i | 0 <= i < n
      ensures s[i] < n
    {
      assert s[i] in multiset(Iota(n));
      assert s[i] in Iota(n);
    }
    forall x: nat | x < n
      ensures x in s
    {
      assert Iota(n)[x] in multiset(Iota(n));
      assert x in multiset(s);
    }
    forall i, j | 0 <= i < j < n
      ensures s[i] != s[j]
    {
      if s[i] == s[j] {
        Twice(s, i, j);
        Once(n, s[i]);
      }
    }
  }

  lemma Twice(s: seq<nat>, i: nat, j: nat)
    requires i < j < |s| && s[i] == s[j]
    ensures multiset(s)[s[i]] >= 2
  {
    assert s == s[..i] + [s[i]] + s[i + 1..j] + [s[j]] + s[j + 1..];
    assert multiset(s) ==
           multiset(s[..i]) + multiset{s[i]} + multiset(s[i + 1..j]) + multiset{s[j]} + multiset(s[j + 1..]);
  }

  lemma {:induction false} Once(n: nat, x: nat)
    ensures multiset(Iota(n))[x] == if x < n then 1 else 0
  {
    if n > 0 {
      Once(n - 1, x);
      assert Iota(n) == Iota(n - 1) + [n - 1];
    }
  }

  // ---------------------------------------------------------------- sorting the mirrors

  /** inv undoes perm. */
  ghost predicate Undoes(inv: seq<nat>, perm: seq<nat>) {
    && |inv| == |perm| && Indices(|perm|, inv) && Indices(|perm|, perm)
    && (forall i :: 0 <= i < |perm| ==> inv[perm[i]] == i)
    && (forall x :: 0 <= x < |perm| ==> perm[inv[x]] == x)
  }

  method Invert(perm: seq<nat>) returns (inv: seq<nat>)
    requires Bijection(perm)
    ensures Undoes(inv, perm)
  {
    var n := |perm|;
    var a := new nat[n];
    var i := 0;
    while i < n
      invariant 0 <= i <= n
      invariant forall k :: 0 <= k < i ==> a[perm[k]] == k
    {
      assert forall k :: 0 <= k < i ==> perm[k] != perm[i];
      a[perm[i]] := i;
      i := i + 1;
    }
    inv := a[..];
    forall x: nat | x < n
      ensures inv[x] < n && perm[inv[x]] == x
    {
      assert x in perm;
      var k :| 0 <= k < n && perm[k] == x;
      assert inv[perm[k]] == k;
    }
  }

  /** Replaces every index of a list by its new one and sorts the list. */
  method Rename(inv: seq<nat>, list: seq<nat>) returns (r: seq<nat>)
    requires Indices(|inv|, list)
    ensures Renamed(inv, list, r)
  {
    var arr := new nat[|list|];
    var j := 0;
    while j < |list|
      invariant 0 <= j <= |list|
      invariant forall k :: 0 <= k < j ==> arr[k] == inv[list[k]]
    {
      arr[j] := inv[list[j]];
      j := j + 1;
    }
    ghost var was := arr[..];
    assert was == Names(inv, list);
    Sort(arr, 0, |list|, ByIndex());
    r := arr[..];
    WholeRearranged(was, r);
    SortedIsAscending(r);
  }

  lemma WholeRearranged(s: seq<nat>, t: seq<nat>)
    requires Rearranged(s, t, 0, |s|)
    ensures |s| == |t| && multiset(s) == multiset(t)
  {
    assert s[0..|s|] == s && t[0..|s|] == t;
  }

  lemma SortedIsAscending(s: seq<nat>)
    requires Sorted(ByIndex(), s, 0, |s|)
    ensures Ascending(s)
  {
    forall i, j | 0 <= i < j < |s|
      ensures s[i] <= s[j]
    {
      assert Compared(ByIndex(), s[i], s[j]) <= 0;
    }
  }

  /** The list r names through the new indices what it named through the old ones. */
  ghost predicate Renamed(inv: seq<nat>, list: seq<nat>, r: seq<nat>) {
    Ascending(r) && Indices(|inv|, list) && multiset(r) == multiset(Names(inv, list))
  }

  ghost predicate SameMirrors<M>(m: seq<M>, list: seq<nat>, sorted: seq<M>, r: seq<nat>) {
    Indices(|m|, list) && Indices(|sorted|, r) && multiset(Names(sorted, r)) == multiset(Names(m, list))
  }

  /** inv sends every mirror's old index to its new one. */
  ghost predicate Follows<M>(inv: seq<nat>, m: seq<M>, sorted: seq<M>) {
    && |inv| == |m| == |sorted| && Indices(|m|, inv)
    && (forall x :: 0 <= x < |m| ==> sorted[inv[x]] == m[x])
    && forall x, y :: 0 <= x < y < |inv| ==> inv[x] != inv[y]
  }

  class GhostFill<M(==,!new)> {
    var mirrors: seq<M>
    var p2m: seq<seq<nat>>

    constructor (mirrors: seq<M>, p2m: seq<seq<nat>>)
      ensures this.mirrors == mirrors && this.p2m == p2m
    {
      this.mirrors, this.p2m := mirrors, p2m;
    }

    /** The mirrors in order, and every list in ascending order naming the same mirrors. */
    method SortMirrorQuadrants(piggy: MirrorCompare<M>) returns (ghost inv: seq<nat>)
      requires MirrorOrder(piggy)
      requires forall i :: 0 <= i < |p2m| ==> Indices(|mirrors|, p2m[i])
      modifies this
      ensures InOrder(piggy, mirrors) && multiset(mirrors) == multiset(old(mirrors))
      ensures Follows(inv, old(mirrors), mirrors)
      ensures |p2m| == |old(p2m)|
      ensures forall i :: 0 <= i < |p2m| ==> Renamed(inv, old(p2m)[i], p2m[i])
      ensures forall i :: 0 <= i < |p2m| ==> SameMirrors(old(mirrors), old(p2m)[i], mirrors, p2m[i])
    {
      var n := |mirrors|;
      if n > 0 {
        hide *;
        var perm, sorted := SortedOrder(mirrors, piggy);
        var inverse := Invert(perm);
        inv := inverse;
        RenamedMirrors(mirrors, sorted, perm, inv);
        mirrors := sorted;
        var ii := 0;
        while ii < |p2m|
          invariant 0 <= ii <= |p2m| == |old(p2m)| && mirrors == sorted
          invariant forall i :: ii <= i < |p2m| ==> p2m[i] == old(p2m)[i]
          invariant forall i :: 0 <= i < ii ==> Renamed(inv, old(p2m)[i], p2m[i])
        {
          var list := Rename(inverse, p2m[ii]);
          p2m := p2m[ii := list];
          ii := ii + 1;
        }
        forall i | 0 <= i < |p2m|
          ensures SameMirrors(old(mirrors), old(p2m)[i], mirrors, p2m[i])
        {
          SameNames(old(mirrors), sorted, inv, old(p2m)[i], p2m[i]);
        }
      } else {
        inv := [];
        forall i | 0 <= i < |p2m|
          ensures p2m[i] == []
        {
          NoIndices(n, p2m[i]);
        }
      }
    }
  }

  lemma NoIndices(n: nat, s: seq<nat>)
    requires Indices(n, s)
    ensures s == [] || n > 0
  {
    if s != [] {
      assert s[0] < n;
    }
  }

  /** Sorts the indices by the mirrors they name, and the mirrors with them. */
  method SortedOrder<M(!new)>(m: seq<M>, piggy: MirrorCompare<M>) returns (perm: seq<nat>, sorted: seq<M>)
    requires MirrorOrder(piggy)
    ensures Bijection(perm) && |perm| == |m| && sorted == Names(m, perm)
    ensures InOrder(piggy, sorted) && multiset(sorted) == multiset(m)
  {
    var n := |m|;
    var a := new nat[n];
    var i := 0;
    while i < n
      invariant 0 <= i <= n
      invariant forall k :: 0 <= k < i ==> a[k] == k
    {
      a[i] := i;
      i := i + 1;
    }
    ghost var was := a[..];
    assert was == Iota(n);
    ByMirrorIsOrder(m, piggy);
    Sort(a, 0, n, ByMirror(m, piggy));
    perm := a[..];
    WholeRearranged(was, perm);
    PermutationIsBijection(perm);
    sorted := seq(n, k requires 0 <= k < n => m[perm[k]]);
    NamesPermuted(m, was, perm);
    assert Names(m, was) == m;
    assert sorted == Names(m, perm);
    SortedMirrors(m, piggy, perm);
  }

  lemma SortedMirrors<M(!new)>(m: seq<M>, piggy: MirrorCompare<M>, perm: seq<nat>)
    requires Indices(|m|, perm) && Sorted(ByMirror(m, piggy), perm, 0, |perm|)
    ensures InOrder(piggy, Names(m, perm))
  {
    forall i, j | 0 <= i < j < |perm|
      ensures piggy(m[perm[i]], m[perm[j]]) <= 0
    {
      assert Compared(ByMirror(m, piggy), perm[i], perm[j]) <= 0;
    }
  }

  lemma RenamedMirrors<M>(m: seq<M>, sorted: seq<M>, perm: seq<nat>, inv: seq<nat>)
    requires Bijection(perm) && |perm| == |m| && sorted == Names(m, perm) && Undoes(inv, perm)
    ensures |inv| == |m| && Follows(inv, m, sorted)
  {
    forall x, y | 0 <= x < y < |inv|
      ensures inv[x] != inv[y]
    {
      assert perm[inv[x]] == x && perm[inv[y]] == y;
    }
  }

  /** A renamed list names the same mirrors. */
  lemma SameNames<M>(m: seq<M>, sorted: seq<M>, inv: seq<nat>, list: seq<nat>, r: seq<nat>)
    requires Follows(inv, m, sorted) && Renamed(inv, list, r)
    ensures SameMirrors(m, list, sorted, r)
  {
    var t := Names(inv, list);
    assert Indices(|m|, t);
    NamesPermuted(sorted, t, r);
    assert Names(sorted, t) == Names(m, list);
  }

  // ---------------------------------------------------------------- merging the lists

  ghost function Flat(lists: seq<seq<nat>>, i: nat): seq<nat>
    requires i <= |lists|
  {
    if i == 0 then [] else Flat(lists, i - 1) + lists[i - 1]
  }

  /** The lists one after the other, delimited by the offsets. */
  method MergeMirrorProcArrays(p2m: seq<seq<nat>>, offsets: array<nat>) returns (merged: array<nat>)
    requires offsets.Length == |p2m| + 1 && offsets[0] == 0
    modifies offsets
    ensures fresh(merged) && merged.Length == offsets[|p2m|] && offsets[0] == 0
    ensures forall i, j :: 0 <= i && j == i + 1 && j < offsets.Length ==>
              offsets[i] + |p2m[i]| == offsets[j] <= merged.Length && merged[offsets[i]..offsets[j]] == p2m[i]
  {
    var total := CountMirrors(p2m, offsets);
    merged := new nat[total];
    ghost var starts := offsets[..];
    var offset := 0;
    var i := 0;
    while i < |p2m|
      invariant 0 <= i <= |p2m| && offset == |Flat(p2m, i)| <= total
      invariant merged[..offset] == Flat(p2m, i) && offsets[..] == starts
    {
      FlatGrows(p2m, i + 1, |p2m|);
      CopyList(merged, offset, p2m[i]);
      offset := offset + |p2m[i]|;
      i := i + 1;
    }
    forall k, j | 0 <= k && j == k + 1 && j < offsets.Length
      ensures offsets[k] + |p2m[k]| == offsets[j] <= merged.Length
      ensures merged[offsets[k]..offsets[j]] == p2m[k]
    {
      assert starts[k] == |Flat(p2m, k)| && starts[j] == |Flat(p2m, j)|;
      FlatGrows(p2m, j, |p2m|);
      assert merged[..] == Flat(p2m, |p2m|);
      assert merged[offsets[k]..offsets[j]] == Flat(p2m, j)[|Flat(p2m, k)|..];
    }
  }

  lemma FlatStep(lists: seq<seq<nat>>, i: nat)
    requires i < |lists|
    ensures |Flat(lists, i + 1)| == |Flat(lists, i)| + |lists[i]|
  {
  }

  lemma FlatStart(lists: seq<seq<nat>>)
    ensures Flat(lists, 0) == []
  {
  }

  method CountMirrors(p2m: seq<seq<nat>>, offsets: array<nat>) returns (total: nat)
    requires offsets.Length == |p2m| + 1 && offsets[0] == 0
    modifies offsets
    ensures total == |Flat(p2m, |p2m|)|
    ensures forall i :: 0 <= i <= |p2m| ==> offsets[i] == |Flat(p2m, i)|
  {
    hide *;
    FlatStart(p2m);
    total := 0;
    var i := 0;
    while i < |p2m|
      invariant 0 <= i <= |p2m| && offsets.Length == |p2m| + 1 && total == |Flat(p2m, i)|
      invariant forall k :: 0 <= k <= i ==> offsets[k] == |Flat(p2m, k)|
    {
      FlatStep(p2m, i);
      total := total + |p2m[i]|;
      offsets[i + 1] := offsets[i] + |p2m[i]|;
      i := i + 1;
    }
  }

  method CopyList(merged: array<nat>, offset: nat, list: seq<nat>)
    requires offset + |list| <= merged.Length
    modifies merged
    ensures merged[..offset + |list|] == old(merged[..offset]) + list
  {
    var j := 0;
    while j < |list|
      invariant 0 <= j <= |list|
      invariant merged[..offset + j] == old(merged[..offset]) + list[..j]
    {
      merged[offset + j] := list[j];
      j := j + 1;
    }
  }

  lemma {:induction false} FlatGrows(lists: seq<seq<nat>>, i: nat, n: nat)
    requires i <= n <= |lists|
    ensures |Flat(lists, i)| <= |Flat(lists, n)| && Flat(lists, n)[..|Flat(lists, i)|] == Flat(lists, i)
    decreases n
  {
    if i < n {
      FlatGrows(lists, i, n - 1);
    }
  }
}
