/** Which leaves around a cut are siblings, found by messages between the ranks that own them
    (p4est_partition_for_coarsening, p4est.c). */
module FamilyMessages {
  import opened Quadrants
  import opened TwoPass
  import opened FamilyCuts
  import opened FamilyCorrection
  import opened MinMax
  import opened PartitionSearch

  // ---------------------------------------------------------------- runs of siblings

  /** First leaf of the run of siblings that ends in i, looking back to `bound`. */
  ghost function RunLow(s: seq<Leaf>, i: nat, bound: int): (r: nat)
    requires i < |s|
    ensures r <= i
  {
    if i > 0 && i - 1 >= bound && Kin(s[i - 1], s[i]) then RunLow(s, i - 1, bound) else i
  }

  ghost function RunHigh(s: seq<Leaf>, i: nat, bound: int): (r: nat)
    requires i < |s|
    ensures i <= r < |s|
    decreases |s| - i
  {
    if i + 1 < |s| && i + 1 <= bound && Kin(s[i], s[i + 1]) then RunHigh(s, i + 1, bound) else i
  }

  ghost predicate Chain(s: seq<Leaf>, a: int, b: int) {
    0 <= a <= b < |s| && forall j, k :: a <= j && k == j + 1 && k <= b ==> Kin(s[j], s[k])
  }

  lemma {:induction false} RunLowChain(s: seq<Leaf>, i: nat, bound: int)
    requires i < |s|
    ensures var r := RunLow(s, i, bound);
            Chain(s, r, i) && (r == i || r >= bound) && (r > 0 && r - 1 >= bound ==> !Kin(s[r - 1], s[r]))
  {
    if RunLow(s, i, bound) != i {
      RunLowChain(s, i - 1, bound);
    }
  }

  lemma {:induction false} RunHighChain(s: seq<Leaf>, i: nat, bound: int)
    requires i < |s|
    ensures var r := RunHigh(s, i, bound);
            Chain(s, i, r) && (r == i || r <= bound) && (r + 1 < |s| && r + 1 <= bound ==> !Kin(s[r], s[r + 1]))
    decreases |s| - i
  {
    if RunHigh(s, i, bound) != i {
      RunHighChain(s, i + 1, bound);
    }
  }

  lemma {:induction false} RunLowIs(s: seq<Leaf>, i: nat, bound: int, m: nat)
    requires Chain(s, m, i) && (m == i || m >= bound)
    requires m > 0 && m - 1 >= bound ==> !Kin(s[m - 1], s[m])
    ensures RunLow(s, i, bound) == m
  {
    if m < i {
      assert Kin(s[i - 1], s[i]);
      RunLowIs(s, i - 1, bound, m);
    }
  }

  lemma {:induction false} RunHighIs(s: seq<Leaf>, i: nat, bound: int, m: nat)
    requires Chain(s, i, m) && (m == i || m <= bound)
    requires m + 1 < |s| && m + 1 <= bound ==> !Kin(s[m], s[m + 1])
    ensures RunHigh(s, i, bound) == m
    decreases |s| - i
  {
    if i < m {
      assert Kin(s[i], s[i + 1]);
      RunHighIs(s, i + 1, bound, m);
    }
  }

  lemma {:induction false} ChainKin(s: seq<Leaf>, a: int, b: int)
    requires Chain(s, a, b) && a < b
    ensures Kin(s[a], s[b])
    decreases b - a
  {
    assert Kin(s[b - 1], s[b]);
    if a < b - 1 {
      ChainKin(s, a, b - 1);
    }
  }

  lemma KinChain(c: Arity, s: seq<Leaf>, a: nat, b: nat)
    requires Contiguous(c, s) && a < b < |s| && b - a < c && Kin(s[a], s[b])
    ensures Chain(s, a, b)
  {
    KinContiguous(c, s, a, b);
    forall j, k | a <= j && k == j + 1 && k <= b
      ensures Kin(s[j], s[k])
    {
      var p := Parent(s[a].quad);
      assert Parent(s[j].quad) == p && Parent(s[k].quad) == p;
    }
  }

  lemma RootAlone(c: Arity, s: seq<Leaf>, i: nat, j: nat)
    requires Contiguous(c, s) && i < |s| && j < |s| && s[i].quad == [] && s[i].tree == s[j].tree
    ensures i == j
  {
    if i < j {
      LeavesAreSorted(c, s, i, j);
    } else if j < i {
      LeavesAreSorted(c, s, j, i);
    }
  }

  // ---------------------------------------------------------------- the run around a cut

  ghost function CutLow(c: Arity, s: seq<Leaf>, cut: nat): nat
    requires cut < |s|
  {
    RunLow(s, cut, cut - c + 1)
  }

  ghost function CutHigh(c: Arity, s: seq<Leaf>, cut: nat): nat
    requires cut < |s|
  {
    RunHigh(s, cut, cut + c - 2)
  }

  /** The run around the cut is a family exactly when the cut splits a family. */
  lemma RunIsCutFamily(c: Arity, s: seq<Leaf>, cut: nat)
    requires Contiguous(c, s) && cut < |s|
    ensures CutHigh(c, s, cut) - CutLow(c, s, cut) + 1 == c ==> FamilyAt(c, s, CutLow(c, s, cut))
    ensures forall f :: CutsFamily(c, s, cut, f) ==> CutLow(c, s, cut) == f && CutHigh(c, s, cut) == f + c - 1
  {
    hide FamilyAt, Contiguous, CutsFamily;
    RunOfSizeC(c, s, cut);
    forall f | CutsFamily(c, s, cut, f)
      ensures CutLow(c, s, cut) == f && CutHigh(c, s, cut) == f + c - 1
    {
      CutFamilyRun(c, s, cut, f);
    }
  }

  lemma RunOfSizeC(c: Arity, s: seq<Leaf>, cut: nat)
    requires Contiguous(c, s) && cut < |s|
    ensures CutHigh(c, s, cut) - CutLow(c, s, cut) + 1 == c ==> FamilyAt(c, s, CutLow(c, s, cut))
  {
    hide FamilyAt, Contiguous;
    var lo, hi := CutLow(c, s, cut), CutHigh(c, s, cut);
    RunLowChain(s, cut, cut - c + 1);
    RunHighChain(s, cut, cut + c - 2);
    if hi - lo + 1 == c {
      ChainJoin(s, lo, cut, hi);
      ChainKin(s, lo, hi);
      FamilyIff(c, s, lo);
    }
  }

  lemma ChainJoin(s: seq<Leaf>, a: int, m: int, b: int)
    requires Chain(s, a, m) && Chain(s, m, b)
    ensures Chain(s, a, b)
  {
    forall j, k | a <= j && k == j + 1 && k <= b
      ensures Kin(s[j], s[k])
    {
    }
  }

  lemma ChainPart(s: seq<Leaf>, a: int, b: int, x: int, y: int)
    requires Chain(s, a, b) && a <= x <= y <= b
    ensures Chain(s, x, y)
  {
  }

  lemma FamilyInside(c: Arity, s: seq<Leaf>, f: nat)
    requires FamilyAt(c, s, f)
    ensures f + c <= |s|
  {
  }

  lemma CutFamilyRun(c: Arity, s: seq<Leaf>, cut: nat, f: int)
    requires Contiguous(c, s) && cut < |s| && CutsFamily(c, s, cut, f)
    ensures CutLow(c, s, cut) == f && CutHigh(c, s, cut) == f + c - 1
  {
    hide FamilyAt, Contiguous, Chain, Kin, RunLow, RunHigh;
    FamilyInside(c, s, f);
    FamilyIff(c, s, f);
    KinChain(c, s, f, f + c - 1);
    FamilyEnds(c, s, f);
    ChainPart(s, f, f + c - 1, f, cut);
    ChainPart(s, f, f + c - 1, cut, f + c - 1);
    RunLowIs(s, cut, cut - c + 1, f);
    RunHighIs(s, cut, cut + c - 2, f + c - 1);
  }

  lemma FamilyEnds(c: Arity, s: seq<Leaf>, f: nat)
    requires Contiguous(c, s) && FamilyAt(c, s, f)
    ensures f > 0 ==> !Kin(s[f - 1], s[f])
    ensures f + c < |s| ==> !Kin(s[f + c - 1], s[f + c])
  {
    FamilyMember(c, s, f, f);
    FamilyMember(c, s, f, f + c - 1);
    if f > 0 && Kin(s[f - 1], s[f]) {
      KinSorted(c, s, f - 1, f);
    }
    if f + c < |s| && Kin(s[f + c - 1], s[f + c]) {
      KinSorted(c, s, f + c - 1, f + c);
    }
  }

  // ---------------------------------------------------------------- what one rank sends

  datatype Msg = Msg(tree: nat, parent: Quad, num: int)

  function KeyParent(q: Quad): Quad {
    if q == [] then [] else Parent(q)
  }

  /** Does a rank with leaves from b up to e have to do with the cut? */
  predicate Relevant(c: Arity, b: int, e: int, cut: int) {
    b < e && b <= cut + c - 2 && cut - c + 1 < e
  }

  function Nearest(b: int, e: int, cut: int): int {
    if b <= cut < e then cut
    else if Abs(cut - b) < Abs(cut - e + 1) then b
    else e - 1
  }

  /** The message about the leaves b to e - 1: parent and tree of the leaf nearest to the
      cut, and how many of its siblings are around it. */
  ghost predicate IsMessage(c: Arity, s: seq<Leaf>, b: int, e: int, cut: int, m: Msg) {
    && 0 <= b < e <= |s| && Relevant(c, b, e, cut)
    && var near := Nearest(b, e, cut);
       var lo, hi := RunLow(s, near, Max(b, cut - c + 1)), RunHigh(s, near, Min(e - 1, cut + c - 2));
       && m.tree == s[near].tree && m.parent == KeyParent(s[near].quad)
       && m.num == if s[near].quad == [] then 1
                   else if near == cut then (cut - lo) * c + (hi - cut)
                   else hi - lo + 1
  }

  /** First local indices of the local trees. */
  ghost predicate TreeStarts(s: seq<Leaf>, b: int, e: int, first: int, starts: seq<int>) {
    && 0 <= b < e <= |s| && |starts| >= 1 && starts[0] == 0
    && (forall k :: 0 <= k < |starts| ==> 0 <= starts[k] < e - b)
    && forall i, k :: b <= i < e && 0 <= k < |starts| ==> (s[i].tree >= first + k <==> i - b >= starts[k])
  }

  /** The local tree of a leaf and its local range. */
  method FindTree(ghost s: seq<Leaf>, b: int, e: int, first: int, starts: seq<int>, near: int)
    returns (tree: int, begin: int, count: int)
    requires TreeStarts(s, b, e, first, starts) && b <= near < e
    requires forall i :: b <= i < e ==> s[i].tree < first + |starts|
    ensures tree == s[near].tree && 0 <= begin <= near - b < begin + count <= e - b
    ensures forall i :: b <= i < e ==> (b + begin <= i < b + begin + count <==> s[i].tree == s[near].tree)
  {
    count := e - b;
    tree := -1;
    var k := 0;
    while k < |starts|
      invariant 0 <= k <= |starts| && count == e - b
      invariant if k == 0 then tree == -1 else tree == first + k - 1 && starts[k - 1] <= near - b
    {
      if starts[k] <= near - b {
        tree := first + k;
      } else {
        count := starts[k];
        break;
      }
      k := k + 1;
    }
    begin := starts[k - 1];
    assert forall i :: b <= i < e ==> (s[i].tree >= first + (k - 1) <==> i - b >= starts[k - 1]);
    assert k < |starts| ==> forall i :: b <= i < e ==> (s[i].tree >= first + k <==> i - b >= starts[k]);
    count := count - begin;
  }

  method Send(c: Arity, s: seq<Leaf>, b: int, e: int, first: int, starts: seq<int>, cut: int) returns (m: Msg)
    requires TreeStarts(s, b, e, first, starts) && Relevant(c, b, e, cut)
    requires forall i :: b <= i < e ==> s[i].tree < first + |starts|
    ensures IsMessage(c, s, b, e, cut, m)
  {
    var near := Nearest(b, e, cut);
    var tree, begin, count := FindTree(s, b, e, first, starts, near);
    var q := s[near].quad;
    if |q| > 0 {
      var lo := near;
      var iq := near;
      var low := Max(b + begin, cut - c + 1);
      while iq >= low
        invariant low - 1 <= iq <= near && lo == Min(iq + 1, near) && Chain(s, lo, near)
        decreases iq
      {
        if |s[iq].quad| == |q| && Parent(q) == Parent(s[iq].quad) {
          ChainGrows(s, iq, lo, near);
          lo := iq;
        } else {
          break;
        }
        iq := iq - 1;
      }
      LowFound(c, s, b, b + begin, cut, near, lo, iq);
      var hi := near;
      iq := near;
      var high := Min(b + begin + count - 1, cut + c - 2);
      while iq <= high
        invariant near <= iq <= high + 1 && hi == Max(iq - 1, near) && Chain(s, near, hi)
        decreases high - iq
      {
        if |s[iq].quad| == |q| && Parent(q) == Parent(s[iq].quad) {
          ChainGrowsUp(s, near, hi, iq);
          hi := iq;
        } else {
          break;
        }
        iq := iq + 1;
      }
      HighFound(c, s, e, b + begin + count, cut, near, hi, iq);
      m := Msg(tree, Parent(q), if near == cut then (cut - lo) * c + (hi - cut) else hi - lo + 1);
    } else {
      m := Msg(tree, q, 1);
    }
  }

  lemma ChainGrows(s: seq<Leaf>, i: int, lo: int, near: int)
    requires Chain(s, lo, near) && 0 <= i && (i == lo - 1 || i == lo == near) && s[near].quad != []
    requires s[i].tree == s[near].tree && |s[i].quad| == |s[near].quad| && Parent(s[i].quad) == Parent(s[near].quad)
    ensures Chain(s, i, near)
  {
    if lo < near {
      ChainKin(s, lo, near);
    }
  }

  lemma ChainGrowsUp(s: seq<Leaf>, near: int, hi: int, i: int)
    requires Chain(s, near, hi) && i < |s| && (i == hi + 1 || i == hi == near) && s[near].quad != []
    requires s[i].tree == s[near].tree && |s[i].quad| == |s[near].quad| && Parent(s[i].quad) == Parent(s[near].quad)
    ensures Chain(s, near, i)
  {
    if near < hi {
      ChainKin(s, near, hi);
    }
  }

  lemma LowFound(c: Arity, s: seq<Leaf>, b: int, start: int, cut: int, near: int, lo: int, i: int)
    requires 0 <= b <= start <= near < |s| && Chain(s, lo, near) && lo == Min(i + 1, near) && s[near].quad != []
    requires Max(start, cut - c + 1) - 1 <= i <= near && near >= cut - c + 1
    requires i < Max(start, cut - c + 1) ||
             !(|s[i].quad| == |s[near].quad| && Parent(s[i].quad) == Parent(s[near].quad))
    requires start > b ==> s[start - 1].tree != s[start].tree
    ensures lo == RunLow(s, near, Max(b, cut - c + 1))
  {
    if lo < near {
      ChainKin(s, lo, near);
    }
    if lo > 0 && Kin(s[lo - 1], s[lo]) {
      SameLevel(s[lo - 1].quad, s[lo].quad);
    }
    RunLowIs(s, near, Max(b, cut - c + 1), lo);
  }

  lemma SameLevel(p: Quad, q: Quad)
    requires p != [] && q != [] && Parent(p) == Parent(q)
    ensures |p| == |q|
  {
    assert |Parent(p)| == |p| - 1;
  }

  lemma HighFound(c: Arity, s: seq<Leaf>, e: int, end: int, cut: int, near: int, hi: int, i: int)
    requires 0 <= near < end <= e <= |s| && Chain(s, near, hi) && hi == Max(i - 1, near) && s[near].quad != []
    requires near <= i <= Min(end - 1, cut + c - 2) + 1 && near <= cut + c - 2
    requires i > Min(end - 1, cut + c - 2) ||
             !(|s[i].quad| == |s[near].quad| && Parent(s[i].quad) == Parent(s[near].quad))
    requires end < e ==> s[end - 1].tree != s[end].tree
    ensures hi == RunHigh(s, near, Min(e - 1, cut + c - 2))
  {
    if near < hi {
      ChainKin(s, near, hi);
    }
    if hi + 1 < |s| && Kin(s[hi], s[hi + 1]) {
      SameLevel(s[hi].quad, s[hi + 1].quad);
    }
    RunHighIs(s, near, Min(e - 1, cut + c - 2), hi);
  }

  // ---------------------------------------------------------------- what the receiver adds up

  /** x moved into the part of the run that lies before the cut. */
  ghost function ClipLow(c: Arity, s: seq<Leaf>, cut: nat, x: int): int
    requires cut < |s|
  {
    Max(CutLow(c, s, cut), Min(x, cut))
  }

  ghost function ClipHigh(c: Arity, s: seq<Leaf>, cut: nat, x: int): int
    requires cut < |s|
  {
    Min(CutHigh(c, s, cut) + 1, Max(x, cut + 1))
  }

  predicate SameKey(a: Msg, b: Msg) {
    a.tree == b.tree && a.parent == b.parent
  }

  lemma SameKeyIsKin(c: Arity, s: seq<Leaf>, i: nat, cut: nat)
    requires Contiguous(c, s) && i < |s| && cut < |s| && i != cut
    ensures s[i].tree == s[cut].tree && KeyParent(s[i].quad) == KeyParent(s[cut].quad) <==> Kin(s[i], s[cut])
  {
    if s[i].tree == s[cut].tree && (s[i].quad == [] || s[cut].quad == []) {
      if s[i].quad == [] {
        RootAlone(c, s, i, cut);
      } else {
        RootAlone(c, s, cut, i);
      }
    }
  }

  /** Ranks outside the window own nothing of the run. */
  lemma IrrelevantGap(c: Arity, s: seq<Leaf>, b: int, e: int, cut: nat)
    requires 0 <= b <= e <= |s| && cut < |s| && !Relevant(c, b, e, cut)
    ensures ClipLow(c, s, cut, b) == ClipLow(c, s, cut, e) && ClipHigh(c, s, cut, b) == ClipHigh(c, s, cut, e)
  {
    hide Kin, Chain, RunLow, RunHigh;
    RunLowChain(s, cut, cut - c + 1);
    RunHighChain(s, cut, cut + c - 2);
  }

  /** Leaves of a rank before the cut: its message counts exactly its part of the run. */
  lemma PartBefore(c: Arity, s: seq<Leaf>, b: int, e: int, cut: nat, m: Msg)
    requires Contiguous(c, s) && cut < |s| && IsMessage(c, s, b, e, cut, m) && e <= cut
    ensures (if m.tree == s[cut].tree && m.parent == KeyParent(s[cut].quad) then m.num else 0) ==
            ClipLow(c, s, cut, e) - ClipLow(c, s, cut, b)
    ensures ClipHigh(c, s, cut, b) == ClipHigh(c, s, cut, e)
  {
    hide Contiguous, Chain, RunLow, RunHigh;
    var lo, w := CutLow(c, s, cut), cut - c + 1;
    assert Nearest(b, e, cut) == e - 1;
    SameKeyIsKin(c, s, e - 1, cut);
    RunLowChain(s, cut, w);
    ChainOne(s, e - 1);
    if Kin(s[e - 1], s[cut]) {
      KinChain(c, s, e - 1, cut);
      LowestOfRun(s, e - 1, cut, w);
      ChainPart(s, lo, cut, Max(b, lo), e - 1);
      RunLowIs(s, e - 1, Max(b, w), Max(b, lo));
      RunHighIs(s, e - 1, Min(e - 1, cut + c - 2), e - 1);
    } else if lo < e {
      ChainPart(s, lo, cut, e - 1, cut);
      ChainKin(s, e - 1, cut);
    }
  }

  lemma ChainOne(s: seq<Leaf>, i: nat)
    requires i < |s|
    ensures Chain(s, i, i)
  {
  }

  lemma {:induction false} LowestOfRun(s: seq<Leaf>, i: nat, cut: nat, w: int)
    requires Chain(s, i, cut) && i >= w
    ensures RunLow(s, cut, w) <= i
    decreases cut
  {
    if i < cut {
      assert Kin(s[cut - 1], s[cut]);
      ChainPart(s, i, cut, i, cut - 1);
      LowestOfRun(s, i, cut - 1, w);
    }
  }

  lemma {:induction false} HighestOfRun(s: seq<Leaf>, cut: nat, i: nat, w: int)
    requires Chain(s, cut, i) && i <= w
    ensures RunHigh(s, cut, w) >= i
    decreases |s| - cut
  {
    if cut < i {
      assert Kin(s[cut], s[cut + 1]);
      ChainPart(s, cut, i, cut + 1, i);
      HighestOfRun(s, cut + 1, i, w);
    }
  }

  lemma PartAfter(c: Arity, s: seq<Leaf>, b: int, e: int, cut: nat, m: Msg)
    requires Contiguous(c, s) && cut < |s| && IsMessage(c, s, b, e, cut, m) && cut < b
    ensures (if m.tree == s[cut].tree && m.parent == KeyParent(s[cut].quad) then m.num else 0) ==
            ClipHigh(c, s, cut, e) - ClipHigh(c, s, cut, b)
    ensures ClipLow(c, s, cut, b) == ClipLow(c, s, cut, e)
  {
    hide Contiguous, Chain, RunLow, RunHigh;
    var hi, w := CutHigh(c, s, cut), cut + c - 2;
    assert Nearest(b, e, cut) == b;
    SameKeyIsKin(c, s, b, cut);
    RunHighChain(s, cut, w);
    ChainOne(s, b);
    if Kin(s[b], s[cut]) {
      KinChain(c, s, cut, b);
      HighestOfRun(s, cut, b, w);
      ChainPart(s, cut, hi, b, Min(e - 1, hi));
      RunHighIs(s, b, Min(e - 1, w), Min(e - 1, hi));
      RunLowIs(s, b, Max(b, cut - c + 1), b);
    } else if hi >= b {
      ChainPart(s, cut, hi, cut, b);
      ChainKin(s, cut, b);
    }
  }

  /** The rank with the cut packs both sides into one number. */
  lemma PartAtCut(c: Arity, s: seq<Leaf>, b: int, e: int, cut: nat, m: Msg)
    requires cut < |s| && IsMessage(c, s, b, e, cut, m) && b <= cut < e
    ensures m.tree == s[cut].tree && m.parent == KeyParent(s[cut].quad)
    ensures m.num / c == ClipLow(c, s, cut, e) - ClipLow(c, s, cut, b)
    ensures m.num % c == ClipHigh(c, s, cut, e) - ClipHigh(c, s, cut, b) + if s[cut].quad == [] then 1 else 0
  {
    hide Kin, Chain, RunLow, RunHigh, CutLow, CutHigh;
    RunsAtCut(c, s, b, e, cut);
    var lo, hi := Max(b, CutLow(c, s, cut)), Min(e - 1, CutHigh(c, s, cut));
    if s[cut].quad == [] {
      RootRun(c, s, cut);
      SmallQuotient(c, 0, 1);
    } else {
      assert m.num == (cut - lo) * c + (hi - cut);
      SmallQuotient(c, cut - lo, hi - cut);
    }
  }

  /** The rank with the cut sees the part of the run that it owns. */
  lemma RunsAtCut(c: Arity, s: seq<Leaf>, b: int, e: int, cut: nat)
    requires 0 <= b <= cut < e <= |s|
    ensures RunLow(s, cut, Max(b, cut - c + 1)) == Max(b, CutLow(c, s, cut))
    ensures RunHigh(s, cut, Min(e - 1, cut + c - 2)) == Min(e - 1, CutHigh(c, s, cut))
    ensures CutLow(c, s, cut) <= cut <= CutHigh(c, s, cut) < cut + c
  {
    hide Kin, Chain, RunLow, RunHigh;
    var lo, hi := CutLow(c, s, cut), CutHigh(c, s, cut);
    RunLowChain(s, cut, cut - c + 1);
    RunHighChain(s, cut, cut + c - 2);
    ChainPart(s, lo, cut, Max(b, lo), cut);
    RunLowIs(s, cut, Max(b, cut - c + 1), Max(b, lo));
    ChainPart(s, cut, hi, cut, Min(e - 1, hi));
    RunHighIs(s, cut, Min(e - 1, cut + c - 2), Min(e - 1, hi));
  }

  lemma RootRun(c: Arity, s: seq<Leaf>, cut: nat)
    requires cut < |s| && s[cut].quad == []
    ensures CutLow(c, s, cut) == cut == CutHigh(c, s, cut)
  {
  }

  lemma SmallQuotient(c: Arity, x: int, y: int)
    requires 0 <= y < c && 0 <= x
    ensures (x * c + y) / c == x && (x * c + y) % c == y
  {
    var k: int := c;
    var n := x * k + y;
    var d := n / k - x;
    assert n == (n / k) * k + n % k;
    assert d * k == (n / k) * k - x * k;
    assert d >= 1 ==> d * k >= k;
    assert d <= -1 ==> d * k <= -k;
  }

  // ---------------------------------------------------------------- all messages

  predicate Concerned(c: Arity, now: seq<int>, cut: int, i: int)
    requires 0 <= i < |now| - 1
  {
    Relevant(c, now[i], now[i + 1], cut)
  }

  /** The ranks below n that have to do with the cut. */
  function Senders(c: Arity, now: seq<int>, cut: int, n: nat): seq<int>
    requires n < |now|
  {
    if n == 0 then []
    else Senders(c, now, cut, n - 1) + if Concerned(c, now, cut, n - 1) then [n - 1] else []
  }

  /** The parts of the run that the ranks in the list own, before the cut and behind it. */
  ghost function PartSum(c: Arity, s: seq<Leaf>, now: seq<int>, cut: nat, procs: seq<int>): (int, int)
    requires cut < |s|
  {
    if procs == [] then (0, 0)
    else
      var n := |procs| - 1;
      var p, rest := procs[n], PartSum(c, s, now, cut, procs[..n]);
      if !(0 <= p < |now| - 1) then rest
      else
        (rest.0 + ClipLow(c, s, cut, now[p + 1]) - ClipLow(c, s, cut, now[p]),
         rest.1 + ClipHigh(c, s, cut, now[p + 1]) - ClipHigh(c, s, cut, now[p]))
  }

  lemma {:induction false} SendersInRange(c: Arity, now: seq<int>, cut: int, n: nat)
    requires n < |now|
    ensures forall k :: 0 <= k < |Senders(c, now, cut, n)| ==>
              0 <= Senders(c, now, cut, n)[k] < n && Concerned(c, now, cut, Senders(c, now, cut, n)[k])
  {
    if n > 0 {
      SendersInRange(c, now, cut, n - 1);
    }
  }

  /** The parts of all senders add up to the whole run. */
  lemma {:induction false} PartsCover(c: Arity, s: seq<Leaf>, now: seq<int>, cut: nat, n: nat)
    requires cut < |s| && Offsets(now) && now[|now| - 1] == |s| && n < |now|
    ensures PartSum(c, s, now, cut, Senders(c, now, cut, n)) ==
            (ClipLow(c, s, cut, now[n]) - ClipLow(c, s, cut, 0), ClipHigh(c, s, cut, now[n]) - ClipHigh(c, s, cut, 0))
  {
    hide ClipLow, ClipHigh, Relevant, Concerned, PartSum;
    if n == 0 {
      NoParts(c, s, now, cut);
    } else {
      var t, u := Senders(c, now, cut, n - 1), Senders(c, now, cut, n);
      PartsCover(c, s, now, cut, n - 1);
      if Concerned(c, now, cut, n - 1) {
        assert u[|t|] == n - 1 && u[..|t|] == t && u[..|t| + 1] == u;
        OnePart(c, s, now, cut, u, |t|);
      } else {
        assert u == t;
        NothingMissed(c, s, now, cut, n - 1);
      }
    }
  }

  lemma NothingMissed(c: Arity, s: seq<Leaf>, now: seq<int>, cut: nat, i: nat)
    requires cut < |s| && Offsets(now) && now[|now| - 1] == |s| && i + 1 < |now| && !Concerned(c, now, cut, i)
    ensures ClipLow(c, s, cut, now[i]) == ClipLow(c, s, cut, now[i + 1])
    ensures ClipHigh(c, s, cut, now[i]) == ClipHigh(c, s, cut, now[i + 1])
  {
    assert 0 <= now[i] <= now[i + 1] <= |s|;
    IrrelevantGap(c, s, now[i], now[i + 1], cut);
  }

  // ---------------------------------------------------------------- windows of ranks

  lemma {:induction false} NoSenders(c: Arity, now: seq<int>, cut: int, m: nat, n: nat)
    requires m <= n < |now| && forall i :: m <= i < n ==> !Concerned(c, now, cut, i)
    ensures Senders(c, now, cut, n) == Senders(c, now, cut, m)
  {
    if m < n {
      NoSenders(c, now, cut, m, n - 1);
    }
  }

  /** The ranks around a cut, as the search gives them. */
  function SenderWindow(c: Arity, now: seq<int>, cut: int): (w: (int, int))
    requires Offsets(now) && 0 <= cut < now[|now| - 1]
    ensures -1 <= w.0 < |now| - 1 && 0 <= w.1 < |now| && w.0 <= w.1
    ensures now[w.1] <= cut + c - 2 && (w.0 >= 0 ==> now[w.0] <= cut)
    ensures w.0 == -1 <==> StartsBefore(c, now[|now| - 1], cut)
  {
    var num := |now| - 1;
    var myBegin, myEnd := cut - c + 1, cut + c - 2;
    if myBegin < 0 && myEnd >= now[num] then (0, num - 1)
    else
      var (begin, end) := FindPartition(now[..num], myBegin, myEnd);
      WindowEnds(c, now, cut, begin, end);
      (if myBegin == now[begin] then begin else begin - 1, if myEnd != now[end] then end - 1 else end)
  }

  lemma SenderWindowIs(c: Arity, now: seq<int>, cut: int)
    requires Offsets(now) && 0 <= cut < now[|now| - 1]
    ensures var w := SenderWindow(c, now, cut);
            && (forall i :: 0 <= i < |now| - 1 && now[i] < now[i + 1] ==> (i >= w.0 <==> now[i + 1] > cut - c + 1))
            && forall i :: w.1 < i < |now| - 1 ==> now[i] == now[w.1] || now[i] > cut + c - 2
  {
    if !(cut - c + 1 < 0 && cut + c - 2 >= now[|now| - 1]) {
      var (begin, end) := FindPartition(now[..|now| - 1], cut - c + 1, cut + c - 2);
      WindowEnds(c, now, cut, begin, end);
    }
  }

  lemma WindowEnds(c: Arity, now: seq<int>, cut: int, begin: int, end: int)
    requires Offsets(now) && 0 <= cut < now[|now| - 1]
    requires FirstFrom(now[..|now| - 1], cut - c + 1, begin) && FirstFrom(now[..|now| - 1], cut + c - 2, end)
    ensures begin <= end && (end == 0 ==> now[0] == cut + c - 2) && (begin == |now| - 1 ==> now[begin] > cut - c + 1)
    ensures begin < end || now[begin] != cut - c + 1
    ensures forall i :: 0 <= i < begin ==> now[i] < cut - c + 1
    ensures forall i :: begin <= i < |now| - 1 ==> now[i] >= cut - c + 1
    ensures forall i :: 0 <= i < end ==> now[i] < cut + c - 2
    ensures forall i :: end <= i < |now| - 1 ==> now[i] >= cut + c - 2
  {
    var a := now[..|now| - 1];
    assert forall i :: 0 <= i < |a| ==> now[i] == a[i];
    assert end < |a| ==> a[end] >= cut + c - 2;
    assert begin < |a| ==> a[begin] >= cut - c + 1;
  }

  /** The first of these indices is not a rank: what lies before the array is read. */
  predicate StartsBefore(c: Arity, total: int, cut: int) {
    cut < c - 1 && cut + c - 2 < total
  }

  /** A forest of eight leaves whose second part is to begin at leaf 1. */
  lemma WindowBeforeFirst()
    ensures Offsets([0, 8, 8]) && SenderWindow(4, [0, 8, 8], 1).0 == -1
  {
  }

  /** Rank -1, if the number that stands before the array makes it look like a rank. */
  function StrayRank(c: Arity, now: seq<int>, cut: int, stray: int): seq<int>
    requires |now| >= 1
  {
    if StartsBefore(c, now[|now| - 1], cut) && stray < 0 then [-1] else []
  }

  function EntryAt(now: seq<int>, i: int, stray: int): int
    requires -1 <= i < |now|
  {
    if i < 0 then stray else now[i]
  }

  /** Inside the window the ranks with leaves are those that have to do with the cut. */
  lemma InWindow(c: Arity, now: seq<int>, cut: int, i: int, end: int)
    requires Offsets(now) && 0 <= cut < now[|now| - 1] && 0 <= i <= end < |now| && i < |now| - 1
    requires SenderWindow(c, now, cut).0 <= i && now[end] <= cut + c - 2
    ensures now[i] <= now[i + 1] && (now[i] < now[i + 1] <==> Concerned(c, now, cut, i))
  {
    assert now[i] <= now[end] && now[i] <= now[i + 1];
    SenderWindowIs(c, now, cut);
  }

  /** Ranks after `end` start where it starts, or too far behind the cut. */
  ghost predicate NearAfter(c: Arity, now: seq<int>, cut: int, end: int)
    requires 0 <= end < |now|
  {
    forall j :: end < j < |now| - 1 ==> now[j] == now[end] || now[j] > cut + c - 2
  }

  /** Behind the window no rank has to do with the cut. */
  lemma BehindWindow(c: Arity, now: seq<int>, cut: int, i: int, end: int)
    requires Offsets(now) && 0 <= cut < now[|now| - 1] && 0 <= i == end + 1 < |now| - 1 && 0 <= end
    requires now[end] < now[i] && NearAfter(c, now, cut, end)
    ensures forall j :: i <= j < |now| - 1 ==> !Concerned(c, now, cut, j)
    ensures cut < now[i]
  {
    forall j | i <= j < |now| - 1
      ensures !Concerned(c, now, cut, j)
    {
      assert now[i] <= now[j];
    }
  }

  /** Before the window neither. */
  lemma BeforeWindow(c: Arity, now: seq<int>, cut: int)
    requires Offsets(now) && 0 <= cut < now[|now| - 1]
    ensures forall j :: 0 <= j < SenderWindow(c, now, cut).0 ==> !Concerned(c, now, cut, j)
    ensures Senders(c, now, cut, Max(SenderWindow(c, now, cut).0, 0)) == []
    ensures SenderWindow(c, now, cut).0 >= 0 ==> forall stray :: StrayRank(c, now, cut, stray) == []
    ensures now[0] == 0
  {
    SenderWindowIs(c, now, cut);
    NoSenders(c, now, cut, 0, Max(SenderWindow(c, now, cut).0, 0));
  }

  /** What is known about the ranks below i of the window: the list of those with leaves, the
      lowest and the highest of them and the one that has the cut. */
  ghost predicate Scanned(c: Arity, now: seq<int>, cut: int, stray: int, i: int, heard: seq<int>,
                          lowest: int, highest: int, withCut: int, id: int)
    requires -1 <= i < |now|
  {
    && heard == (if i < 0 then [] else StrayRank(c, now, cut, stray) + Senders(c, now, cut, i))
    && Spans(c, now, cut, i, i >= 0 && StrayRank(c, now, cut, stray) != [], lowest, highest)
    && (i >= 0 && cut < now[i] ==> HasCut(now, cut, heard, withCut, id))
  }

  ghost predicate Spans(c: Arity, now: seq<int>, cut: int, i: int, strayed: bool, lowest: int, highest: int)
    requires i < |now|
  {
    && 0 <= highest < |now| - 1 && (if strayed then lowest == -1 else 0 <= lowest)
    && forall j :: 0 <= j < i && Concerned(c, now, cut, j) ==> lowest <= j <= highest
  }

  predicate HasCut(now: seq<int>, cut: int, heard: seq<int>, withCut: int, id: int) {
    0 <= id < |heard| && heard[id] == withCut && 0 <= withCut < |now| - 1 && now[withCut] <= cut < now[withCut + 1]
  }

  /** The same together with what is known about the end of the window, which grows over
      empty ranks. */
  ghost predicate InScan(c: Arity, now: seq<int>, cut: int, stray: int, i: int, end: int, heard: seq<int>,
                         lowest: int, highest: int, withCut: int, id: int)
    requires Offsets(now) && 0 <= cut < now[|now| - 1] && -1 <= i < |now| && 0 <= end < |now|
  {
    && SenderWindow(c, now, cut).0 <= i <= end + 1 && now[end] <= cut + c - 2 && NearAfter(c, now, cut, end)
    && (i == end + 1 ==> now[end] < now[i])
    && Scanned(c, now, cut, stray, i, heard, lowest, highest, withCut, id)
  }

  lemma ScanBegins(c: Arity, now: seq<int>, cut: int, stray: int)
    requires Offsets(now) && 0 <= cut < now[|now| - 1]
    ensures var (begin, end) := SenderWindow(c, now, cut);
            -1 <= begin < |now| && 0 <= end < |now| && InScan(c, now, cut, stray, begin, end, [], |now| - 1, 0, -1, -1)
  {
    BeforeWindow(c, now, cut);
    SenderWindowIs(c, now, cut);
  }

  lemma ScanStep(c: Arity, now: seq<int>, cut: int, stray: int, i: int, end: int, heard: seq<int>,
                 lowest: int, highest: int, withCut: int, id: int)
    requires Offsets(now) && 0 <= cut < now[|now| - 1] && -1 <= i < |now| - 1 && i <= end && 0 <= end < |now|
    requires InScan(c, now, cut, stray, i, end, heard, lowest, highest, withCut, id)
    ensures var here := EntryAt(now, i, stray);
            if here < now[i + 1] then
              var found := here <= cut < now[i + 1];
              InScan(c, now, cut, stray, i + 1, end, heard + [i], Min(lowest, i), Max(highest, i),
                     if found then i else withCut, if found then |heard| else id)
            else
              var end' := if i == end && here == now[i + 1] then end + 1 else end;
              end' < |now| && InScan(c, now, cut, stray, i + 1, end', heard, lowest, highest, withCut, id)
  {
    WindowStep(c, now, cut, stray, i, end);
    CountStep(c, now, cut, stray, i, heard, lowest, highest, withCut, id);
    assert i >= 0 ==> now[i] <= now[i + 1];
    hide Scanned, Offsets, SenderWindow, NearAfter, Concerned, StrayRank;
  }

  lemma CountStep(c: Arity, now: seq<int>, cut: int, stray: int, i: int, heard: seq<int>,
                  lowest: int, highest: int, withCut: int, id: int)
    requires Offsets(now) && 0 <= cut < now[|now| - 1] && -1 <= i < |now| - 1
    requires Scanned(c, now, cut, stray, i, heard, lowest, highest, withCut, id)
    requires if i < 0 then StrayRank(c, now, cut, stray) == (if stray < now[0] then [-1] else [])
             else now[i] < now[i + 1] <==> Concerned(c, now, cut, i)
    ensures var here := EntryAt(now, i, stray);
            if here < now[i + 1] then
              var found := here <= cut < now[i + 1];
              Scanned(c, now, cut, stray, i + 1, heard + [i], Min(lowest, i), Max(highest, i),
                      if found then i else withCut, if found then |heard| else id)
            else Scanned(c, now, cut, stray, i + 1, heard, lowest, highest, withCut, id)
  {
    SendersStep(c, now, cut, i);
    SpanStep(c, now, cut, i, lowest, highest, StrayRank(c, now, cut, stray) != []);
    assert now[0] == 0 && (i >= 0 ==> now[i] <= now[i + 1]);
    hide Senders, Concerned, StrayRank, Offsets, Spans, Min, Max;
  }

  lemma SpanStep(c: Arity, now: seq<int>, cut: int, i: int, lowest: int, highest: int, strayed: bool)
    requires -1 <= i < |now| - 1 && Spans(c, now, cut, i, i >= 0 && strayed, lowest, highest)
    ensures i >= 0 ==> Spans(c, now, cut, i + 1, strayed, Min(lowest, i), Max(highest, i))
    ensures i >= 0 && !Concerned(c, now, cut, i) ==> Spans(c, now, cut, i + 1, strayed, lowest, highest)
    ensures i < 0 ==>
              Spans(c, now, cut, i + 1, true, Min(lowest, i), Max(highest, i)) &&
              Spans(c, now, cut, i + 1, false, lowest, highest)
  {
    hide Concerned;
  }

  /** Entry i of the window is the first leaf of a rank that has to do with the cut, or of an
      empty rank, or no rank at all. */
  lemma WindowStep(c: Arity, now: seq<int>, cut: int, stray: int, i: int, end: int)
    requires Offsets(now) && 0 <= cut < now[|now| - 1] && SenderWindow(c, now, cut).0 <= i <= end < |now|
    requires i < |now| - 1
    requires 0 <= end && now[end] <= cut + c - 2
    ensures if i < 0 then StrayRank(c, now, cut, stray) == (if stray < now[0] then [-1] else [])
            else now[i] < now[i + 1] <==> Concerned(c, now, cut, i)
    ensures i == end && now[end + 1] == now[end] && NearAfter(c, now, cut, end) ==> NearAfter(c, now, cut, end + 1)
  {
    if i >= 0 {
      InWindow(c, now, cut, i, end);
    } else {
      StrayIs(c, now, cut, stray);
    }
  }

  lemma ScanEnds(c: Arity, now: seq<int>, cut: int, stray: int, i: int, end: int, heard: seq<int>,
                 lowest: int, highest: int, withCut: int, id: int)
    requires Offsets(now) && 0 <= cut < now[|now| - 1] && -1 <= i < |now| && 0 <= end < |now|
    requires !(i <= end && i < |now| - 1)
    requires InScan(c, now, cut, stray, i, end, heard, lowest, highest, withCut, id)
    ensures heard == StrayRank(c, now, cut, stray) + Senders(c, now, cut, |now| - 1)
    ensures HasCut(now, cut, heard, withCut, id)
    ensures if StrayRank(c, now, cut, stray) == [] then 0 <= lowest else lowest == -1
    ensures 0 <= highest < |now| - 1
    ensures forall j :: 0 <= j < |now| - 1 && Concerned(c, now, cut, j) ==> lowest <= j <= highest
  {
    if i < |now| - 1 {
      BehindWindow(c, now, cut, i, end);
      NoSenders(c, now, cut, i, |now| - 1);
    }
    hide Senders, Concerned, StrayRank, SenderWindow, Offsets;
  }

  /** How many ranks of the window have leaves, the lowest and the highest of them, and which
      has the cut. */
  method ReceiveWindow(c: Arity, now: seq<int>, cut: int, stray: int)
    returns (lowest: int, highest: int, count: int, withCut: int, id: int)
    requires Offsets(now) && 0 <= cut < now[|now| - 1]
    ensures var heard := StrayRank(c, now, cut, stray) + Senders(c, now, cut, |now| - 1);
            count == |heard| && HasCut(now, cut, heard, withCut, id)
    ensures if StrayRank(c, now, cut, stray) == [] then 0 <= lowest else lowest == -1
    ensures 0 <= highest < |now| - 1
    ensures forall j :: 0 <= j < |now| - 1 && Concerned(c, now, cut, j) ==> lowest <= j <= highest
  {
    hide *;
    lowest, highest, count, withCut, id := |now| - 1, 0, 0, -1, -1;
    var (begin, end) := SenderWindow(c, now, cut);
    var i := begin;
    ghost var heard := [];
    ScanBegins(c, now, cut, stray);
    while i <= end && i < |now| - 1
      invariant -1 <= i < |now| && 0 <= end < |now| && count == |heard|
      invariant InScan(c, now, cut, stray, i, end, heard, lowest, highest, withCut, id)
      decreases |now| - i
    {
      var here := EntryAt(now, i, stray);
      ScanStep(c, now, cut, stray, i, end, heard, lowest, highest, withCut, id);
      if here < now[i + 1] {
        lowest, highest, count, withCut, id := CountRank(here, now[i + 1], cut, i, lowest, highest, count, withCut, id);
        heard := heard + [i];
      } else if i == end && here == now[i + 1] {
        end := end + 1;
      }
      i := i + 1;
    }
    ScanEnds(c, now, cut, stray, i, end, heard, lowest, highest, withCut, id);
  }

  /** One more rank with leaves, from b up to e. */
  method CountRank(b: int, e: int, cut: int, i: int, lowest: int, highest: int, count: int, withCut: int, id: int)
    returns (lowest': int, highest': int, count': int, withCut': int, id': int)
    ensures lowest' == Min(lowest, i) && highest' == Max(highest, i) && count' == count + 1
    ensures withCut' == (if b <= cut < e then i else withCut) && id' == if b <= cut < e then count else id
  {
    count' := count + 1;
    lowest', highest', withCut', id' := Min(lowest, i), Max(highest, i), withCut, id;
    if b <= cut && cut < e {
      withCut', id' := i, count' - 1;
    }
  }

  lemma StrayIs(c: Arity, now: seq<int>, cut: int, stray: int)
    requires Offsets(now) && 0 <= cut < now[|now| - 1] && SenderWindow(c, now, cut).0 == -1
    ensures StrayRank(c, now, cut, stray) == if stray < now[0] then [-1] else []
  {
  }

  lemma SendersNone(c: Arity, now: seq<int>, cut: int)
    requires |now| >= 1
    ensures Senders(c, now, cut, 0) == []
  {
  }

  lemma SendersStep(c: Arity, now: seq<int>, cut: int, i: int)
    requires -1 <= i < |now| - 1
    ensures i >= 0 ==>
              Senders(c, now, cut, i + 1) ==
              Senders(c, now, cut, i) + if Concerned(c, now, cut, i) then [i] else []
    ensures i == -1 ==> Senders(c, now, cut, i + 1) == []
  {
  }

  /** The ranks that a receive is posted for. */
  method PostReceives(c: Arity, now: seq<int>, cut: int, stray: int, lowest: int, highest: int)
    returns (procs: seq<int>)
    requires Offsets(now) && 0 <= cut < now[|now| - 1] && 0 <= highest < |now| - 1
    requires if StrayRank(c, now, cut, stray) == [] then 0 <= lowest else lowest == -1
    requires forall j :: 0 <= j < |now| - 1 && Concerned(c, now, cut, j) ==> lowest <= j <= highest
    requires lowest <= highest + 1
    ensures procs == StrayRank(c, now, cut, stray) + Senders(c, now, cut, |now| - 1)
  {
    hide Senders;
    procs := [];
    var i := lowest;
    SendersNone(c, now, cut);
    NoSenders(c, now, cut, 0, Max(lowest, 0));
    while i <= highest
      invariant lowest <= i <= highest + 1
      invariant procs == if i < 0 then [] else StrayRank(c, now, cut, stray) + Senders(c, now, cut, i)
    {
      var here := EntryAt(now, i, stray);
      SendersStep(c, now, cut, i);
      if here < now[i + 1] && here <= cut + c - 2 && cut - c + 1 < now[i + 1] {
        procs := procs + [i];
      }
      i := i + 1;
    }
    NoSenders(c, now, cut, i, |now| - 1);
  }

  /** The ranks to receive from, and which of them owns the cut. */
  method FindSenders(c: Arity, now: seq<int>, cut: int, stray: int) returns (procs: seq<int>, withCut: int, id: int)
    requires Offsets(now) && 0 <= cut < now[|now| - 1]
    ensures procs == StrayRank(c, now, cut, stray) + Senders(c, now, cut, |now| - 1)
    ensures HasCut(now, cut, procs, withCut, id)
  {
    var lowest, highest, count;
    lowest, highest, count, withCut, id := ReceiveWindow(c, now, cut, stray);
    assert Concerned(c, now, cut, withCut);
    procs := PostReceives(c, now, cut, stray, lowest, highest);
  }

  predicate Due(c: Arity, now: seq<int>, part: seq<int>, rank: int, i: int)
    requires 0 <= rank < |now| - 1 && 0 <= i < |part| - 1
  {
    part[i] < part[i + 1] && Relevant(c, now[rank], now[rank + 1], part[i])
  }

  /** The ranks below n to which a rank has something to say about the first leaf of their
      new part; the cut of rank 0 is never in question. */
  function Receivers(c: Arity, now: seq<int>, part: seq<int>, rank: int, n: nat): seq<int>
    requires n < |part| && 0 <= rank < |now| - 1
  {
    if n <= 1 then []
    else
      Receivers(c, now, part, rank, n - 1) + if Due(c, now, part, rank, n - 1) then [n - 1] else []
  }

  lemma {:induction false} NoReceivers(c: Arity, now: seq<int>, part: seq<int>, rank: int, m: nat, n: nat)
    requires 1 <= m <= n < |part| && 0 <= rank < |now| - 1
    requires forall i :: m <= i < n ==> !Due(c, now, part, rank, i)
    ensures Receivers(c, now, part, rank, n) == Receivers(c, now, part, rank, m)
  {
    if m < n {
      NoReceivers(c, now, part, rank, m, n - 1);
    }
  }

  /** The ranks whose cut is near a rank's leaves, as the search gives them. */
  function ReceiverWindow(c: Arity, now: seq<int>, part: seq<int>, rank: int): (w: (int, int))
    requires Offsets(now) && Offsets(part) && 0 <= rank < |now| - 1 && now[rank] < now[rank + 1]
    requires now[|now| - 1] == part[|part| - 1]
    ensures 1 <= w.0 && 0 <= w.1 < |part| - 1
    ensures forall i :: 1 <= i < |part| - 1 ==>
              (Due(c, now, part, rank, i) <==> w.0 <= i <= w.1 && part[i] < part[i + 1])
  {
    var num := |part| - 1;
    var myBegin, myEnd := now[rank] - c + 2, now[rank + 1] - 1 + c;
    assert now[rank + 1] <= now[|now| - 1];
    if myBegin < 0 && myEnd >= part[num] then (1, num - 1)
    else
      var (begin, end) := FindPartition(part[1..num], myBegin, myEnd);
      assert forall i :: 1 <= i < num ==> part[i] == part[1..num][i - 1];
      (begin + 1, end)
  }

  /** How many ranks of the window are to have leaves, the lowest and the highest of them. */
  method SendWindow(c: Arity, now: seq<int>, part: seq<int>, rank: int) returns (lowest: int, highest: int, count: int)
    requires Offsets(now) && Offsets(part) && 0 <= rank < |now| - 1 && now[|now| - 1] == part[|part| - 1]
    ensures count >= 0 && (count > 0 ==> now[rank] < now[rank + 1] && 1 <= lowest <= highest < |part| - 1)
    ensures forall i :: 1 <= i < |part| - 1 && Due(c, now, part, rank, i) ==> count > 0 && lowest <= i <= highest
  {
    lowest, highest, count := |part| - 1, 0, 0;
    if now[rank] >= now[rank + 1] {
      return;
    }
    var (begin, end) := ReceiverWindow(c, now, part, rank);
    hide Due, Offsets;
    var i := begin;
    while i <= end
      invariant begin <= i && (i <= end + 1 || i == begin) && count >= 0
      invariant if count > 0 then begin <= lowest <= highest < |part| - 1 else lowest == |part| - 1 && highest == 0
      invariant forall j :: begin <= j < i && j <= end && part[j] < part[j + 1] ==> count > 0 && lowest <= j <= highest
    {
      if part[i] < part[i + 1] {
        count := count + 1;
        lowest, highest := Min(lowest, i), Max(highest, i);
      }
      i := i + 1;
    }
  }

  /** The ranks to send to. */
  method FindReceivers(c: Arity, now: seq<int>, part: seq<int>, rank: int) returns (procs: seq<int>)
    requires Offsets(now) && Offsets(part) && 0 <= rank < |now| - 1 && now[|now| - 1] == part[|part| - 1]
    ensures procs == Receivers(c, now, part, rank, |part| - 1)
  {
    procs := [];
    var num := |part| - 1;
    var lowest, highest, count := SendWindow(c, now, part, rank);
    NoReceivers(c, now, part, rank, 1, 1);
    if count == 0 {
      NoReceivers(c, now, part, rank, 1, num);
      return;
    }
    NoReceivers(c, now, part, rank, 1, lowest);
    var i := lowest;
    while i <= highest
      invariant lowest <= i <= highest + 1 && procs == Receivers(c, now, part, rank, i)
    {
      if part[i] < part[i + 1] && now[rank] <= part[i] + c - 2 && part[i] - c + 1 < now[rank + 1] {
        procs := procs + [i];
      }
      DueIs(c, now, part, rank, i);
      i := i + 1;
    }
    NoReceivers(c, now, part, rank, highest + 1, num);
  }

  lemma DueIs(c: Arity, now: seq<int>, part: seq<int>, rank: int, i: nat)
    requires Offsets(now) && Offsets(part) && 0 <= rank < |now| - 1 && now[rank] < now[rank + 1] && 1 <= i < |part| - 1
    ensures Receivers(c, now, part, rank, i + 1) ==
            Receivers(c, now, part, rank, i) + if Due(c, now, part, rank, i) then [i] else []
    ensures Due(c, now, part, rank, i) <==>
              part[i] < part[i + 1] && now[rank] <= part[i] + c - 2 && part[i] - c + 1 < now[rank + 1]
  {
  }

  // ---------------------------------------------------------------- decoding

  /** One message about the cut from each of the ranks. */
  ghost predicate Messages(c: Arity, s: seq<Leaf>, now: seq<int>, cut: int, procs: seq<int>, msgs: seq<Msg>) {
    && |msgs| == |procs|
    && forall k :: 0 <= k < |procs| ==>
         0 <= procs[k] < |now| - 1 && IsMessage(c, s, now[procs[k]], now[procs[k] + 1], cut, msgs[k])
  }

  ghost predicate Rising(procs: seq<int>) {
    forall j, k :: 0 <= j < k < |procs| ==> procs[j] < procs[k]
  }

  /** The limits decoded from the messages are those of the run around the cut. */
  method Receive(c: Arity, ghost s: seq<Leaf>, now: seq<int>, cut: nat, procs: seq<int>, withCut: int, id: int,
                 msgs: seq<Msg>)
    returns (lo: int, hi: int)
    requires Divides(c, s, now) && cut < |s| && procs == Senders(c, now, cut, |now| - 1)
    requires HasCut(now, cut, procs, withCut, id)
    requires Messages(c, s, now, cut, procs, msgs) && Rising(procs)
    ensures lo == CutLow(c, s, cut) && hi == CutHigh(c, s, cut) + if s[cut].quad == [] then 1 else 0
  {
    hide IsMessage, ClipLow, ClipHigh, Contiguous, Senders, CutLow, CutHigh, PartSum, Divides, SameKey;
    lo, hi := cut, cut;
    var i := 0;
    ghost var root := if s[cut].quad == [] then 1 else 0;
    NoParts(c, s, now, cut);
    assert procs[..0] == [];
    while i < |procs|
      invariant 0 <= i <= |procs|
      invariant lo == cut - PartSum(c, s, now, cut, procs[..i]).0
      invariant hi == cut + PartSum(c, s, now, cut, procs[..i]).1 + if i > id then root else 0
    {
      var p := procs[i];
      OnePart(c, s, now, cut, procs, i);
      SenderPart(c, s, now, cut, procs, withCut, id, msgs, i);
      if SameKey(msgs[i], msgs[id]) {
        if p < withCut {
          lo := lo - msgs[i].num;
        } else if p > withCut {
          hi := hi + msgs[i].num;
        } else {
          lo := lo - msgs[i].num / c;
          hi := hi + msgs[i].num % c;
        }
      }
      i := i + 1;
    }
    assert procs[..i] == procs;
    LeavesEnd(c, s, now);
    PartsCover(c, s, now, cut, |now| - 1);
    WholeRun(c, s, cut);
  }

  lemma LeavesEnd(c: Arity, s: seq<Leaf>, now: seq<int>)
    requires Divides(c, s, now)
    ensures Offsets(now) && now[0] == 0 && now[|now| - 1] == |s|
  {
  }

  lemma NoParts(c: Arity, s: seq<Leaf>, now: seq<int>, cut: nat)
    requires cut < |s|
    ensures PartSum(c, s, now, cut, []) == (0, 0)
  {
  }

  lemma OnePart(c: Arity, s: seq<Leaf>, now: seq<int>, cut: nat, procs: seq<int>, i: nat)
    requires cut < |s| && i < |procs| && 0 <= procs[i] < |now| - 1
    ensures var p, x, y := procs[i], PartSum(c, s, now, cut, procs[..i]), PartSum(c, s, now, cut, procs[..i + 1]);
            && y.0 == x.0 + ClipLow(c, s, cut, now[p + 1]) - ClipLow(c, s, cut, now[p])
            && y.1 == x.1 + ClipHigh(c, s, cut, now[p + 1]) - ClipHigh(c, s, cut, now[p])
  {
    hide ClipLow, ClipHigh;
    assert procs[..i + 1][..i] == procs[..i];
  }

  /** What is subtracted from lo and added to hi for one message is the sender's part. */
  lemma SenderPart(c: Arity, s: seq<Leaf>, now: seq<int>, cut: nat, procs: seq<int>, withCut: int, id: int,
                   msgs: seq<Msg>, i: nat)
    requires Divides(c, s, now) && cut < |s| && i < |procs|
    requires HasCut(now, cut, procs, withCut, id)
    requires Messages(c, s, now, cut, procs, msgs) && Rising(procs)
    ensures var p, same, num := procs[i], SameKey(msgs[i], msgs[id]), msgs[i].num;
            var low := ClipLow(c, s, cut, now[p + 1]) - ClipLow(c, s, cut, now[p]);
            var high := ClipHigh(c, s, cut, now[p + 1]) - ClipHigh(c, s, cut, now[p]);
            && (p < withCut ==> i < id && high == 0 && low == if same then num else 0)
            && (p > withCut ==> i > id && low == 0 && high == if same then num else 0)
            && (p == withCut ==>
                  i == id && same && low == num / c && high == num % c - if s[cut].quad == [] then 1 else 0)
  {
    hide IsMessage, ClipLow, ClipHigh, Contiguous;
    var p := procs[i];
    assert IsMessage(c, s, now[procs[i]], now[procs[i] + 1], cut, msgs[i]);
    PartAtCut(c, s, now[withCut], now[withCut + 1], cut, msgs[id]);
    if p < withCut {
      assert now[p + 1] <= now[withCut];
      PartBefore(c, s, now[p], now[p + 1], cut, msgs[i]);
    } else if p > withCut {
      assert now[withCut + 1] <= now[p];
      PartAfter(c, s, now[p], now[p + 1], cut, msgs[i]);
    }
  }

  lemma WholeRun(c: Arity, s: seq<Leaf>, cut: nat)
    requires cut < |s|
    ensures ClipLow(c, s, cut, |s|) - ClipLow(c, s, cut, 0) == cut - CutLow(c, s, cut)
    ensures ClipHigh(c, s, cut, |s|) - ClipHigh(c, s, cut, 0) == CutHigh(c, s, cut) - cut
  {
  }

  /** However many ranks share a family, a cut that splits it recognizes it, and what looks
      like a family is one. */
  lemma DecodedIsRecognized(c: Arity, s: seq<Leaf>, cut: nat, lo: int, hi: int)
    requires Contiguous(c, s) && cut < |s| && c > 2
    requires lo == CutLow(c, s, cut) && hi == CutHigh(c, s, cut) + if s[cut].quad == [] then 1 else 0
    ensures Recognized(c, s, cut, lo, hi)
  {
    RunIsCutFamily(c, s, cut);
    hide FamilyAt, Contiguous;
    if s[cut].quad == [] {
      RootRun(c, s, cut);
    }
  }
}
