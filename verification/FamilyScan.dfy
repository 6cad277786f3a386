/** The family around a cut, found by reading the leaves of all ranks in shared memory
    (p4est3_partition_correction, p4est3_partition.c).  The scan compares quadrants and not
    their trees. */
module FamilyScan {
  import opened Quadrants
  import opened TwoPass
  import opened FamilyCuts
  import opened FamilyCorrection
  import opened MinMax
  import opened PartitionSearch
  import opened FamilyMessages

  /** Two leaves with the same parent quadrant, in whatever trees. */
  predicate Akin(a: Leaf, b: Leaf) {
    a.quad != [] && b.quad != [] && Parent(a.quad) == Parent(b.quad)
  }

  /** The window that is read. */
  function ScanBegin(c: Arity, cut: int): int {
    Max(cut - (c - 1), 0)
  }

  function ScanEnd(c: Arity, n: int, cut: int): int {
    Min(cut + (c - 1), n - 1)
  }

  /** First and last leaf of the window with the same parent quadrant as the leaf at the cut. */
  ghost predicate ScanLimits(c: Arity, s: seq<Leaf>, cut: nat, lo: int, hi: int)
    requires cut < |s|
  {
    var begin, end := ScanBegin(c, cut), ScanEnd(c, |s|, cut);
    && begin <= lo <= cut <= hi <= end && Akin(s[lo], s[cut]) && Akin(s[cut], s[hi])
    && (forall i :: begin <= i < lo ==> !Akin(s[i], s[cut]))
    && (forall i :: hi < i <= end ==> !Akin(s[cut], s[i]))
  }

  /** Reads the part of the window that each rank stores. */
  method Scan(c: Arity, s: seq<Leaf>, now: seq<int>, last: seq<int>, cut: nat) returns (lo: int, hi: int)
    requires Offsets(now) && now[|now| - 1] == |s| && last == LastIndices(now) && cut < |s| && s[cut].quad != []
    ensures ScanLimits(c, s, cut, lo, hi)
  {
    var begin, end := ScanBegin(c, cut), ScanEnd(c, |s|, cut);
    var parent := Parent(s[cut].quad);
    LastIndicesOrdered(now);
    var (fromBegin, fromEnd) := FindPartition(last, begin, end);
    WindowStored(now, begin, end, fromBegin, fromEnd);
    hide Offsets, Akin, Seen, LastIndices, ScanBegin, ScanEnd, FirstFrom, Max, Min;
    lo, hi := -1, -1;
    SeenNothing(s, cut, begin);
    assert Max(begin, now[fromBegin]) == begin by { MaxOf(begin, now[fromBegin]); }
    var p := fromBegin;
    while p <= fromEnd
      invariant fromBegin <= p <= fromEnd + 1
      invariant Seen(s, cut, begin, if p <= fromEnd then Max(begin, now[p]) else end + 1, lo, hi)
    {
      RankInWindow(now, begin, end, fromBegin, fromEnd, p);
      lo, hi := ReadRank(s, cut, parent, begin, Max(begin, now[p]), Min(end, last[p]), lo, hi);
      p := p + 1;
    }
    ScanDone(c, s, cut, lo, hi);
  }

  lemma MaxOf(a: int, b: int)
    requires b <= a
    ensures Max(a, b) == a
  {
  }

  lemma SeenNothing(s: seq<Leaf>, cut: nat, begin: int)
    requires cut < |s| && 0 <= begin <= |s|
    ensures Seen(s, cut, begin, begin, -1, -1)
  {
  }

  lemma ScanDone(c: Arity, s: seq<Leaf>, cut: nat, lo: int, hi: int)
    requires cut < |s| && s[cut].quad != [] && Seen(s, cut, ScanBegin(c, cut), ScanEnd(c, |s|, cut) + 1, lo, hi)
    ensures ScanLimits(c, s, cut, lo, hi)
  {
  }

  /** The leaves of rank p in the window continue where those of the ranks before it end. */
  lemma RankInWindow(now: seq<int>, begin: int, end: int, from: int, to: int, p: int)
    requires Offsets(now) && 0 <= begin <= end < now[|now| - 1] && 0 <= from <= p <= to < |now| - 1
    requires FirstFrom(LastIndices(now), begin, from) && FirstFrom(LastIndices(now), end, to)
    ensures p < |LastIndices(now)| && 0 <= Max(begin, now[p]) <= end + 1 && Min(end, LastIndices(now)[p]) <= end
    ensures Max(Max(begin, now[p]), Min(end, LastIndices(now)[p]) + 1) ==
            if p + 1 <= to then Max(begin, now[p + 1]) else end + 1
  {
    PartInside(now, p);
    var last := LastIndices(now);
    assert p > 0 ==> last[p - 1] == now[p] - 1;
    assert last[to] >= end;
  }

  /** Reads the leaves from `first` to `stop`, those of one rank in the window. */
  method ReadRank(s: seq<Leaf>, ghost cut: nat, parent: Quad, ghost begin: int, first: int, stop: int, lo: int, hi: int)
    returns (lo': int, hi': int)
    requires cut < |s| && s[cut].quad != [] && parent == Parent(s[cut].quad) && 0 <= begin <= first && stop < |s|
    requires first <= |s|
    requires Seen(s, cut, begin, first, lo, hi)
    ensures Seen(s, cut, begin, Max(first, stop + 1), lo', hi')
  {
    lo', hi' := lo, hi;
    var id := first;
    while id <= stop
      invariant first <= id <= Max(first, stop + 1) && Seen(s, cut, begin, id, lo', hi')
    {
      if s[id].quad != [] && Parent(s[id].quad) == parent {
        hi' := id;
        lo' := if lo' == -1 then hi' else lo';
      }
      id := id + 1;
    }
  }

  /** The ranks found hold the whole window. */
  lemma WindowStored(now: seq<int>, begin: int, end: int, from: int, to: int)
    requires Offsets(now) && 0 <= begin <= end < now[|now| - 1]
    requires FirstFrom(LastIndices(now), begin, from) && FirstFrom(LastIndices(now), end, to)
    ensures 0 <= from <= to < |now| - 1 && now[from] <= begin && now[to + 1] > end
  {
    var last := LastIndices(now);
    assert last[|last| - 1] >= end;
    assert to < |last| && last[to] >= end;
    assert from <= to;
    assert from > 0 ==> last[from - 1] < begin;
  }

  /** lo and hi are the first and the last such leaf from begin up to i, or -1. */
  ghost predicate Seen(s: seq<Leaf>, cut: nat, begin: int, i: int, lo: int, hi: int)
    requires cut < |s| && 0 <= begin && i <= |s|
  {
    && (if lo == -1 then hi == -1 && forall j :: begin <= j < i ==> !Akin(s[j], s[cut])
        else
          && begin <= lo <= hi < i && Akin(s[lo], s[cut]) && Akin(s[cut], s[hi])
          && (forall j :: begin <= j < lo ==> !Akin(s[j], s[cut]))
          && (forall j :: hi < j < i ==> !Akin(s[cut], s[j])))
  }

  // ---------------------------------------------------------------- when the scan is right

  /** A leaf of another tree in the window has the same parent quadrant. */
  ghost predicate Foreign(c: Arity, s: seq<Leaf>, cut: nat)
    requires cut < |s|
  {
    exists i :: ScanBegin(c, cut) <= i <= ScanEnd(c, |s|, cut) && s[i].tree != s[cut].tree && Akin(s[i], s[cut])
  }

  /** The limits name the family that the cut splits, and nothing that is no family, exactly
      when no leaf of another tree interferes, or it does so where no family is split and
      the limits are not c leaves apart. */
  lemma ScanIsRecognizedIff(c: Arity, s: seq<Leaf>, cut: nat, lo: int, hi: int)
    requires Contiguous(c, s) && cut < |s| && s[cut].quad != [] && ScanLimits(c, s, cut, lo, hi)
    ensures Recognized(c, s, cut, lo, hi) <==>
            (Foreign(c, s, cut) ==> hi - lo + 1 != c && forall f :: !CutsFamily(c, s, cut, f))
  {
    hide FamilyAt, Contiguous;
    if Foreign(c, s, cut) {
      if hi - lo + 1 == c && FamilyAt(c, s, lo) {
        NoForeignFamily(c, s, cut, lo, hi, lo);
      }
      forall f | CutsFamily(c, s, cut, f)
        ensures !(lo == f && hi == f + c - 1)
      {
        if lo == f && hi == f + c - 1 {
          NoForeignFamily(c, s, cut, lo, hi, f);
        }
      }
    } else {
      ScanIsRecognized(c, s, cut, lo, hi);
    }
  }

  /** A family between the limits leaves no room for a leaf of another tree. */
  lemma NoForeignFamily(c: Arity, s: seq<Leaf>, cut: nat, lo: int, hi: int, f: int)
    requires cut < |s| && ScanLimits(c, s, cut, lo, hi) && 0 <= f && FamilyAt(c, s, f) && lo == f && hi == f + c - 1
    ensures !Foreign(c, s, cut)
  {
    forall i | ScanBegin(c, cut) <= i <= ScanEnd(c, |s|, cut) && Akin(s[i], s[cut])
      ensures s[i].tree == s[cut].tree
    {
      assert lo <= i <= hi;
      FamilyMember(c, s, f, i);
      FamilyMember(c, s, f, cut);
    }
  }

  /** Without leaves of other trees the limits name the family whenever the cut splits one. */
  lemma ScanIsRecognized(c: Arity, s: seq<Leaf>, cut: nat, lo: int, hi: int)
    requires Contiguous(c, s) && cut < |s| && s[cut].quad != [] && ScanLimits(c, s, cut, lo, hi) && !Foreign(c, s, cut)
    ensures Recognized(c, s, cut, lo, hi)
  {
    OwnTree(c, s, cut, lo, hi);
    if hi - lo + 1 == c {
      FamilyIff(c, s, lo);
    }
    forall f | CutsFamily(c, s, cut, f)
      ensures lo == f && hi == f + c - 1
    {
      FamilyLimits(c, s, cut, lo, hi, f);
    }
  }

  lemma OwnTree(c: Arity, s: seq<Leaf>, cut: nat, lo: int, hi: int)
    requires cut < |s| && ScanLimits(c, s, cut, lo, hi) && !Foreign(c, s, cut)
    ensures KinLimits(c, s, cut, lo, hi)
  {
  }

  /** First and last sibling in the window. */
  ghost predicate KinLimits(c: Arity, s: seq<Leaf>, cut: nat, lo: int, hi: int)
    requires cut < |s|
  {
    var begin, end := ScanBegin(c, cut), ScanEnd(c, |s|, cut);
    && begin <= lo <= cut <= hi <= end && Kin(s[lo], s[cut]) && Kin(s[cut], s[hi])
    && (forall i :: begin <= i < lo ==> !Kin(s[i], s[cut]))
    && (forall i :: hi < i <= end ==> !Kin(s[cut], s[i]))
  }

  lemma FamilyLimits(c: Arity, s: seq<Leaf>, cut: nat, lo: int, hi: int, f: int)
    requires Contiguous(c, s) && cut < |s| && CutsFamily(c, s, cut, f)
    requires KinLimits(c, s, cut, lo, hi)
    ensures lo == f && hi == f + c - 1
  {
    FamilyMember(c, s, f, cut);
    FamilyMember(c, s, f, f + c - 1);
    FamilyEnds(c, s, f);
    ChainOne(s, cut);
    if lo < cut {
      KinChain(c, s, lo, cut);
    }
    if cut < hi {
      KinChain(c, s, cut, hi);
    }
    ChainStep(s, lo, cut, f);
    ChainStep(s, cut, hi, f + c);
  }

  lemma ChainStep(s: seq<Leaf>, a: int, b: int, i: int)
    requires Chain(s, a, b)
    ensures a < i <= b ==> Kin(s[i - 1], s[i])
  {
  }

  // ---------------------------------------------------------------- the cut after the correction

  ghost predicate Splits(c: Arity, s: seq<Leaf>, cut: int) {
    exists f :: CutsFamily(c, s, cut, f)
  }

  /** The new cut of rank r: what the correction makes of the limits found. */
  ghost predicate Corrected(c: Arity, s: seq<Leaf>, part: seq<int>, r: int, moved: int)
    requires 0 <= r < |part| - 1 && 0 <= part[r] < |s|
  {
    if s[part[r]].quad == [] then moved == part[r]
    else exists lo, hi :: ScanLimits(c, s, part[r], lo, hi) && Corrects(c, part, r, lo, hi, part[r] - moved)
  }

  /** A cut splits a family after its correction exactly when it did so before and a leaf of
      another tree interferes. */
  lemma SplitsAfterIff(c: Arity, s: seq<Leaf>, part: seq<int>, r: int, lo: int, hi: int, corr: int)
    requires Divides(c, s, part) && 0 <= r < |part| - 1 && 0 <= part[r] < |s| && s[part[r]].quad != []
    requires ScanLimits(c, s, part[r], lo, hi) && Corrects(c, part, r, lo, hi, corr)
    ensures Splits(c, s, part[r] - corr) <==> Foreign(c, s, part[r]) && Splits(c, s, part[r])
  {
    hide FamilyAt, Contiguous, Winner, ScanLimits, Foreign;
    var cut := part[r];
    if f :| CutsFamily(c, s, cut, f) {
      FamilyInWindow(c, s, cut, lo, hi, f);
      if Foreign(c, s, cut) {
        if hi - lo + 1 == c {
          NoForeignFamily(c, s, cut, lo, hi, f);
        }
      } else {
        ScanIsRecognized(c, s, cut, lo, hi);
      }
    }
    var moved := cut - corr;
    if hi - lo + 1 == c {
      if f :| CutsFamily(c, s, moved, f) {
        EndsAreBorders(c, s, part, r, lo, hi, corr, f);
      }
    }
  }

  /** The limits hold every family that the cut splits. */
  lemma FamilyInWindow(c: Arity, s: seq<Leaf>, cut: nat, lo: int, hi: int, f: int)
    requires cut < |s| && ScanLimits(c, s, cut, lo, hi) && CutsFamily(c, s, cut, f)
    ensures lo <= f && f + c - 1 <= hi
  {
    FamilyInside(c, s, f);
    FamilyMember(c, s, f, cut);
    FamilyMember(c, s, f, f + c - 1);
  }

  /** Neither end of c leaves found lies inside a family: if it did, the window would end there
      and the winner would send the cut to the other end. */
  lemma EndsAreBorders(c: Arity, s: seq<Leaf>, part: seq<int>, r: int, lo: int, hi: int, corr: int, f: int)
    requires Offsets(part) && 0 <= r < |part| - 1 && 0 <= part[r] < |s|
    requires ScanLimits(c, s, part[r], lo, hi) && Corrects(c, part, r, lo, hi, corr) && hi - lo + 1 == c
    ensures !CutsFamily(c, s, part[r] - corr, f)
  {
    var w :| Winner(part, lo, hi, w) && part[r] - corr == if w < r then hi + 1 else lo;
    hide *;
    WinnerSide(part, r, lo, hi, w);
    FamilyAtEnd(c, s, part[r], lo, hi, f);
  }

  /** A family that continues beyond an end of c leaves found starts or ends outside the window. */
  lemma FamilyAtEnd(c: Arity, s: seq<Leaf>, cut: nat, lo: int, hi: int, f: int)
    requires cut < |s| && ScanLimits(c, s, cut, lo, hi) && hi - lo + 1 == c
    ensures CutsFamily(c, s, lo, f) ==> hi == cut
    ensures CutsFamily(c, s, hi + 1, f) ==> lo == cut
  {
    hide FamilyAt;
    if CutsFamily(c, s, lo, f) {
      FamilyMember(c, s, f, lo - 1);
      FamilyMember(c, s, f, lo);
    }
    if CutsFamily(c, s, hi + 1, f) {
      FamilyInside(c, s, f);
      FamilyMember(c, s, f, hi);
      FamilyMember(c, s, f, hi + 1);
    }
  }

  /** A rank that begins at the first leaf is not behind the winner, one that begins at the last
      leaf is. */
  lemma WinnerSide(part: seq<int>, r: int, lo: int, hi: int, w: int)
    requires Offsets(part) && 0 <= r < |part| - 1 && 0 <= lo < hi && Winner(part, lo, hi, w)
    ensures part[r] == lo ==> r <= w
    ensures part[r] == hi ==> w < r
  {
    if part[r] == hi {
      var q := HolderExists(part, lo, hi, r);
    }
  }

  // ---------------------------------------------------------------- where the cut should go

  /** The cut goes where it should: a condition on the leaves around it. */
  ghost predicate ScanFits(c: Arity, s: seq<Leaf>, cut: nat)
    requires cut < |s|
  {
    Foreign(c, s, cut) ==>
      && !Splits(c, s, cut)
      && forall lo, hi :: ScanLimits(c, s, cut, lo, hi) ==> hi - lo + 1 != c || lo == cut
  }

  lemma LimitsUnique(c: Arity, s: seq<Leaf>, cut: nat, lo: int, hi: int, lo': int, hi': int)
    requires cut < |s| && ScanLimits(c, s, cut, lo, hi) && ScanLimits(c, s, cut, lo', hi')
    ensures lo == lo' && hi == hi'
  {
  }

  lemma FitsIff(c: Arity, s: seq<Leaf>, cut: nat, lo: int, hi: int)
    requires cut < |s| && ScanLimits(c, s, cut, lo, hi)
    ensures ScanFits(c, s, cut) <==>
            (Foreign(c, s, cut) ==> !Splits(c, s, cut) && (hi - lo + 1 != c || lo == cut))
  {
    hide ScanLimits, Foreign, Splits;
    forall lo', hi' | ScanLimits(c, s, cut, lo', hi')
      ensures lo' == lo && hi' == hi
    {
      LimitsUnique(c, s, cut, lo, hi, lo', hi');
    }
  }

  /** The correction moves the cut as specified exactly when the scan fits. */
  lemma MovesToIff(c: Arity, s: seq<Leaf>, part: seq<int>, r: int, lo: int, hi: int, corr: int)
    requires Divides(c, s, part) && 0 <= r < |part| - 1 && 0 <= part[r] < |s| && s[part[r]].quad != []
    requires ScanLimits(c, s, part[r], lo, hi) && Corrects(c, part, r, lo, hi, corr)
    ensures MovesTo(c, s, part, r, part[r] - corr) <==> ScanFits(c, s, part[r])
  {
    hide FamilyAt, Contiguous, Foreign, ScanLimits, ScanFits, MovesTo, CutsFamily;
    var cut := part[r];
    FitsIff(c, s, cut, lo, hi);
    if !Foreign(c, s, cut) {
      ScanIsRecognized(c, s, cut, lo, hi);
      CorrectionMoves(c, s, part, r, lo, hi, corr);
    } else if Splits(c, s, cut) {
      SplitsAfterIff(c, s, part, r, lo, hi, corr);
      var moved := cut - corr;
      if MovesTo(c, s, part, r, moved) {
        var f :| CutsFamily(c, s, moved, f);
        MovedCutsNothing(c, s, part, r, moved, f);
      }
    } else {
      StaysIff(c, s, part, r, lo, hi, corr);
      UnsplitStays(c, s, part, r, cut - corr);
    }
  }

  lemma UnsplitStays(c: Arity, s: seq<Leaf>, part: seq<int>, r: int, cut: int)
    requires 0 <= r < |part| && !Splits(c, s, part[r])
    ensures MovesTo(c, s, part, r, cut) <==> cut == part[r]
  {
  }

  lemma StaysIff(c: Arity, s: seq<Leaf>, part: seq<int>, r: int, lo: int, hi: int, corr: int)
    requires Offsets(part) && 0 <= r < |part| - 1 && 0 <= part[r] < |s|
    requires ScanLimits(c, s, part[r], lo, hi) && Corrects(c, part, r, lo, hi, corr)
    ensures corr == 0 <==> hi - lo + 1 != c || lo == part[r]
  {
    if hi - lo + 1 == c {
      var w :| Winner(part, lo, hi, w) && part[r] - corr == if w < r then hi + 1 else lo;
      assert w < r ==> part[w + 1] <= part[r];
    }
  }

  lemma RootIsNotCut(c: Arity, s: seq<Leaf>, part: seq<int>, rk: int)
    requires Divides(c, s, part) && 0 <= rk < |part| - 1 && part[rk] < |s| && s[part[rk]].quad == []
    ensures MovesTo(c, s, part, rk, part[rk]) && ScanFits(c, s, part[rk])
    ensures !Splits(c, s, part[rk]) && !Foreign(c, s, part[rk])
  {
    forall f
      ensures !CutsFamily(c, s, part[rk], f)
    {
      CutIsInside(c, s, part[rk], f);
    }
  }

  lemma CutIsInside(c: Arity, s: seq<Leaf>, cut: int, f: int)
    ensures CutsFamily(c, s, cut, f) ==> 0 <= f < cut < |s| && s[cut].quad != []
  {
    if CutsFamily(c, s, cut, f) {
      FamilyInside(c, s, f);
      FamilyMember(c, s, f, cut);
      assert s[cut].quad == Child(Parent(s[f].quad), cut - f);
    }
  }

  /** A new cut splits a family exactly when the old one did and a leaf of another tree
      interferes; it is the specified one exactly when the scan fits. */
  lemma CorrectedIff(c: Arity, s: seq<Leaf>, part: seq<int>, r: int, moved: int)
    requires Divides(c, s, part) && 0 <= r < |part| - 1 && 0 <= part[r] < |s| && Corrected(c, s, part, r, moved)
    ensures Splits(c, s, moved) <==> Foreign(c, s, part[r]) && Splits(c, s, part[r])
    ensures MovesTo(c, s, part, r, moved) <==> ScanFits(c, s, part[r])
  {
    hide MovesTo, Contiguous, Corrects, Splits, ScanFits, ScanLimits, Foreign;
    if s[part[r]].quad == [] {
      RootIsNotCut(c, s, part, r);
    } else {
      var lo, hi :| ScanLimits(c, s, part[r], lo, hi) && Corrects(c, part, r, lo, hi, part[r] - moved);
      SplitsAfterIff(c, s, part, r, lo, hi, part[r] - moved);
      MovesToIff(c, s, part, r, lo, hi, part[r] - moved);
    }
  }

  // ---------------------------------------------------------------- two forests

  /** Two trees of four leaves each and a cut inside the second: the last leaves of the first
      tree are taken for siblings, six in all, and the family stays split. */
  lemma ForeignMisleads(c: Arity, s: seq<Leaf>, part: seq<int>, r: int, moved: int)
    requires c == 4 && TwoTrees(s) && Offsets(part) && part[|part| - 1] == 8
    requires 0 <= r < |part| - 1 && part[r] == 5 && Corrected(c, s, part, r, moved)
    ensures Fills(c, s, ForestPosition(0, []), ForestPosition(2, [])) && Divides(c, s, part)
    ensures CutsFamily(c, s, part[r], 4) && CutsFamily(c, s, moved, 4)
  {
    hide Fills, CutsFamily, ScanLimits, Offsets;
    TwoTreesFill(c, s);
    SecondFamily(c, s);
    FillsContiguous(c, s);
    assert TwoTreesAt(s, 5);
    var lo, hi :| ScanLimits(c, s, 5, lo, hi) && Corrects(c, part, r, lo, hi, part[r] - moved);
    SixAkin(c, s, lo, hi);
  }

  lemma FillsContiguous(c: Arity, s: seq<Leaf>)
    requires (TwoTrees(s) || ThreeTrees(s)) && exists b, e :: Fills(c, s, b, e)
    ensures Contiguous(c, s) && |s| == if TwoTrees(s) then 8 else 15
  {
  }

  lemma SixAkin(c: Arity, s: seq<Leaf>, lo: int, hi: int)
    requires c == 4 && TwoTrees(s) && ScanLimits(c, s, 5, lo, hi)
    ensures lo == 2 && hi == 7
  {
    assert TwoTreesAt(s, 2) && TwoTreesAt(s, 5) && TwoTreesAt(s, 7);
    assert Akin(s[2], s[5]) && Akin(s[5], s[7]);
  }

  lemma SecondFamily(c: Arity, s: seq<Leaf>)
    requires c == 4 && TwoTrees(s)
    ensures CutsFamily(c, s, 5, 4)
  {
    assert TwoTreesAt(s, 4);
    forall j | 4 <= j < 8
      ensures s[j] == Leaf(s[4].tree, Child(Parent(s[4].quad), j - 4))
    {
      assert TwoTreesAt(s, j);
    }
  }

  lemma TwoTreesFill(c: Arity, s: seq<Leaf>)
    requires c == 4 && TwoTrees(s)
    ensures Fills(c, s, ForestPosition(0, []), ForestPosition(2, []))
  {
    hide EndOf, BeginOf, TwoTreesAt, IsQuad;
    forall i | 0 <= i < 8
      ensures IsQuad(c, s[i].quad)
    {
      MemberPosition(c, s, i);
    }
    forall i, j | 0 <= i && j == i + 1 && j < 8
      ensures EndOf(c, s[i]) == BeginOf(s[j])
    {
      MemberPosition(c, s, i);
      MemberPosition(c, s, j);
    }
    MemberPosition(c, s, 0);
    MemberPosition(c, s, 7);
  }

  /** Two trees refined once. */
  ghost predicate TwoTrees(s: seq<Leaf>) {
    |s| == 8 && forall i :: 0 <= i < 8 ==> TwoTreesAt(s, i)
  }

  predicate TwoTreesAt(s: seq<Leaf>, i: nat)
    requires i < |s|
  {
    s[i] == Leaf(i / 4, [i % 4])
  }

  /** Where leaf i begins; it ends where leaf i + 1 begins. */
  function MemberStart(i: nat): ForestPosition {
    ForestPosition(i / 4, if i % 4 == 0 then [] else [i % 4])
  }

  lemma MemberPosition(c: Arity, s: seq<Leaf>, i: nat)
    requires c == 4 && i < |s| && TwoTreesAt(s, i)
    ensures IsQuad(c, s[i].quad) && BeginOf(s[i]) == MemberStart(i) && EndOf(c, s[i]) == MemberStart(i + 1)
  {
    TopChild(c, s[i].quad);
    assert if i % 4 == 3 then (i + 1) / 4 == i / 4 + 1 && (i + 1) % 4 == 0
           else (i + 1) / 4 == i / 4 && (i + 1) % 4 == i % 4 + 1;
  }

  lemma TopChild(c: Arity, q: Quad)
    requires |q| == 1 && q[0] < c
    ensures IsQuad(c, q) && Parent(q) == [] && q == Child([], q[0])
    ensures CornerOf(q) == if q[0] == 0 then [] else q
    ensures End(c, q) == if q[0] + 1 < c then At(Child([], q[0] + 1)) else Top
  {
    var p := Parent(q);
    assert p == [];
    assert CornerOf(p) == p && End(c, p) == Top;
  }

  /** Three trees, the first and the last refined twice in their third child: rank 2, with the
      last tree, is sent back to the last leaf of the first one, behind rank 1, whose cut is the
      second tree and stays. */
  lemma ForeignMixesOrder(c: Arity, s: seq<Leaf>, part: seq<int>, moved: seq<int>)
    requires c == 4 && ThreeTrees(s) && part == [0, 7, 8, 15] && |moved| == 4
    requires forall r :: 0 <= r < 3 ==> Corrected(c, s, part, r, moved[r])
    ensures Fills(c, s, ForestPosition(0, []), ForestPosition(3, [])) && Divides(c, s, part)
    ensures moved[1] == 7 && moved[2] == 6 && !Offsets(moved)
  {
    hide Fills, ScanLimits, Corrects;
    ThreeTreesFill(c, s);
    FillsContiguous(c, s);
    assert Corrected(c, s, part, 1, moved[1]) && ThreeTreesAt(s, 7);
    assert Corrected(c, s, part, 2, moved[2]) && ThreeTreesAt(s, 8);
    var lo, hi :| ScanLimits(c, s, 8, lo, hi) && Corrects(c, part, 2, lo, hi, part[2] - moved[2]);
    FourAkin(c, s, lo, hi);
    SentBack(part, part[2] - moved[2]);
  }

  /** Rank 2 has two of the four leaves, so it wins. */
  lemma SentBack(part: seq<int>, corr: int)
    requires part == [0, 7, 8, 15] && Corrects(4, part, 2, 6, 9, corr)
    ensures part[2] - corr == 6
  {
    assert Held(part, 6, 9, 2) == 2;
  }

  lemma FourAkin(c: Arity, s: seq<Leaf>, lo: int, hi: int)
    requires c == 4 && ThreeTrees(s) && ScanLimits(c, s, 8, lo, hi)
    ensures lo == 6 && hi == 9
  {
    assert ThreeTreesAt(s, 5) && ThreeTreesAt(s, 6) && ThreeTreesAt(s, 8) && ThreeTreesAt(s, 9);
    assert ThreeTreesAt(s, 10) && ThreeTreesAt(s, 11);
    assert Akin(s[6], s[8]) && Akin(s[8], s[9]);
    assert !Akin(s[5], s[8]) && !Akin(s[8], s[10]) && !Akin(s[8], s[11]);
  }

  lemma ThreeTreesFill(c: Arity, s: seq<Leaf>)
    requires c == 4 && ThreeTrees(s)
    ensures Fills(c, s, ForestPosition(0, []), ForestPosition(3, []))
  {
    hide EndOf, BeginOf, ThreeTreesAt, IsQuad;
    forall i | 0 <= i < 15
      ensures IsQuad(c, s[i].quad)
    {
      LeafPosition(c, s, i);
    }
    forall i, j | 0 <= i && j == i + 1 && j < 15
      ensures EndOf(c, s[i]) == BeginOf(s[j])
    {
      LeafPosition(c, s, i);
      LeafPosition(c, s, j);
    }
    LeafPosition(c, s, 0);
    LeafPosition(c, s, 14);
  }

  /** Where leaf i begins; it ends where leaf i + 1 begins. */
  function LeafStart(i: nat): ForestPosition {
    if i < 7 then ForestPosition(0, SplitStart(i))
    else if i == 7 then ForestPosition(1, [])
    else if i < 15 then ForestPosition(2, SplitStart(i - 8))
    else ForestPosition(3, [])
  }

  lemma LeafPosition(c: Arity, s: seq<Leaf>, i: nat)
    requires c == 4 && i < |s| == 15 && ThreeTreesAt(s, i)
    ensures IsQuad(c, s[i].quad) && BeginOf(s[i]) == LeafStart(i) && EndOf(c, s[i]) == LeafStart(i + 1)
  {
    if i != 7 {
      SplitPosition(c, if i < 7 then i else i - 8);
    }
  }

  ghost predicate ThreeTrees(s: seq<Leaf>) {
    |s| == 15 && forall i :: 0 <= i < 15 ==> ThreeTreesAt(s, i)
  }

  predicate ThreeTreesAt(s: seq<Leaf>, i: nat)
    requires i < |s|
  {
    s[i] == if i < 7 then Leaf(0, SplitQuad(i)) else if i == 7 then Leaf(1, []) else Leaf(2, SplitQuad(i - 8))
  }

  /** The leaves of a tree with four children, the third one refined. */
  function SplitQuad(k: nat): Quad {
    if k < 2 then [k] else if k < 6 then [2, k - 2] else [3]
  }

  function SplitStart(k: nat): Quad {
    if k == 0 then [] else if k == 2 then [2] else SplitQuad(k)
  }

  lemma SplitPosition(c: Arity, k: nat)
    requires c == 4 && k < 7
    ensures var q := SplitQuad(k);
            && IsQuad(c, q) && CornerOf(q) == SplitStart(k)
            && End(c, q) == if k < 6 then At(SplitStart(k + 1)) else Top
  {
    var q := SplitQuad(k);
    if 2 <= k < 6 {
      TopChild(c, Parent(q));
    } else {
      TopChild(c, q);
    }
  }

  // ---------------------------------------------------------------- all cuts

  /** The correction of one cut.  It fails when no rank holds a leaf at the cut, as behind the
      last leaf. */
  method CorrectCut(c: Arity, s: seq<Leaf>, now: seq<int>, part: seq<int>, rk: int) returns (corr: int, ok: bool)
    requires Divides(c, s, now) && Divides(c, s, part) && 0 <= rk < |part| - 1
    ensures ok <==> part[rk] < |s|
    ensures ok ==> Corrected(c, s, part, rk, part[rk] - corr)
    ensures ok ==> (Splits(c, s, part[rk] - corr) <==> Foreign(c, s, part[rk]) && Splits(c, s, part[rk]))
    ensures ok ==> (MovesTo(c, s, part, rk, part[rk] - corr) <==> ScanFits(c, s, part[rk]))
  {
    hide MovesTo, Contiguous, Corrects, Splits, ScanFits, Foreign;
    var cut, last := part[rk], LastIndices(now);
    CutExists(c, s, now, part, rk);
    var (fromBegin, fromEnd) := FindPartition(last, cut, cut);
    ok := fromBegin < |last|;
    if !ok {
      return 0, false;
    }
    if s[cut].quad == [] {
      corr := 0;
    } else {
      var lo, hi := Scan(c, s, now, last, cut);
      LimitsAroundCut(c, s, part, cut, lo, hi);
      corr := Correction(c, part, rk, lo, hi);
    }
    CorrectedIff(c, s, part, rk, cut - corr);
  }

  lemma CutExists(c: Arity, s: seq<Leaf>, now: seq<int>, part: seq<int>, rk: int)
    requires Divides(c, s, now) && Divides(c, s, part) && 0 <= rk < |part| - 1
    ensures var last := LastIndices(now);
            && Ascending(last) && Offsets(now) && now[|now| - 1] == |s| && Offsets(part)
            && forall n :: FirstFrom(last, part[rk], n) ==> (n < |last| <==> part[rk] < |s|)
    ensures 0 <= part[rk] <= |s|
  {
    LastIndicesOrdered(now);
    PartInside(part, rk);
  }

  lemma LimitsAroundCut(c: Arity, s: seq<Leaf>, part: seq<int>, cut: nat, lo: int, hi: int)
    requires Divides(c, s, part) && cut < |s|
    requires ScanLimits(c, s, cut, lo, hi)
    ensures 0 <= lo <= cut <= hi < part[|part| - 1] && part[|part| - 1] == |s|
  {
  }

  /** Every rank corrects all cuts.  The new offsets split no family exactly when no leaf of
      another tree interferes at a cut that splits one; in a forest of one tree this is so, and
      the new offsets are in order, as they are wherever the scan fits at all cuts.  The lookup of
      the leaf at the cut fails exactly when a rank is to begin behind the last leaf. */
  method CorrectOffsets(c: Arity, s: seq<Leaf>, now: seq<int>, part: seq<int>) returns (moved: seq<int>, ok: bool)
    requires Divides(c, s, now) && Divides(c, s, part)
    ensures ok <==> forall r :: 0 <= r < |part| - 1 ==> part[r] < |s|
    ensures ok ==> |moved| == |part| && moved[|part| - 1] == |s| && !Splits(c, s, |s|)
    ensures ok ==> forall r :: 0 <= r < |part| - 1 ==> CutIsRight(c, s, part, r, moved[r])
    ensures ok ==> (NoneSplit(c, s, moved) <==>
                    forall r :: 0 <= r < |part| - 1 && Foreign(c, s, part[r]) ==> !Splits(c, s, part[r]))
    ensures ok && (AllFit(c, s, part) || OneTree(s)) ==> Divides(c, s, moved)
    ensures ok && OneTree(s) ==> NoneSplit(c, s, moved)
  {
    hide MovesTo, Contiguous, ScanFits, Splits, Foreign, Corrected;
    moved, ok := [], true;
    var rk := 0;
    assert |part| >= 2;
    while rk < |part| - 1
      invariant 0 <= rk <= |part| - 1 && |moved| == rk && ok
      invariant forall r :: 0 <= r < rk ==> part[r] < |s| && CutIsRight(c, s, part, r, moved[r])
    {
      var corr;
      corr, ok := CorrectCut(c, s, now, part, rk);
      if !ok {
        return;
      }
      moved := moved + [part[rk] - corr];
      rk := rk + 1;
    }
    moved := moved + [part[rk]];
    EndsStay(c, s, part);
    NoneSplitIff(c, s, part, moved);
    if OneTree(s) {
      OneTreeFits(c, s, part);
    }
    if AllFit(c, s, part) {
      MovedDivides(c, s, part, moved);
    }
  }

  /** What is right of one new offset. */
  ghost predicate CutIsRight(c: Arity, s: seq<Leaf>, part: seq<int>, r: int, moved: int)
    requires 0 <= r < |part| - 1
  {
    && 0 <= part[r] < |s| && Corrected(c, s, part, r, moved)
    && (Splits(c, s, moved) <==> Foreign(c, s, part[r]) && Splits(c, s, part[r]))
    && (MovesTo(c, s, part, r, moved) <==> ScanFits(c, s, part[r]))
  }

  ghost predicate NoneSplit(c: Arity, s: seq<Leaf>, part: seq<int>) {
    forall r :: 0 <= r < |part| ==> !Splits(c, s, part[r])
  }

  lemma NoneSplitIff(c: Arity, s: seq<Leaf>, part: seq<int>, moved: seq<int>)
    requires |moved| == |part| >= 1 && !Splits(c, s, moved[|part| - 1])
    requires forall r :: 0 <= r < |part| - 1 ==> CutIsRight(c, s, part, r, moved[r])
    ensures forall r :: 0 <= r < |part| - 1 ==> 0 <= part[r] < |s|
    ensures NoneSplit(c, s, moved) <==>
            forall r :: 0 <= r < |part| - 1 && Foreign(c, s, part[r]) ==> !Splits(c, s, part[r])
  {
    hide Splits, Foreign, Corrected, MovesTo, ScanFits;
    forall r | 0 <= r < |part| - 1
      ensures 0 <= part[r] < |s|
      ensures Splits(c, s, moved[r]) <==> Foreign(c, s, part[r]) && Splits(c, s, part[r])
    {
      assert CutIsRight(c, s, part, r, moved[r]);
    }
  }

  ghost predicate AllFit(c: Arity, s: seq<Leaf>, part: seq<int>) {
    forall r :: 0 <= r < |part| - 1 && 0 <= part[r] < |s| ==> ScanFits(c, s, part[r])
  }

  ghost predicate OneTree(s: seq<Leaf>) {
    forall i, j :: 0 <= i <= j < |s| ==> s[i].tree == s[j].tree
  }

  /** In a forest of one tree nothing interferes. */
  lemma OneTreeFits(c: Arity, s: seq<Leaf>, part: seq<int>)
    requires OneTree(s)
    ensures AllFit(c, s, part)
    ensures forall r :: 0 <= r < |part| && 0 <= part[r] < |s| ==> !Foreign(c, s, part[r])
  {
    hide Splits, ScanLimits;
  }

  /** Cuts that go where they should are in order. */
  lemma MovedDivides(c: Arity, s: seq<Leaf>, part: seq<int>, moved: seq<int>)
    requires Divides(c, s, part) && |moved| == |part| && moved[|part| - 1] == |s| && AllFit(c, s, part)
    requires forall r :: 0 <= r < |part| - 1 ==> CutIsRight(c, s, part, r, moved[r])
    ensures Divides(c, s, moved)
  {
    hide MovesTo, Contiguous, ScanFits, Splits, Foreign;
    EndsStay(c, s, part);
    SameStart(c, s, part, moved[0]);
    forall q, r | 0 <= q <= r < |moved|
      ensures moved[q] <= moved[r]
    {
      MovedInOrder(c, s, part, q, r, moved[q], moved[r]);
    }
  }

  /** The first and the last cut stay where they are. */
  lemma EndsStay(c: Arity, s: seq<Leaf>, part: seq<int>)
    requires Divides(c, s, part)
    ensures MovesTo(c, s, part, |part| - 1, part[|part| - 1]) && MovesTo(c, s, part, 0, 0)
    ensures !Splits(c, s, |s|)
  {
    forall f
      ensures !CutsFamily(c, s, |s|, f)
    {
      CutIsInside(c, s, |s|, f);
    }
  }

  lemma SameStart(c: Arity, s: seq<Leaf>, part: seq<int>, x: int)
    requires Divides(c, s, part) && MovesTo(c, s, part, 0, x)
    ensures x == 0
  {
    assert forall f :: !CutsFamily(c, s, 0, f);
  }
}
