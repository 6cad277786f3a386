/** Completing the region between two quadrants (p4est_complete_region). */
module Region {
  import opened Quadrants
  import opened Trees
  import opened Refine
  import Adapt

  // ---------------------------------------------------------------- specification

  /** Splitting exactly the strict ancestors of a and b. */
  function Around(c: Arity, a: Quad, b: Quad): Rule {
    Rule(c, (w: Quad) => w < a || w < b, if |a| < |b| then |b| else |a|, true)
  }

  /** The source's test for a quadrant that goes into the region. */
  predicate Between(a: Quad, b: Quad, w: Quad) {
    Less(a, w) && Less(w, b) && !(w < b)
  }

  ghost function Inside(a: Quad, b: Quad, s: seq<Quad>): seq<Quad> {
    if s == [] then []
    else (if Between(a, b, s[0]) then [s[0]] else []) + Inside(a, b, s[1..])
  }

  /** Everything below the nearest common ancestor, split around a and b. */
  ghost function Surroundings(c: Arity, a: Quad, b: Quad): seq<Quad> {
    ExpandAll(Around(c, a, b), ChildItems(c, NearestCommonAncestor(a, b), 0))
  }

  ghost function Result(c: Arity, a: Quad, includeA: bool, b: Quad, includeB: bool): seq<Quad> {
    (if includeA then [a] else []) + Inside(a, b, Surroundings(c, a, b)) + (if includeB then [b] else [])
  }

  // ---------------------------------------------------------------- what the region is

  lemma {:induction false} InsideConcat(a: Quad, b: Quad, s: seq<Quad>, t: seq<Quad>)
    ensures Inside(a, b, s + t) == Inside(a, b, s) + Inside(a, b, t)
  {
    hide Between;
    if s == [] {
      assert s + t == t;
    } else {
      InsideConcat(a, b, s[1..], t);
      assert (s + t)[1..] == s[1..] + t && (s + t)[0] == s[0];
      var x, y, z := if Between(a, b, s[0]) then [s[0]] else [], Inside(a, b, s[1..]), Inside(a, b, t);
      assert x + (y + z) == (x + y) + z;
    }
  }

  lemma {:induction false} InsideUniform(a: Quad, b: Quad, s: seq<Quad>, all: bool)
    requires forall k :: 0 <= k < |s| ==> Between(a, b, s[k]) == all
    ensures Inside(a, b, s) == if all then s else []
  {
    if s != [] {
      InsideUniform(a, b, s[1..], all);
    }
  }

  lemma InsideIsSlice(a: Quad, b: Quad, s: seq<Quad>, lo: nat, hi: nat)
    requires lo <= hi <= |s|
    requires forall k :: 0 <= k < |s| ==> (Between(a, b, s[k]) <==> lo <= k < hi)
    ensures Inside(a, b, s) == s[lo..hi]
  {
    hide Between, Inside;
    var x, y, z := s[..lo], s[lo..hi], s[hi..];
    assert s == (x + y) + z;
    InsideUniform(a, b, x, false);
    InsideUniform(a, b, y, true);
    InsideUniform(a, b, z, false);
    InsideConcat(a, b, x, y);
    InsideConcat(a, b, x + y, z);
    assert [] + y + [] == y;
  }

  lemma SurroundingsTile(c: Arity, a: Quad, b: Quad)
    requires IsQuad(c, a) && IsQuad(c, b) && Less(a, b)
    ensures var n := NearestCommonAncestor(a, b); Tiles(c, Surroundings(c, a, b), Begin(n), End(c, n))
  {
    var n := NearestCommonAncestor(a, b);
    NcaIsShallow(a, b);
    assert IsQuad(c, n);
    ExpandChildItems(Around(c, a, b), n, 0);
    Adapt.ExpandChildrenTiles(Around(c, a, b), n, 0);
    BeginOfChildren(c, n);
    assert Begin(Child(n, 0)) == Begin(n) by {
      assert Parent(Child(n, 0)) == n;
    }
  }

  lemma NcaIsShallow(a: Quad, b: Quad)
    requires Less(a, b)
    ensures var n := NearestCommonAncestor(a, b); n < b && |n| < Around(4, a, b).allowed && (Before(a, b) ==> n < a)
    ensures a < b ==> NearestCommonAncestor(a, b) == a
  {
    if a < b {
      CommonLengthIs(a, b, |a|);
      assert b[..|a|] == a;
    }
  }

  /** a quadrant under the common ancestor that is split down to is a member. */
  lemma EndIsMember(c: Arity, a: Quad, b: Quad, q: Quad)
    requires Less(a, b) && IsQuad(c, q) && NearestCommonAncestor(a, b) < q
    requires q == a || q == b
    requires !(q < a) && !(q < b)
    ensures q in Surroundings(c, a, b)
  {
    var r, n := Around(c, a, b), NearestCommonAncestor(a, b);
    hide CommonLength, Adapt.IsLeafOf;
    NcaIsShallow(a, b);
    ExpandChildItems(r, n, 0);
    Adapt.ExpandChildrenLeaves(r, n, 0, q);
    LeafUnderCommonAncestor(c, a, b, q);
  }

  lemma LeafUnderCommonAncestor(c: Arity, a: Quad, b: Quad, q: Quad)
    requires IsQuad(c, q) && NearestCommonAncestor(a, b) < q
    requires q == a || q == b
    requires !(q < a) && !(q < b)
    ensures var n := NearestCommonAncestor(a, b);
            q[|n|] < c && Adapt.IsLeafOf(Around(c, a, b), Item(Child(n, q[|n|]), true), q)
  {
    hide CommonLength;
    var r, n := Around(c, a, b), NearestCommonAncestor(a, b);
    var it := Item(Child(n, q[|n|]), true);
    assert q[..|n| + 1] == it.quad;
    forall k | |it.quad| <= k < |q|
      ensures Splits(r, Adapt.Along(it, q, k))
    {
      assert q[..k] < q;
    }
    assert q[..|q|] == q;
  }

  /** Interior quadrants cannot be larger: their parent holds a or b. */
  lemma RegionIsMaximal(c: Arity, a: Quad, b: Quad, w: Quad)
    requires Less(a, b) && w in Inside(a, b, Surroundings(c, a, b))
    ensures w != [] && (Parent(w) < a || Parent(w) < b || Parent(w) == NearestCommonAncestor(a, b))
    ensures Before(a, b) ==> Parent(w) < a || Parent(w) < b
    ensures Between(a, b, w)
  {
    var r, n := Around(c, a, b), NearestCommonAncestor(a, b);
    NcaIsShallow(a, b);
    InsideMember(a, b, Surroundings(c, a, b), w);
    ExpandChildItems(r, n, 0);
    Adapt.ExpandChildrenLeaves(r, n, 0, w);
    var j :| 0 <= j < c && Adapt.IsLeafOf(r, Item(Child(n, j), true), w);
    if |w| > |n| + 1 {
      assert Splits(r, Adapt.Along(Item(Child(n, j), true), w, |w| - 1));
    } else {
      assert w == Child(n, j);
    }
  }

  lemma {:induction false} InsideMember(a: Quad, b: Quad, s: seq<Quad>, w: Quad)
    ensures w in Inside(a, b, s) <==> w in s && Between(a, b, w)
  {
    if s != [] {
      InsideMember(a, b, s[1..], w);
      assert w in s <==> w == s[0] || w in s[1..];
    }
  }

  /** The region from a to b has no gap and no overlap. */
  lemma RegionTiles(c: Arity, a: Quad, b: Quad)
    requires IsQuad(c, a) && IsQuad(c, b) && Before(a, b)
    ensures Tiles(c, [a] + Inside(a, b, Surroundings(c, a, b)) + [b], Begin(a), End(c, b))
    ensures Tiles(c, Inside(a, b, Surroundings(c, a, b)), End(c, a), Begin(b))
  {
    hide Linear, Surroundings, Inside, Between, Tiles, Begin, End;
    var s := Surroundings(c, a, b);
    SurroundingsTile(c, a, b);
    NcaIsShallow(a, b);
    Trichotomy(a, b);
    EndIsMember(c, a, b, a);
    EndIsMember(c, a, b, b);
    var i :| 0 <= i < |s| && s[i] == a;
    var j :| 0 <= j < |s| && s[j] == b;
    MembersBetween(c, a, b, s, i, j);
    InsideIsSlice(a, b, s, i + 1, j);
    SliceEnds(s, i, j);
    SliceTiles(c, s, i, j);
  }

  lemma SliceEnds(s: seq<Quad>, i: nat, j: nat)
    requires i < j < |s|
    ensures [s[i]] + s[i + 1..j] + [s[j]] == s[i..j + 1]
  {
    assert s[i..j + 1] == [s[i]] + s[i + 1..j + 1] && s[i + 1..j + 1] == s[i + 1..j] + [s[j]];
  }

  /** When a is an ancestor of b, the region is the part of a before b, without gap or overlap. */
  lemma RegionBelowAncestor(c: Arity, a: Quad, b: Quad)
    requires IsQuad(c, a) && IsQuad(c, b) && a < b
    ensures Tiles(c, Inside(a, b, Surroundings(c, a, b)), Begin(a), Begin(b))
  {
    var s := Surroundings(c, a, b);
    Trichotomy(a, b);
    hide Linear, Surroundings, Inside, Between, Begin, End, NearestCommonAncestor;
    SurroundingsTile(c, a, b);
    NcaIsShallow(a, b);
    EndIsMember(c, a, b, b);
    var j :| 0 <= j < |s| && s[j] == b;
    forall k | 0 <= k < |s|
      ensures Between(a, b, s[k]) <==> 0 <= k < j
    {
      BelowAncestor(c, a, b, s[k]);
      MemberBefore(c, s, k, j);
    }
    InsideIsSlice(a, b, s, 0, j);
    TilesSplit(c, s, j, Begin(a), End(c, a));
    assert s[0..j] == s[..j];
  }

  /** All members lie below the common ancestor. */
  lemma BelowAncestor(c: Arity, a: Quad, b: Quad, w: Quad)
    requires a < b && w in Surroundings(c, a, b)
    ensures a < w
  {
    var r := Around(c, a, b);
    Trichotomy(a, b);
    NcaIsShallow(a, b);
    ExpandChildItems(r, a, 0);
    Adapt.ExpandChildrenLeaves(r, a, 0, w);
    var i :| 0 <= i < c && Adapt.IsLeafOf(r, Item(Child(a, i), true), w);
    assert a < Child(a, i) <= w;
  }

  lemma MemberBefore(c: Arity, s: seq<Quad>, k: nat, j: nat)
    requires Linear(c, s) && k < |s| && j < |s|
    ensures forall a :: a < s[k] ==> (Between(a, s[j], s[k]) <==> k < j)
  {
    Trichotomy(s[k], s[j]);
    if k < j {
      LinearIsSorted(c, s, k, j);
    } else if j < k {
      LinearIsSorted(c, s, j, k);
    }
    forall a | a < s[k]
      ensures Less(a, s[k])
    {
      Trichotomy(a, s[k]);
    }
  }

  lemma SliceTiles(c: Arity, s: seq<Quad>, i: nat, j: nat)
    requires Linear(c, s) && i < j < |s|
    ensures Tiles(c, s[i..j + 1], Begin(s[i]), End(c, s[j]))
    ensures Tiles(c, s[i + 1..j], End(c, s[i]), Begin(s[j]))
  {
    var t := s[i..j + 1];
    LinearPart(c, s, i, j + 1);
    assert t[0] == s[i] && t[|t| - 1] == s[j] && t[1] == s[i + 1] && t[1..][..|t| - 2] == s[i + 1..j];
    hide Begin, End, IsQuad;
    TilesSplit(c, t, 1, Begin(s[i]), End(c, s[j]));
    assert Next(c, t[0], t[1]);
    TilesSplit(c, t[1..], |t| - 2, End(c, s[i]), End(c, s[j]));
  }

  lemma MembersBetween(c: Arity, a: Quad, b: Quad, s: seq<Quad>, i: nat, j: nat)
    requires Linear(c, s) && i < |s| && j < |s| && s[i] == a && s[j] == b && Before(a, b)
    ensures i < j && forall k :: 0 <= k < |s| ==> (Between(a, b, s[k]) <==> i + 1 <= k < j)
  {
    Trichotomy(a, b);
    if j < i {
      LinearIsSorted(c, s, j, i);
    }
    forall k | 0 <= k < |s|
      ensures Between(a, b, s[k]) <==> i + 1 <= k < j
    {
      Trichotomy(a, s[k]);
      Trichotomy(s[k], b);
      if k < i {
        LinearIsSorted(c, s, k, i);
      } else if i < k {
        LinearIsSorted(c, s, i, k);
      }
      if k < j {
        LinearIsSorted(c, s, k, j);
      } else if j < k {
        LinearIsSorted(c, s, j, k);
      }
    }
  }

  /** With both ends asked for, the result is gap-free exactly when a is not an ancestor of b. */
  lemma RegionIsLinearIff(c: Arity, a: Quad, b: Quad)
    requires IsQuad(c, a) && IsQuad(c, b) && Less(a, b)
    ensures Linear(c, Result(c, a, true, b, true)) <==> !(a < b)
  {
    var s := Result(c, a, true, b, true);
    if a < b {
      Trichotomy(a, b);
      var last := |s| - 1;
      assert s[0] == a && s[last] == b;
      if Linear(c, s) {
        LinearIsSorted(c, s, 0, last);
      }
    } else {
      RegionTiles(c, a, b);
    }
  }

  // ---------------------------------------------------------------- the work list

  ghost predicate Meaning(r: Rule, a: Quad, b: Quad, mid: seq<Quad>, seen: nat, w: seq<Quad>, all: seq<Quad>) {
    && seen <= |all| && mid == Inside(a, b, all[..seen])
    && all[seen..] == ExpandAll(r, Marked(w))
  }

  /** Work list quadrants as items that may always be split again. */
  ghost function Marked(w: seq<Quad>): (items: seq<Item>)
    ensures |items| == |w|
  {
    seq(|w|, i requires 0 <= i < |w| => Item(w[i], true))
  }

  ghost predicate Shallow(w: seq<Quad>, level: nat) {
    forall i :: 0 <= i < |w| ==> |w[i]| <= level
  }

  lemma MeaningStart(c: Arity, a: Quad, b: Quad)
    requires Less(a, b)
    ensures Meaning(Around(c, a, b), a, b, [], 0, Children(c, NearestCommonAncestor(a, b)), Surroundings(c, a, b))
    ensures c <= |Surroundings(c, a, b)|
    ensures Shallow(Children(c, NearestCommonAncestor(a, b)), Around(c, a, b).allowed)
  {
    NcaIsShallow(a, b);
    var n := NearestCommonAncestor(a, b);
    assert Marked(Children(c, n)) == ChildItems(c, n, 0);
  }

  lemma MeaningSplit(r: Rule, a: Quad, b: Quad, mid: seq<Quad>, seen: nat, w: seq<Quad>, all: seq<Quad>)
    requires Meaning(r, a, b, mid, seen, w, all) && w != [] && Splits(r, Item(w[0], true))
    ensures Meaning(r, a, b, mid, seen, Children(r.c, w[0]) + w[1..], all)
    ensures seen + |w| - 1 + r.c <= |all|
    ensures Shallow(w, r.allowed) ==> Shallow(Children(r.c, w[0]) + w[1..], r.allowed)
  {
    SplitKeepsMeaning(r, Marked(w));
    assert Marked(Children(r.c, w[0]) + w[1..]) == ChildItems(r.c, w[0], 0) + Marked(w)[1..];
  }

  lemma MeaningLeaf(r: Rule, a: Quad, b: Quad, mid: seq<Quad>, seen: nat, w: seq<Quad>, all: seq<Quad>)
    requires Meaning(r, a, b, mid, seen, w, all) && w != [] && !Splits(r, Item(w[0], true))
    ensures Meaning(r, a, b, if Between(a, b, w[0]) then mid + [w[0]] else mid, seen + 1, w[1..], all)
    ensures seen + |w| <= |all|
    ensures Shallow(w, r.allowed) ==> |w[0]| <= r.allowed && Shallow(w[1..], r.allowed)
  {
    assert Marked(w)[1..] == Marked(w[1..]);
    assert all[seen..] == [w[0]] + ExpandAll(r, Marked(w[1..]));
    assert all[seen + 1..] == all[seen..][1..];
    assert all[..seen + 1] == all[..seen] + [w[0]];
    InsideConcat(a, b, all[..seen], [w[0]]);
  }

  lemma MeaningEnd(r: Rule, a: Quad, b: Quad, mid: seq<Quad>, seen: nat, all: seq<Quad>)
    requires Meaning(r, a, b, mid, seen, [], all)
    ensures mid == Inside(a, b, all)
  {
    assert all[..seen] == all;
  }

  /** Appends one quadrant and counts it. */
  method PushCounted(tree: Tree, q: Quad, maxlevel: nat) returns (maxlevel': nat)
    requires |q| < |tree.perLevel| && IsMaxLevel(tree.quads, maxlevel) && Tally(tree.perLevel, tree.quads)
    modifies tree`quads, tree`perLevel
    ensures tree.quads == old(tree.quads) + [q] && |tree.perLevel| == |old(tree.perLevel)|
    ensures IsMaxLevel(tree.quads, maxlevel') && Tally(tree.perLevel, tree.quads)
  {
    MaxLevelAppend(tree.quads, maxlevel, q);
    TallyAppend(tree.perLevel, tree.quads, q);
    tree.quads := tree.quads + [q];
    maxlevel' := if maxlevel < |q| then |q| else maxlevel;
    tree.perLevel := tree.perLevel[|q| := tree.perLevel[|q|] + 1];
  }

  method CompleteRegion(tree: Tree, c: Arity, a: Quad, includeA: bool, b: Quad, includeB: bool)
    requires tree.quads == [] && tree.Counted()
    requires Less(a, b) && |a| < |tree.perLevel| && |b| < |tree.perLevel|
    modifies tree
    ensures tree.quads == Result(c, a, includeA, b, includeB)
    ensures a in tree.quads <==> includeA
    ensures b in tree.quads <==> includeB
    ensures includeA ==> tree.quads[0] == a
    ensures includeB ==> tree.quads[|tree.quads| - 1] == b
    ensures tree.Counted() && |tree.perLevel| == |old(tree.perLevel)|
    ensures 0 <= tree.maxLevel && IsMaxLevel(tree.quads, tree.maxLevel)
  {
    hide Meaning, Surroundings, Tally, IsMaxLevel, Inside, Shallow, NearestCommonAncestor, Less;
    ghost var r, all, bound := Around(c, a, b), Surroundings(c, a, b), |tree.perLevel|;
    var maxlevel: nat := 0;
    EmptyStatistics(tree);
    if includeA {
      maxlevel := PushCounted(tree, a, maxlevel);
    }
    ghost var head := tree.quads;
    ghost var mid, seen := [], 0;
    var work := Children(c, NearestCommonAncestor(a, b));
    MeaningStart(c, a, b);
    while |work| > 0
      invariant tree.quads == head + mid && |tree.perLevel| == bound && 0 <= seen <= |all|
      invariant Meaning(r, a, b, mid, seen, work, all) && Shallow(work, r.allowed)
      invariant seen + |work| <= |all|
      invariant IsMaxLevel(tree.quads, maxlevel) && Tally(tree.perLevel, tree.quads)
      decreases |all| - seen, |all| - |work|
    {
      var w := work[0];
      if Less(a, w) && Less(w, b) && !(w < b) {
        BetweenIsLeaf(c, a, b, w);
        MeaningLeaf(r, a, b, mid, seen, work, all);
        maxlevel := PushCounted(tree, w, maxlevel);
        mid, seen := mid + [w], seen + 1;
        work := work[1..];
      } else if w < a || w < b {
        MeaningSplit(r, a, b, mid, seen, work, all);
        work := Children(c, w) + work[1..];
      } else {
        MeaningLeaf(r, a, b, mid, seen, work, all);
        seen := seen + 1;
        work := work[1..];
      }
    }
    MeaningEnd(r, a, b, mid, seen, all);
    if includeB {
      maxlevel := PushCounted(tree, b, maxlevel);
    }
    EndsAsAsked(c, a, includeA, b, includeB);
    tree.maxLevel := maxlevel;
    TallyIsCounted(tree);
  }

  /** Each end is a member exactly when it is asked for, the first and the last one. */
  lemma EndsAsAsked(c: Arity, a: Quad, includeA: bool, b: Quad, includeB: bool)
    requires Less(a, b)
    ensures var s := Result(c, a, includeA, b, includeB);
            && (a in s <==> includeA) && (b in s <==> includeB)
            && (includeA ==> s != [] && s[0] == a) && (includeB ==> s != [] && s[|s| - 1] == b)
  {
    hide Surroundings, Inside, NearestCommonAncestor;
    var s := Surroundings(c, a, b);
    InsideMember(a, b, s, a);
    InsideMember(a, b, s, b);
    Trichotomy(a, b);
    Trichotomy(a, a);
    Trichotomy(b, b);
  }

  lemma EmptyStatistics(tree: Tree)
    requires tree.quads == [] && tree.Counted()
    ensures IsMaxLevel(tree.quads, 0) && Tally(tree.perLevel, tree.quads)
  {
  }

  lemma BetweenIsLeaf(c: Arity, a: Quad, b: Quad, w: Quad)
    requires Between(a, b, w)
    ensures !Splits(Around(c, a, b), Item(w, true))
  {
    Trichotomy(a, w);
  }
}
