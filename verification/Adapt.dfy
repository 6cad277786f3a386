/** What refinement means, and how coarsening undoes it. */
module Adapt {
  import opened Quadrants
  import opened Trees
  import opened Refine
  import Coarsen

  // ---------------------------------------------------------------- the leaves of an expansion

  /** Item for the ancestor of q at level k, when the work started from `it`. */
  function Along(it: Item, q: Quad, k: nat): Item
    requires k <= |q|
  {
    Item(q[..k], it.refined || k > |it.quad|)
  }

  /** q lies in it.quad, everything from it.quad down to q's parent splits, q does not. */
  ghost predicate IsLeafOf(r: Rule, it: Item, q: Quad) {
    && it.quad <= q
    && (forall k :: |it.quad| <= k < |q| ==> q[k] < r.c && Splits(r, Along(it, q, k)))
    && !Splits(r, Along(it, q, |q|))
  }

  lemma {:induction false} ExpandLeaves(r: Rule, it: Item, q: Quad)
    ensures q in Expand(r, it) <==> IsLeafOf(r, it, q)
    decreases if |it.quad| < r.allowed then r.allowed - |it.quad| else 0, r.c + 1
  {
    if it.quad <= q {
      assert Along(it, q, |it.quad|) == it;
    }
    if Splits(r, it) {
      ExpandChildrenLeaves(r, it.quad, 0, q);
      if IsLeafOf(r, it, q) {
        assert |q| > |it.quad|;
        ChildIsLeafOf(r, it, q);
        assert IsLeafOf(r, Item(Child(it.quad, q[|it.quad|]), true), q);
      }
      if i :| 0 <= i < r.c && IsLeafOf(r, Item(Child(it.quad, i), true), q) {
        assert q[|it.quad|] == i;
        ChildIsLeafOf(r, it, q);
      }
    } else if it.quad <= q && |q| > |it.quad| {
      assert !(q[|it.quad|] < r.c && Splits(r, Along(it, q, |it.quad|)));
    } else if it.quad <= q {
      assert q == it.quad;
    }
  }

  lemma ChildIsLeafOf(r: Rule, it: Item, q: Quad)
    requires Splits(r, it) && it.quad < q && q[|it.quad|] < r.c
    ensures IsLeafOf(r, it, q) <==> IsLeafOf(r, Item(Child(it.quad, q[|it.quad|]), true), q)
  {
    var i := q[|it.quad|];
    var kid := Item(Child(it.quad, i), true);
    assert kid.quad == q[..|it.quad| + 1];
    assert Along(it, q, |it.quad|) == it;
    forall k | |it.quad| < k <= |q|
      ensures Along(it, q, k) == Along(kid, q, k)
    {
    }
  }

  lemma {:induction false} ExpandChildrenLeaves(r: Rule, p: Quad, i: nat, q: Quad)
    requires |p| < r.allowed && i <= r.c
    ensures q in ExpandChildren(r, p, i) <==> exists j :: i <= j < r.c && IsLeafOf(r, Item(Child(p, j), true), q)
    decreases r.allowed - |p|, r.c - i
  {
    if i < r.c {
      ExpandLeaves(r, Item(Child(p, i), true), q);
      ExpandChildrenLeaves(r, p, i + 1, q);
    }
  }

  /** The leaves after refinement are exactly the ends of the splitting chains that start
      at the leaves before. */
  lemma {:induction false} ExpandAllLeaves(r: Rule, items: seq<Item>, q: Quad)
    ensures q in ExpandAll(r, items) <==> exists i :: 0 <= i < |items| && IsLeafOf(r, items[i], q)
  {
    if items != [] {
      ExpandLeaves(r, items[0], q);
      ExpandAllLeaves(r, items[1..], q);
      if i :| 0 <= i < |items| && IsLeafOf(r, items[i], q) {
        assert i > 0 ==> items[1..][i - 1] == items[i];
      }
    }
  }

  /** Not recursive: the leaves after refinement are the old leaves that are not refined and
      the children of those that are. */
  lemma RefinedOnce(c: Arity, refine: Quad -> bool, allowed: nat, s: seq<Quad>, q: Quad)
    ensures q in ExpandAll(Rule(c, refine, allowed, false), Unrefined(s)) <==>
              || (q in s && !(refine(q) && |q| < allowed))
              || exists p, i: nat :: p in s && refine(p) && |p| < allowed && i < c && q == Child(p, i)
  {
    var r, items := Rule(c, refine, allowed, false), Unrefined(s);
    hide ExpandAll, IsLeafOf;
    ExpandAllLeaves(r, items, q);
    if j :| 0 <= j < |items| && IsLeafOf(r, items[j], q) {
      LeafOnce(r, s[j], q);
      assert s[j] in s;
      assert q == s[j] || q == Child(s[j], q[|s[j]|]);
    }
    if q in s && !(refine(q) && |q| < allowed) {
      var j :| 0 <= j < |s| && s[j] == q;
      LeafOnce(r, q, q);
      assert items[j] == Item(q, false);
    }
    if p, i: nat :| p in s && refine(p) && |p| < allowed && i < c && q == Child(p, i) {
      var j :| 0 <= j < |s| && s[j] == p;
      LeafOnce(r, p, q);
      assert items[j] == Item(p, false);
    }
  }

  lemma LeafOnce(r: Rule, p: Quad, q: Quad)
    requires !r.recursive
    ensures IsLeafOf(r, Item(p, false), q) <==>
              if r.refine(p) && |p| < r.allowed then p <= q && |q| == |p| + 1 && q[|p|] < r.c else q == p
  {
    var it := Item(p, false);
    if p <= q {
      assert Along(it, q, |p|) == it;
      assert |q| > |p| ==> !Splits(r, Along(it, q, |p| + 1));
      if |q| > |p| + 1 {
        assert !IsLeafOf(r, it, q);
      } else if |q| == |p| + 1 {
        assert IsLeafOf(r, it, q) <==> q[|p|] < r.c && Splits(r, it);
      }
    }
  }

  /** q lies below p, and every quadrant from p down to the parent of q is refined. */
  ghost predicate RefinedDown(c: Arity, refine: Quad -> bool, allowed: nat, p: Quad, q: Quad) {
    p <= q && forall k :: |p| <= k < |q| ==> q[k] < c && refine(q[..k]) && k < allowed
  }

  /** Recursive: everything from an old leaf down to the parent of the new one is refined, the
      new leaf is not. */
  lemma RefinedAllTheWay(c: Arity, refine: Quad -> bool, allowed: nat, s: seq<Quad>, q: Quad)
    ensures q in ExpandAll(Rule(c, refine, allowed, true), Unrefined(s)) <==>
              !(refine(q) && |q| < allowed) && exists p :: p in s && RefinedDown(c, refine, allowed, p, q)
  {
    var r, items := Rule(c, refine, allowed, true), Unrefined(s);
    hide ExpandAll, IsLeafOf, RefinedDown;
    ExpandAllLeaves(r, items, q);
    if j :| 0 <= j < |items| && IsLeafOf(r, items[j], q) {
      LeafAllTheWay(r, s[j], q);
      assert s[j] in s;
    }
    if p :| p in s && RefinedDown(c, refine, allowed, p, q) {
      var j :| 0 <= j < |s| && s[j] == p;
      LeafAllTheWay(r, p, q);
      assert items[j] == Item(p, false);
    }
  }

  lemma LeafAllTheWay(r: Rule, p: Quad, q: Quad)
    requires r.recursive
    ensures IsLeafOf(r, Item(p, false), q) <==>
              !(r.refine(q) && |q| < r.allowed) && RefinedDown(r.c, r.refine, r.allowed, p, q)
  {
    assert q[..|q|] == q;
    if IsLeafOf(r, Item(p, false), q) {
      forall k | |p| <= k < |q|
        ensures q[k] < r.c && r.refine(q[..k]) && k < r.allowed
      {
        assert Splits(r, Along(Item(p, false), q, k));
      }
    }
  }

  // ---------------------------------------------------------------- region

  lemma {:induction false} ExpandTiles(r: Rule, it: Item)
    requires IsQuad(r.c, it.quad)
    ensures Tiles(r.c, Expand(r, it), Begin(it.quad), End(r.c, it.quad))
    decreases if |it.quad| < r.allowed then r.allowed - |it.quad| else 0, r.c + 1
  {
    if Splits(r, it) {
      BeginOfChildren(r.c, it.quad);
      ExpandChildrenTiles(r, it.quad, 0);
      assert Children(r.c, it.quad)[0..] == Children(r.c, it.quad);
    }
  }

  /** A child ends where the next one begins, the last one where its parent ends. */
  lemma ChildEnd(c: Arity, p: Quad, i: nat)
    requires i < c && IsQuad(c, p)
    ensures IsQuad(c, Child(p, i))
    ensures End(c, Child(p, i)) == if i + 1 == c then End(c, p) else Begin(Child(p, i + 1))
  {
    assert Parent(Child(p, i)) == p && Child(p, i) != [];
  }

  lemma {:induction false} ExpandChildrenTiles(r: Rule, p: Quad, i: nat)
    requires |p| < r.allowed && i <= r.c && IsQuad(r.c, p)
    ensures Tiles(r.c, ExpandChildren(r, p, i), if i == r.c then End(r.c, p) else Begin(Child(p, i)), End(r.c, p))
    decreases r.allowed - |p|, r.c - i
  {
    if i < r.c {
      var kid := Child(p, i);
      var next := if i + 1 == r.c then End(r.c, p) else Begin(Child(p, i + 1));
      ChildEnd(r.c, p, i);
      hide Expand, Tiles, Begin, End, Child, Splits;
      ExpandTiles(r, Item(kid, true));
      ExpandChildrenTiles(r, p, i + 1);
      TilesConcat(r.c, Expand(r, Item(kid, true)), ExpandChildren(r, p, i + 1), Begin(kid), next, End(r.c, p));
    }
  }

  /** Refinement fills the same part of the tree without gap or overlap. */
  lemma {:induction false} RefinedTiles(r: Rule, s: seq<Quad>, b: Position, e: Position)
    requires Tiles(r.c, s, b, e)
    ensures Tiles(r.c, ExpandAll(r, Unrefined(s)), b, e)
  {
    if s != [] {
      var m := if 1 < |s| then Begin(s[1]) else e;
      TilesSplit(r.c, s, 1, b, e);
      ExpandTiles(r, Item(s[0], false));
      assert s[..1] == [s[0]];
      RefinedTiles(r, s[1..], m, e);
      assert Unrefined(s)[1..] == Unrefined(s[1..]);
      TilesConcat(r.c, Expand(r, Item(s[0], false)), ExpandAll(r, Unrefined(s[1..])), b, m, e);
    }
  }

  // ---------------------------------------------------------------- coarsening undoes refinement

  lemma HeadIsMember(t: seq<Quad>)
    ensures t != [] ==> t[0] in t
  {
  }

  /** A gap-free sequence is determined by its set of quadrants. */
  lemma {:induction false} LinearIsASet(c: Arity, s: seq<Quad>, t: seq<Quad>)
    requires Linear(c, s) && Linear(c, t)
    requires forall q :: q in s <==> q in t
    ensures s == t
  {
    if s == [] {
      HeadIsMember(t);
    } else {
      assert s[0] in t && t != [];
      FirstIsFirst(c, s, t);
      LinearPart(c, s, 1, |s|);
      LinearPart(c, t, 1, |t|);
      assert s[1..|s|] == s[1..] && t[1..|t|] == t[1..];
      forall q
        ensures q in s[1..] <==> q in t[1..]
      {
        InTail(c, s, q);
        InTail(c, t, q);
      }
      LinearIsASet(c, s[1..], t[1..]);
      assert s == [s[0]] + s[1..] && t == [t[0]] + t[1..];
    }
  }

  lemma InTail(c: Arity, s: seq<Quad>, q: Quad)
    requires Linear(c, s) && s != []
    ensures q in s[1..] <==> q in s && q != s[0]
  {
    if i :| 0 <= i < |s[1..]| && s[1..][i] == q {
      assert s[i + 1] == q;
      LinearIsSorted(c, s, 0, i + 1);
    }
    if j :| 0 <= j < |s| && s[j] == q && q != s[0] {
      assert s[1..][j - 1] == q;
    }
  }

  lemma FirstIsFirst(c: Arity, s: seq<Quad>, t: seq<Quad>)
    requires Linear(c, s) && Linear(c, t) && s != [] && t != []
    requires s[0] in t && t[0] in s
    ensures s[0] == t[0]
  {
    var i :| 0 <= i < |t| && t[i] == s[0];
    var j :| 0 <= j < |s| && s[j] == t[0];
    if i > 0 && j > 0 {
      LinearIsSorted(c, t, 0, i);
      LinearIsSorted(c, s, 0, j);
      Trichotomy(s[0], t[0]);
    }
  }

  lemma {:induction false} ExpandedIsBuilt(r: Rule, it: Item, accept: Coarsen.Callback, s: seq<Quad>, maxl: nat)
    requires forall q :: q in Expand(r, it) ==> q in s
    requires r.allowed <= maxl
    requires forall p :: it.quad <= p ==> accept(Children(r.c, p))
    ensures Coarsen.Built(r.c, accept, s, maxl, it.quad)
    decreases if |it.quad| < r.allowed then r.allowed - |it.quad| else 0
  {
    if Splits(r, it) {
      forall i | 0 <= i < r.c
        ensures Coarsen.Built(r.c, accept, s, maxl, Child(it.quad, i))
      {
        var kid := Item(Child(it.quad, i), true);
        forall q | q in Expand(r, kid)
          ensures q in s
        {
          ExpandLeaves(r, kid, q);
          ExpandChildrenLeaves(r, it.quad, 0, q);
        }
        ExpandedIsBuilt(r, kid, accept, s, maxl);
      }
    } else {
      assert it.quad in Expand(r, it);
    }
  }

  /** If the callback takes exactly the families at or below the old leaves, recursive
      coarsening of a refined tree has only one possible result: the tree before. */
  lemma CoarseningUndoesRefinement(r: Rule, s: seq<Quad>, accept: Coarsen.Callback, maxl: nat, result: seq<Quad>)
    requires Linear(r.c, s) && BoundedLevels(s, maxl) && r.allowed <= maxl
    requires forall p :: accept(Children(r.c, p)) <==> Coarsen.HasAncestorIn(s, p)
    requires Linear(r.c, result)
    requires forall q :: q in result <==>
               Coarsen.Largest(r.c, accept, ExpandAll(r, Unrefined(s)), maxl, q)
    ensures result == s
  {
    var fine := ExpandAll(r, Unrefined(s));
    if s != [] {
      RefinedTiles(r, s, Begin(s[0]), End(r.c, s[|s| - 1]));
    }
    assert Linear(r.c, fine);
    forall q | q in fine
      ensures Coarsen.HasAncestorIn(s, q) && |q| <= maxl
    {
      ExpandAllLeaves(r, Unrefined(s), q);
      var i :| 0 <= i < |s| && IsLeafOf(r, Unrefined(s)[i], q);
      assert s[i] in s && s[i] <= q;
      assert |q| > |s[i]| ==> Splits(r, Along(Unrefined(s)[i], q, |q| - 1));
    }
    forall i | 0 <= i < |s|
      ensures Coarsen.Built(r.c, accept, fine, maxl, s[i])
    {
      OldLeafIsBuilt(r, s, accept, maxl, i);
    }
    forall w | 0 <= w
      ensures !Coarsen.AcceptedAt(r.c, accept, s, w)
    {
      NoOldFamilyTaken(r, s, accept, w);
    }
    Coarsen.FixedPointIsLargest(r.c, accept, fine, s, maxl);
    LinearIsASet(r.c, s, result);
  }

  lemma OldLeafIsBuilt(r: Rule, s: seq<Quad>, accept: Coarsen.Callback, maxl: nat, i: nat)
    requires i < |s| && r.allowed <= maxl
    requires forall p :: accept(Children(r.c, p)) <==> Coarsen.HasAncestorIn(s, p)
    ensures Coarsen.Built(r.c, accept, ExpandAll(r, Unrefined(s)), maxl, s[i])
  {
    var fine := ExpandAll(r, Unrefined(s));
    var it := Unrefined(s)[i];
    forall q | q in Expand(r, it)
      ensures q in fine
    {
      ExpandLeaves(r, it, q);
      ExpandAllLeaves(r, Unrefined(s), q);
    }
    forall p | it.quad <= p
      ensures accept(Children(r.c, p))
    {
      assert s[i] in s && s[i] <= p;
    }
    ExpandedIsBuilt(r, it, accept, fine, maxl);
  }

  lemma NoOldFamilyTaken(r: Rule, s: seq<Quad>, accept: Coarsen.Callback, w: nat)
    requires Linear(r.c, s)
    requires forall p :: accept(Children(r.c, p)) <==> Coarsen.HasAncestorIn(s, p)
    ensures !Coarsen.AcceptedAt(r.c, accept, s, w)
  {
    if Coarsen.AcceptedAt(r.c, accept, s, w) {
      var f := s[w..w + r.c];
      var p := Parent(f[0]);
      assert f[0] == s[w];
      assert f == Children(r.c, p);
      var t :| t in s && t <= p;
      var j :| 0 <= j < |s| && s[j] == t;
      assert t <= s[w] && t != s[w];
      OverlapSameSlot(r.c, s, w, j);
    }
  }
}
