/** In-place coarsening of one tree (p4est_coarsen_ext): a window of c array slots moves
    over the array, accepted families shrink to their parent, and the freed slots form
    one hole that travels along with the window. */
module Coarsen {
  import opened Quadrants
  import opened Trees

  type Callback = seq<Quad> -> bool

  // ---------------------------------------------------------------- specification

  ghost predicate AcceptedAt(c: Arity, accept: Callback, s: seq<Quad>, w: nat) {
    w + c <= |s| && IsFamily(c, s[w..w + c]) && accept(s[w..w + c])
  }

  /** One left-to-right sweep in which no new parent is looked at again. */
  ghost function Once(c: Arity, accept: Callback, s: seq<Quad>): seq<Quad> {
    if |s| < c then s
    else if AcceptedAt(c, accept, s, 0) then [Parent(s[0])] + Once(c, accept, s[c..])
    else [s[0]] + Once(c, accept, s[1..])
  }

  /** q is a leaf of s, or the callback takes q's family and every child can be built. */
  ghost predicate Built(c: Arity, accept: Callback, s: seq<Quad>, maxl: nat, q: Quad)
    decreases maxl - |q|
  {
    q in s ||
    (|q| < maxl && accept(Children(c, q)) &&
     forall i :: 0 <= i < c ==> Built(c, accept, s, maxl, Child(q, i)))
  }

  /** q is as large as possible among the quadrants that can be built from s. */
  ghost predicate Largest(c: Arity, accept: Callback, s: seq<Quad>, maxl: nat, q: Quad) {
    Built(c, accept, s, maxl, q) && (q == [] || !Built(c, accept, s, maxl, Parent(q)))
  }

  ghost predicate HasAncestorIn(r: seq<Quad>, q: Quad) {
    exists t :: t in r && t <= q
  }

  /** Every quadrant of s has an ancestor or itself in r. */
  ghost predicate CoveredBy(s: seq<Quad>, r: seq<Quad>) {
    forall q :: q in s ==> HasAncestorIn(r, q)
  }

  // ---------------------------------------------------------------- one replacement

  ghost function Replaced(c: Arity, s: seq<Quad>, w: nat): seq<Quad>
    requires w + c <= |s| && s[w] != []
  {
    s[..w] + [Parent(s[w])] + s[w + c..]
  }

  lemma ReplacedTiles(c: Arity, s: seq<Quad>, w: nat, b: Position, e: Position)
    requires Tiles(c, s, b, e) && w + c <= |s| && IsFamily(c, s[w..w + c])
    ensures Tiles(c, Replaced(c, s, w), b, e)
  {
    var p := Parent(s[w]);
    var f, rest := s[w..w + c], s[w + c..];
    var m := if w + c < |s| then Begin(s[w + c]) else e;
    TilesSplit(c, s, w, b, e);
    TilesSplit(c, s[w..], c, Begin(s[w]), e);
    assert s[w..][..c] == f && s[w..][c..] == rest;
    ParentTiles(c, f, Begin(s[w]), m);
    TilesConcat(c, s[..w], [p], b, Begin(s[w]), m);
    TilesConcat(c, s[..w] + [p], rest, b, m, e);
  }

  lemma ParentTiles(c: Arity, f: seq<Quad>, b: Position, e: Position)
    requires IsFamily(c, f) && Tiles(c, f, b, e)
    ensures Tiles(c, [Parent(f[0])], b, e)
  {
    var p := Parent(f[0]);
    assert IsQuad(c, f[0]);
    BeginOfChildren(c, p);
  }

  lemma ReplacedCounts(c: Arity, s: seq<Quad>, w: nat, l: nat)
    requires w + c <= |s| && IsFamily(c, s[w..w + c])
    ensures CountLevel(Replaced(c, s, w), l) ==
            CountLevel(s, l) - (if l == |s[w]| then c else 0) + (if l == |s[w]| - 1 then 1 else 0)
  {
    var f := s[w..w + c];
    var p := Parent(s[w]);
    assert f[0] == s[w];
    assert forall i :: 0 <= i < |f| ==> f[i] == Child(p, i);
    CountLevelUniform(f, l, |s[w]|);
    CountLevelUniform([p], l, |s[w]| - 1);
    assert s == s[..w] + (f + s[w + c..]);
    CountLevelConcat(s[..w], f + s[w + c..], l);
    CountLevelConcat(f, s[w + c..], l);
    CountLevelConcat(s[..w] + [p], s[w + c..], l);
    CountLevelConcat(s[..w], [p], l);
  }

  lemma PrefixTransitive(x: Quad, y: Quad, z: Quad)
    requires x <= y && y <= z
    ensures x <= z
  {
  }

  lemma ReplacedCovers(c: Arity, s: seq<Quad>, w: nat, s0: seq<Quad>)
    requires w + c <= |s| && IsFamily(c, s[w..w + c]) && CoveredBy(s0, s)
    ensures CoveredBy(s0, Replaced(c, s, w))
  {
    var t := Replaced(c, s, w);
    forall q | q in s0
      ensures HasAncestorIn(t, q)
    {
      assert HasAncestorIn(s, q);
      var k :| 0 <= k < |s| && s[k] <= q;
      if k < w {
        assert t[k] in t && s[k] == t[k];
      } else if k < w + c {
        assert s[w] == s[w..w + c][0];
        assert s[k] == s[w..w + c][k - w] == Child(Parent(s[w]), k - w);
        PrefixTransitive(Parent(s[w]), s[k], q);
        assert t[w] in t && t[w] <= q;
      } else {
        assert t[k - c + 1] in t && s[k] == t[k - c + 1];
      }
    }
  }

  lemma ReplacedBuilt(c: Arity, accept: Callback, s: seq<Quad>, w: nat, s0: seq<Quad>, maxl: nat)
    requires AcceptedAt(c, accept, s, w) && BoundedLevels(s, maxl)
    requires forall i :: 0 <= i < |s| ==> Built(c, accept, s0, maxl, s[i])
    ensures BoundedLevels(Replaced(c, s, w), maxl)
    ensures forall i :: 0 <= i < |Replaced(c, s, w)| ==> Built(c, accept, s0, maxl, Replaced(c, s, w)[i])
  {
    var f, p := s[w..w + c], Parent(s[w]);
    assert f[0] == s[w];
    assert |p| < |s[w]| <= maxl;
    forall i | 0 <= i < c
      ensures Built(c, accept, s0, maxl, Child(p, i))
    {
      assert f[i] == s[w + i] == Child(p, i);
    }
    assert Built(c, accept, s0, maxl, p);
  }

  /** After a replacement only the window in which the new parent sits at its own child
      id can have become a family: the reason for stepping back by exactly that id. */
  lemma OnlyOneNewWindow(c: Arity, accept: Callback, s: seq<Quad>, w: nat, v: nat)
    requires w + c <= |s| && IsFamily(c, s[w..w + c])
    requires forall u :: 0 <= u < w ==> !AcceptedAt(c, accept, s, u)
    requires v <= w && AcceptedAt(c, accept, Replaced(c, s, w), v)
    ensures ChildId(Parent(s[w])) <= w && v == w - ChildId(Parent(s[w]))
  {
    var t := Replaced(c, s, w);
    if v + c <= w {
      assert t[v..v + c] == s[v..v + c];
      assert AcceptedAt(c, accept, s, v);
    } else {
      var g := t[v..v + c];
      assert g[w - v] == t[w] == Parent(s[w]);
      assert g[w - v] == Child(Parent(g[0]), w - v);
    }
  }

  lemma CoveredBySelf(s: seq<Quad>)
    ensures CoveredBy(s, s)
  {
    forall q | q in s
      ensures HasAncestorIn(s, q)
    {
      assert q <= q;
    }
  }

  lemma WrongChildId(c: Arity, f: seq<Quad>, zz: nat)
    requires |f| == c && zz < c && ChildId(f[zz]) != zz
    ensures !IsFamily(c, f)
  {
    if f[0] != [] {
      assert ChildId(Child(Parent(f[0]), zz)) == zz;
    }
  }

  /** What every step of the sweep keeps: a is a gap-free array over the same region,
      made of quadrants that can be built from the leaves of s0. */
  ghost predicate Reached(c: Arity, accept: Callback, s0: seq<Quad>, maxl: nat, a: seq<Quad>) {
    && (a == [] <==> s0 == [])
    && (s0 != [] ==> Tiles(c, a, Begin(s0[0]), End(c, s0[|s0| - 1])))
    && CoveredBy(s0, a)
    && BoundedLevels(a, maxl)
    && forall i :: 0 <= i < |a| ==> Built(c, accept, s0, maxl, a[i])
  }

  lemma ReachedFirst(c: Arity, accept: Callback, s0: seq<Quad>, maxl: nat)
    requires Linear(c, s0) && BoundedLevels(s0, maxl)
    ensures Reached(c, accept, s0, maxl, s0) && Swept(c, accept, s0, s0, 0) && Settled(c, accept, s0, 0)
  {
    CoveredBySelf(s0);
    assert s0[..0] + Once(c, accept, s0[0..]) == Once(c, accept, s0) by {
      assert s0[0..] == s0;
    }
  }

  lemma ReachedStep(c: Arity, accept: Callback, s0: seq<Quad>, maxl: nat, a: seq<Quad>, w: nat)
    requires Reached(c, accept, s0, maxl, a) && AcceptedAt(c, accept, a, w)
    ensures a[w] != [] && |Replaced(c, a, w)| == |a| - c + 1
    ensures Reached(c, accept, s0, maxl, Replaced(c, a, w)) && Linear(c, Replaced(c, a, w))
    ensures BoundedLevels(Replaced(c, a, w), maxl) && ChildId(Parent(a[w])) < c
  {
    assert IsQuad(c, a[w]);
    assert a[w..w + c][0] == a[w];
    ReplacedTiles(c, a, w, Begin(s0[0]), End(c, s0[|s0| - 1]));
    ReplacedCovers(c, a, w, s0);
    ReplacedBuilt(c, accept, a, w, s0, maxl);
  }

  /** No window below `window` holds a family the callback would take. */
  ghost predicate Settled(c: Arity, accept: Callback, a: seq<Quad>, window: nat) {
    forall v :: 0 <= v < window ==> !AcceptedAt(c, accept, a, v)
  }

  lemma SettledStep(c: Arity, accept: Callback, a: seq<Quad>, w: nat)
    requires AcceptedAt(c, accept, a, w) && a[w] != [] && Settled(c, accept, a, w)
    ensures var id := ChildId(Parent(a[w]));
            Settled(c, accept, Replaced(c, a, w), if id <= w then w - id else w + 1)
  {
    var t := Replaced(c, a, w);
    var id := ChildId(Parent(a[w]));
    forall v | 0 <= v < (if id <= w then w - id else w + 1)
      ensures !AcceptedAt(c, accept, t, v)
    {
      if AcceptedAt(c, accept, t, v) {
        OnlyOneNewWindow(c, accept, a, w, v);
      }
    }
  }

  lemma SettledSkip(c: Arity, accept: Callback, a: seq<Quad>, w: nat)
    requires Settled(c, accept, a, w) && !AcceptedAt(c, accept, a, w)
    ensures Settled(c, accept, a, w + 1)
  {
  }

  /** The sweep so far and the sweep over the rest give the one-sweep result. */
  ghost predicate Swept(c: Arity, accept: Callback, s0: seq<Quad>, a: seq<Quad>, window: nat) {
    window <= |a| && Once(c, accept, s0) == a[..window] + Once(c, accept, a[window..])
  }

  lemma SweptAccept(c: Arity, accept: Callback, s0: seq<Quad>, a: seq<Quad>, w: nat)
    requires AcceptedAt(c, accept, a, w) && a[w] != [] && Swept(c, accept, s0, a, w)
    ensures Swept(c, accept, s0, Replaced(c, a, w), w + 1)
  {
    var t := Replaced(c, a, w);
    assert a[w..][0..c] == a[w..w + c] && a[w..][c..] == a[w + c..];
    assert t[..w + 1] == a[..w] + [Parent(a[w])] && t[w + 1..] == a[w + c..];
  }

  lemma SweptSkip(c: Arity, accept: Callback, s0: seq<Quad>, a: seq<Quad>, w: nat)
    requires w + c <= |a| && !AcceptedAt(c, accept, a, w) && Swept(c, accept, s0, a, w)
    ensures Swept(c, accept, s0, a, w + 1)
  {
    assert a[w..][0..c] == a[w..w + c] && a[w..][1..] == a[w + 1..];
    assert a[..w + 1] == a[..w] + [a[w]];
  }

  lemma SweptEnd(c: Arity, accept: Callback, s0: seq<Quad>, a: seq<Quad>, w: nat)
    requires Swept(c, accept, s0, a, w) && |a| < w + c
    ensures Once(c, accept, s0) == a
  {
    assert a == a[..w] + a[w..];
  }

  /** The members of an array that has a hole of `length` slots at `start`. */
  function Members(arr: seq<Quad>, start: nat, length: nat): (a: seq<Quad>)
    requires start + length <= |arr|
    ensures |a| == |arr| - length
  {
    arr[..start] + arr[start + length..]
  }

  lemma MemberAt(arr: seq<Quad>, start: nat, length: nat, i: nat)
    requires start + length <= |arr| && i < |arr| - length
    ensures Members(arr, start, length)[i] == if i < start then arr[i] else arr[i + length]
  {
  }

  lemma MembersWithoutHole(arr: seq<Quad>)
    ensures |arr| > 0 ==> Members(arr, 1, 0) == arr
  {
  }

  // ---------------------------------------------------------------- fixed point

  /** All children of x in a gap-free sequence stand side by side. */
  lemma ChildrenAreConsecutive(c: Arity, s: seq<Quad>, x: Quad) returns (w: nat)
    requires Linear(c, s)
    requires forall i :: 0 <= i < c ==> Child(x, i) in s
    ensures w + c <= |s| && s[w..w + c] == Children(c, x)
  {
    hide Linear;
    assert Child(x, 0) in s;
    w :| 0 <= w < |s| && s[w] == Child(x, 0);
    var k := 0;
    while k < c - 1
      invariant 0 <= k < c && w + k < |s|
      invariant forall j :: 0 <= j <= k ==> s[w + j] == Child(x, j)
    {
      assert Child(x, k + 1) in s;
      var v :| 0 <= v < |s| && s[v] == Child(x, k + 1);
      SiblingIsNextSlot(c, s, w + k, v, x, k);
      k := k + 1;
    }
  }

  lemma SiblingIsNextSlot(c: Arity, s: seq<Quad>, u: nat, v: nat, x: Quad, k: nat)
    requires Linear(c, s) && u < |s| && v < |s| && s[u] == Child(x, k) && s[v] == Child(x, k + 1)
    ensures v == u + 1
  {
    BeforeIntro(s[u], s[v], |x|);
    Trichotomy(s[u], s[v]);
    if v < u {
      LinearIsSorted(c, s, v, u);
    }
    assert u < v;
    assert Next(c, s[u], s[u + 1]);
    assert Parent(s[u]) == x;
    assert IsQuad(c, s[v]);
    assert s[v][|x|] == k + 1;
    SameBeginOverlaps(s[u + 1], s[v]);
    OverlapSameSlot(c, s, u + 1, v);
  }

  /** A quadrant that can be built but is not a leaf, and is not below one, hides an
      accepted family. */
  lemma {:induction false} BuildableHidesFamily(c: Arity, accept: Callback, s0: seq<Quad>, r: seq<Quad>, maxl: nat,
                                                x: Quad)
    requires Linear(c, r) && CoveredBy(s0, r) && Built(c, accept, s0, maxl, x)
    requires forall t :: t in r ==> !(t <= x)
    ensures exists w :: 0 <= w && AcceptedAt(c, accept, r, w)
    decreases maxl - |x|
  {
    assert x in s0 ==> HasAncestorIn(r, x);
    if y :| 0 <= y < c && Child(x, y) !in r {
      assert Built(c, accept, s0, maxl, Child(x, y));
      forall t | t in r
        ensures !(t <= Child(x, y))
      {
        if t <= Child(x, y) {
          PrefixOfChild(t, x, y);
        }
      }
      BuildableHidesFamily(c, accept, s0, r, maxl, Child(x, y));
    } else {
      var w := ChildrenAreConsecutive(c, r, x);
      assert Parent(Child(x, 0)) == x;
      assert r[w..w + c][0] == Child(x, 0);
      assert AcceptedAt(c, accept, r, w);
    }
  }

  lemma PrefixOfChild(t: Quad, x: Quad, y: nat)
    requires t <= Child(x, y)
    ensures t == Child(x, y) || t <= x
  {
    if |t| <= |x| {
      assert t == Child(x, y)[..|t|] == x[..|t|];
    }
  }

  /** A buildable quadrant lies over some leaf of s0 that is itself or below it. */
  lemma {:induction false} BuiltOverLeaf(c: Arity, accept: Callback, s0: seq<Quad>, maxl: nat, q: Quad)
    returns (z: Quad)
    requires Built(c, accept, s0, maxl, q)
    ensures z in s0 && q <= z
    decreases maxl - |q|
  {
    if q in s0 {
      z := q;
    } else {
      z := BuiltOverLeaf(c, accept, s0, maxl, Child(q, 0));
    }
  }

  /** Between a buildable ancestor t and a buildable q everything is buildable. */
  lemma {:induction false} BuiltBetween(c: Arity, accept: Callback, s0: seq<Quad>, maxl: nat, t: Quad, q: Quad)
    requires Linear(c, s0) && IsQuad(c, q)
    requires Built(c, accept, s0, maxl, t) && Built(c, accept, s0, maxl, q) && t < q
    ensures Built(c, accept, s0, maxl, Parent(q))
    decreases |q| - |t|
  {
    if t == Parent(q) {
    } else {
      var z := BuiltOverLeaf(c, accept, s0, maxl, q);
      if t in s0 {
        var i :| 0 <= i < |s0| && s0[i] == t;
        var j :| 0 <= j < |s0| && s0[j] == z;
        OverlapSameSlot(c, s0, i, j);
        assert false;
      }
      var u := q[..|t| + 1];
      assert u == Child(t, q[|t|]);
      assert Built(c, accept, s0, maxl, u);
      BuiltBetween(c, accept, s0, maxl, u, q);
    }
  }

  /** A gap-free result made of buildable quadrants in which no accepted family is left
      consists exactly of the largest buildable quadrants. */
  lemma FixedPointIsLargest(c: Arity, accept: Callback, s0: seq<Quad>, r: seq<Quad>, maxl: nat)
    requires Linear(c, s0) && Linear(c, r) && CoveredBy(s0, r) && BoundedLevels(s0, maxl)
    requires forall i :: 0 <= i < |r| ==> Built(c, accept, s0, maxl, r[i])
    requires forall w :: 0 <= w ==> !AcceptedAt(c, accept, r, w)
    ensures forall q :: q in r <==> Largest(c, accept, s0, maxl, q)
  {
    forall q
      ensures q in r <==> Largest(c, accept, s0, maxl, q)
    {
      if q in r {
        LeafIsLargest(c, accept, s0, r, maxl, q);
      } else if Largest(c, accept, s0, maxl, q) {
        var z := BuiltOverLeaf(c, accept, s0, maxl, q);
        assert IsQuad(c, z);
        assert IsQuad(c, q);
        forall t | t in r
          ensures !(t <= q)
        {
          if t <= q {
            assert t == q[..|t|] && q == q[..|q|];
            BuiltBetween(c, accept, s0, maxl, t, q);
          }
        }
        BuildableHidesFamily(c, accept, s0, r, maxl, q);
      }
    }
  }

  lemma LeafIsLargest(c: Arity, accept: Callback, s0: seq<Quad>, r: seq<Quad>, maxl: nat, q: Quad)
    requires Linear(c, s0) && Linear(c, r) && CoveredBy(s0, r) && BoundedLevels(s0, maxl)
    requires forall i :: 0 <= i < |r| ==> Built(c, accept, s0, maxl, r[i])
    requires forall w :: 0 <= w ==> !AcceptedAt(c, accept, r, w)
    requires q in r
    ensures Largest(c, accept, s0, maxl, q)
  {
    if q != [] && Built(c, accept, s0, maxl, Parent(q)) {
      forall t | t in r
        ensures !(t <= Parent(q))
      {
        if t <= Parent(q) {
          assert t <= q && t != q;
          var i :| 0 <= i < |r| && r[i] == t;
          var j :| 0 <= j < |r| && r[j] == q;
          OverlapSameSlot(c, r, i, j);
        }
      }
      BuildableHidesFamily(c, accept, s0, r, maxl, Parent(q));
    }
  }

  lemma SettledEnd(c: Arity, accept: Callback, s0: seq<Quad>, a: seq<Quad>, maxl: nat, window: nat)
    requires Linear(c, s0) && Linear(c, a) && BoundedLevels(s0, maxl) && Reached(c, accept, s0, maxl, a)
    requires Settled(c, accept, a, window) && |a| < window + c
    ensures forall w :: 0 <= w ==> !AcceptedAt(c, accept, a, w)
    ensures forall q :: q in a <==> Largest(c, accept, s0, maxl, q)
  {
    FixedPointIsLargest(c, accept, s0, a, maxl);
  }

  // ---------------------------------------------------------------- one sweep

  /** s holds the whole family of p and the callback takes it. */
  ghost predicate TakenWhole(c: Arity, accept: Callback, s: seq<Quad>, p: Quad) {
    accept(Children(c, p)) && forall i :: 0 <= i < c ==> Child(p, i) in s
  }

  lemma TakenWholeAt(c: Arity, accept: Callback, s: seq<Quad>, p: Quad) returns (w: nat)
    requires Linear(c, s) && TakenWhole(c, accept, s, p)
    ensures AcceptedAt(c, accept, s, w) && s[w] == Child(p, 0) && s[w..w + c] == Children(c, p)
  {
    w := ChildrenAreConsecutive(c, s, p);
    assert s[w] == s[w..w + c][0] == Child(p, 0);
    assert Parent(Child(p, 0)) == p;
  }

  lemma FamilyChildId(c: Arity, s: seq<Quad>, i: nat)
    requires c <= |s| && IsFamily(c, s[0..c]) && i < c
    ensures ChildId(s[i]) == i
  {
    assert s[0..c][i] == s[i];
  }

  lemma TakenWholeSuffix(c: Arity, accept: Callback, s: seq<Quad>, k: nat, p: Quad)
    requires Linear(c, s) && k <= |s| && (k == 0 || k == 1 || (k == c && AcceptedAt(c, accept, s, 0)))
    requires k == 1 ==> !AcceptedAt(c, accept, s, 0)
    ensures TakenWhole(c, accept, s, p) <==>
            TakenWhole(c, accept, s[k..], p) || (k == c && AcceptedAt(c, accept, s, 0) && p == Parent(s[0]))
  {
    hide Linear;
    if TakenWhole(c, accept, s, p) {
      var w := TakenWholeAt(c, accept, s, p);
      assert ChildId(Child(p, 0)) == 0;
      if w >= k {
        forall i | 0 <= i < c
          ensures Child(p, i) in s[k..]
        {
          assert s[w..w + c][i] == s[w + i] == s[k..][w + i - k];
        }
      } else if w > 0 {
        FamilyChildId(c, s, w);
      } else {
        assert Parent(Child(p, 0)) == p;
      }
    }
    if k == c && AcceptedAt(c, accept, s, 0) && p == Parent(s[0]) {
      assert s[0..c][0] == s[0];
      forall i | 0 <= i < c
        ensures Child(p, i) in s
      {
        assert s[0..c][i] == s[i];
      }
    }
  }

  /** A leaf of s that belongs to a taken family sits inside that family's window. */
  lemma MemberOfTaken(c: Arity, accept: Callback, s: seq<Quad>, j: nat)
    requires Linear(c, s) && j < |s| && s[j] != [] && TakenWhole(c, accept, s, Parent(s[j]))
    ensures exists w :: 0 <= w <= j < w + c && AcceptedAt(c, accept, s, w)
  {
    var w := TakenWholeAt(c, accept, s, Parent(s[j]));
    assert IsQuad(c, s[j]);
    var k := ChildId(s[j]);
    assert s[w + k] == s[w..w + c][k] == s[j];
    OverlapSameSlot(c, s, w + k, j);
  }

  ghost predicate SweepKeeps(c: Arity, accept: Callback, s: seq<Quad>, q: Quad) {
    (q in s && (q == [] || !TakenWhole(c, accept, s, Parent(q)))) || TakenWhole(c, accept, s, q)
  }

  /** One sweep replaces exactly the accepted families of the input, each by its parent. */
  lemma {:induction false} OnceExactly(c: Arity, accept: Callback, s: seq<Quad>, q: Quad)
    requires Linear(c, s)
    ensures q in Once(c, accept, s) <==> SweepKeeps(c, accept, s, q)
    decreases |s|
  {
    hide Linear, TakenWhole, IsFamily;
    if |s| < c {
      if TakenWhole(c, accept, s, q) {
        var w := TakenWholeAt(c, accept, s, q);
      }
      if q != [] && TakenWhole(c, accept, s, Parent(q)) {
        var w := TakenWholeAt(c, accept, s, Parent(q));
      }
    } else {
      var taken := AcceptedAt(c, accept, s, 0);
      var k := if taken then c else 1;
      LinearPart(c, s, k, |s|);
      assert s[k..|s|] == s[k..];
      OnceExactly(c, accept, s[k..], q);
      TakenWholeSuffix(c, accept, s, k, q);
      if q != [] {
        TakenWholeSuffix(c, accept, s, k, Parent(q));
      }
      OnceHead(c, accept, s, k, q);
    }
  }

  lemma OnceHead(c: Arity, accept: Callback, s: seq<Quad>, k: nat, q: Quad)
    requires Linear(c, s) && c <= |s| && k == if AcceptedAt(c, accept, s, 0) then c else 1
    ensures k == c ==> s[0] != []
    ensures q in s && q !in s[k..] ==>
              (if k == c && AcceptedAt(c, accept, s, 0) then q != [] && Parent(q) == Parent(s[0])
               else q == s[0] && (q == [] || !TakenWhole(c, accept, s, Parent(q))))
    ensures q in s[k..] ==> q in s && (q == [] || k == 1 || Parent(q) != Parent(s[0]))
    ensures k == 1 ==> s[0] in s && (s[0] == [] || !TakenWhole(c, accept, s, Parent(s[0])))
  {
    if k == 1 {
      if s[0] != [] && TakenWhole(c, accept, s, Parent(s[0])) {
        MemberOfTaken(c, accept, s, 0);
      }
    } else {
      assert s[0..c][0] == s[0];
      assert forall i :: 0 <= i < c ==> s[i] == s[0..c][i] == Child(Parent(s[0]), i);
      if j :| c <= j < |s| && s[j] == q && q != [] && Parent(q) == Parent(s[0]) {
        assert IsQuad(c, s[j]);
        assert q == Child(Parent(s[0]), ChildId(q)) == s[ChildId(q)];
        OverlapSameSlot(c, s, ChildId(q), j);
      }
    }
  }

  // ---------------------------------------------------------------- the array algorithm

  method Coarsen(tree: Tree, c: Arity, recursive: bool, accept: Callback)
    requires Linear(c, tree.quads) && tree.Counted()
    modifies tree
    ensures tree.Counted() && |tree.perLevel| == |old(tree.perLevel)|
    ensures 0 <= tree.maxLevel && BoundedLevels(tree.quads, tree.maxLevel)
    ensures tree.quads != [] ==> exists i :: 0 <= i < |tree.quads| && |tree.quads[i]| == tree.maxLevel
    ensures Reached(c, accept, old(tree.quads), |tree.perLevel| - 1, tree.quads)
    ensures !recursive ==> tree.quads == Once(c, accept, old(tree.quads))
    ensures recursive ==> forall w :: 0 <= w ==> !AcceptedAt(c, accept, tree.quads, w)
    ensures recursive ==> forall q :: q in tree.quads <==> Largest(c, accept, old(tree.quads), |tree.perLevel| - 1, q)
  {
    hide Linear, Built, Once, CountLevel, Reached, Settled, Swept, Largest, Replaced, BoundedLevels, IsFamily, Members;
    ghost var s0 := tree.quads;
    ghost var maxl := |tree.perLevel| - 1;
    var incount := |tree.quads|;
    var window, start, length := 0, 1, 0;
    ghost var a := tree.quads;
    ReachedFirst(c, accept, s0, maxl);
    MembersWithoutHole(s0);
    while window + c + length <= incount
      invariant |tree.quads| == incount && |tree.perLevel| == maxl + 1 && 0 <= length && 0 <= window <= |a|
      invariant incount == 0 ==> a == [] && length == 0
      invariant |a| == incount - length
      invariant incount > 0 ==> 0 < start && start + length <= incount && a == Members(tree.quads, start, length)
      invariant start <= window + c && (window < start || (window == start && start + length == incount))
      invariant Reached(c, accept, s0, maxl, a) && Linear(c, a) && BoundedLevels(a, maxl)
      invariant forall l :: 0 <= l <= maxl ==> tree.perLevel[l] == CountLevel(a, l)
      invariant recursive ==> Settled(c, accept, a, window)
      invariant !recursive ==> Swept(c, accept, s0, a, window)
      decreases incount - length, incount - length - window
    {
      var cidz := incount;
      var isfamily, fam := ReadFamily(tree, c, window, start, length, a);
      if isfamily && accept(fam) {
        ReachedStep(c, accept, s0, maxl, a, window);
        if recursive {
          SettledStep(c, accept, a, window);
        } else {
          SweptAccept(c, accept, s0, a, window);
        }
        MergeFamily(tree, c, window, start, length, fam, a);
        cidz := ChildId(Parent(fam[0]));
        start := window + 1;
        length := length + (c - 1);
        a := Replaced(c, a, window);
      } else if recursive {
        SettledSkip(c, accept, a, window);
      } else {
        SweptSkip(c, accept, s0, a, window);
      }
      if cidz <= window && recursive {
        window := window - cidz;
      } else {
        window := window + 1;
        if window == start && start + length < incount {
          SlideHole(tree, start, length);
          start := window + 1;
        }
      }
    }
    if !recursive {
      SweptEnd(c, accept, s0, a, window);
    }
    CloseHole(tree, start, length);
    if recursive {
      SettledEnd(c, accept, s0, a, maxl, window);
    }
    tree.ComputeMaxLevel();
  }

  /** Puts the parent of an accepted family into the window's first slot and lets the
      hole swallow the other members. */
  method MergeFamily(tree: Tree, c: Arity, window: nat, start: nat, length: nat, fam: seq<Quad>, ghost a: seq<Quad>)
    requires start + length <= |tree.quads| && a == Members(tree.quads, start, length)
    requires window < start <= window + c <= |a| && fam == a[window..window + c] && IsFamily(c, fam)
    requires |tree.perLevel| > 0 && BoundedLevels(a, |tree.perLevel| - 1)
    requires forall l :: 0 <= l < |tree.perLevel| ==> tree.perLevel[l] == CountLevel(a, l)
    modifies tree`quads, tree`perLevel
    ensures fam[0] == a[window] && tree.quads == old(tree.quads)[window := Parent(fam[0])]
    ensures |tree.perLevel| == |old(tree.perLevel)|
    ensures window + c + length <= |tree.quads|
    ensures Members(tree.quads, window + 1, length + c - 1) == Replaced(c, a, window)
    ensures forall l :: 0 <= l < |tree.perLevel| ==> tree.perLevel[l] == CountLevel(Replaced(c, a, window), l)
  {
    ghost var before := tree.perLevel;
    assert fam[0] == a[window];
    tree.perLevel := tree.perLevel[|fam[0]| := tree.perLevel[|fam[0]|] - c];
    var parent := Parent(fam[0]);
    tree.quads := tree.quads[window := parent];
    tree.perLevel := tree.perLevel[|parent| := tree.perLevel[|parent|] + 1];
    forall l | 0 <= l < |tree.perLevel|
      ensures tree.perLevel[l] == CountLevel(Replaced(c, a, window), l)
    {
      ReplacedCounts(c, a, window, l);
    }
  }

  /** The first member behind the hole moves into its first slot: the hole shifts by one. */
  method SlideHole(tree: Tree, start: nat, length: nat)
    requires start + length < |tree.quads|
    modifies tree`quads
    ensures |tree.quads| == |old(tree.quads)|
    ensures Members(tree.quads, start + 1, length) == old(Members(tree.quads, start, length))
  {
    if length > 0 {
      tree.quads := tree.quads[start := tree.quads[start + length]];
    }
  }

  /** The c logical members from `window` on, read around the hole; stops at the
      first wrong child id. */
  method ReadFamily(tree: Tree, c: Arity, window: nat, start: nat, length: nat, ghost a: seq<Quad>)
    returns (isfamily: bool, fam: seq<Quad>)
    requires start + length <= |tree.quads| && a == Members(tree.quads, start, length)
    requires window + c <= |a| && Linear(c, a)
    ensures isfamily <==> IsFamily(c, a[window..window + c])
    ensures isfamily ==> fam == a[window..window + c]
  {
    hide Linear, IsFamily, Members;
    isfamily, fam := true, [];
    var zz := 0;
    while zz < c
      invariant 0 <= zz <= c && isfamily && |fam| == zz
      invariant forall j :: 0 <= j < zz ==> fam[j] == a[window + j] && ChildId(fam[j]) == j
    {
      var q := if window + zz < start then tree.quads[window + zz] else tree.quads[window + length + zz];
      MemberAt(tree.quads, start, length, window + zz);
      if zz != ChildId(q) {
        isfamily := false;
        WrongChildId(c, a[window..window + c], zz);
        break;
      }
      fam := fam + [q];
      zz := zz + 1;
    }
    if isfamily {
      assert fam == a[window..window + c];
      LinearPart(c, a, window, window + c);
      ChildIdsMakeFamily(c, fam);
    }
  }

  /** Moves the members behind the hole down and shortens the array. */
  method CloseHole(tree: Tree, start: nat, length: nat)
    requires start + length <= |tree.quads| || length == 0
    modifies tree`quads
    ensures length == 0 ==> tree.quads == old(tree.quads)
    ensures start + length <= |old(tree.quads)| ==> tree.quads == old(Members(tree.quads, start, length))
  {
    var incount := |tree.quads|;
    ghost var arr := tree.quads;
    if length > 0 {
      var zz := start + length;
      while zz < incount
        invariant start + length <= zz <= incount && |tree.quads| == incount
        invariant forall k :: 0 <= k < start ==> tree.quads[k] == arr[k]
        invariant forall k :: start <= k < zz - length ==> tree.quads[k] == arr[k + length]
        invariant forall k :: zz <= k < incount ==> tree.quads[k] == arr[k]
      {
        tree.quads := tree.quads[zz - length := tree.quads[zz]];
        zz := zz + 1;
      }
      tree.quads := tree.quads[..incount - length];
    }
  }
}
