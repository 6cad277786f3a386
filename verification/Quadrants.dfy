/** Quadrants of one tree, named by the child ids on the way down from the root.

    A quadrant of level l is a sequence of l child ids, each below the number of
    children `c` (4 in 2D, 8 in 3D, the proofs hold for every c >= 2).  Its Morton
    index at level l is this sequence read as a base-c number.  Strict ancestors are
    proper prefixes, so Dafny's `<` and `<=` on sequences are "is ancestor" and "is
    ancestor or equal".
 */
module Quadrants {

  type Arity = c: int | 2 <= c witness 4
  type Quad = seq<nat>

  ghost predicate IsQuad(c: Arity, q: Quad) {
    forall i :: 0 <= i < |q| ==> q[i] < c
  }

  function ChildId(q: Quad): nat {
    if q == [] then 0 else q[|q| - 1]
  }

  function Parent(q: Quad): Quad
    requires q != []
  {
    q[..|q| - 1]
  }

  function Child(q: Quad, i: nat): Quad {
    q + [i]
  }

  function Sibling(q: Quad, i: nat): Quad
    requires q != []
  {
    Parent(q) + [i]
  }

  function Children(c: Arity, q: Quad): seq<Quad> {
    seq(c, i requires 0 <= i < c => Child(q, i))
  }

  predicate Overlap(a: Quad, b: Quad) {
    a <= b || b <= a
  }

  /** Length of the longest common prefix; the nearest common ancestor is that prefix. */
  function CommonLength(a: Quad, b: Quad): (n: nat)
    ensures n <= |a| && n <= |b| && a[..n] == b[..n]
    ensures n < |a| && n < |b| ==> a[n] != b[n]
  {
    if a == [] || b == [] || a[0] != b[0] then 0
    else
      var n := 1 + CommonLength(a[1..], b[1..]);
      assert a[..n] == [a[0]] + a[1..][..n - 1];
      assert b[..n] == [b[0]] + b[1..][..n - 1];
      n
  }

  function NearestCommonAncestor(a: Quad, b: Quad): (r: Quad)
    ensures r <= a && r <= b
  {
    a[..CommonLength(a, b)]
  }

  lemma NearestCommonAncestorIsDeepest(a: Quad, b: Quad, r: Quad)
    requires r <= a && r <= b
    ensures r <= NearestCommonAncestor(a, b)
  {
    forall i | 0 <= i < |r|
      ensures a[i] == b[i]
    {
      assert a[i] == r[i] == b[i];
    }
    assert |r| <= CommonLength(a, b);
  }

  // ---------------------------------------------------------------- positions

  /** Corners of quadrants along the space filling curve.  `At` holds a quadrant that
      does not end in child id 0 (or the root), so every corner has one name; `Top` is
      the end of the tree. */
  datatype Position = At(corner: Quad) | Top

  function Begin(q: Quad): Position {
    if q != [] && ChildId(q) == 0 then Begin(Parent(q)) else At(q)
  }

  function End(c: Arity, q: Quad): Position {
    if q == [] then Top
    else if ChildId(q) + 1 >= c then End(c, Parent(q))
    else At(Sibling(q, ChildId(q) + 1))
  }

  /** The quadrant r starts exactly where q ends. */
  predicate Next(c: Arity, q: Quad, r: Quad) {
    End(c, q) == Begin(r)
  }

  /** A gap-free sequence of quadrants (what the source calls a complete tree). */
  ghost predicate Linear(c: Arity, s: seq<Quad>) {
    && (forall i :: 0 <= i < |s| ==> IsQuad(c, s[i]))
    && (forall i, j :: 0 <= i && j == i + 1 && j < |s| ==> Next(c, s[i], s[j]))
  }

  /** The quadrants of s fill the part of the tree from position b to position e. */
  ghost predicate Tiles(c: Arity, s: seq<Quad>, b: Position, e: Position) {
    if s == [] then b == e
    else Linear(c, s) && Begin(s[0]) == b && End(c, s[|s| - 1]) == e
  }

  lemma TilesConcat(c: Arity, s: seq<Quad>, t: seq<Quad>, b: Position, m: Position, e: Position)
    requires Tiles(c, s, b, m) && Tiles(c, t, m, e)
    ensures Tiles(c, s + t, b, e)
  {
    var u := s + t;
    if s == [] {
      assert u == t;
    } else if t == [] {
      assert u == s;
    } else {
      forall i, j | 0 <= i && j == i + 1 && j < |u|
        ensures Next(c, u[i], u[j])
      {
        if i == |s| - 1 {
          assert u[i] == s[i] && u[j] == t[0];
        }
      }
    }
  }

  lemma TilesSplit(c: Arity, s: seq<Quad>, k: nat, b: Position, e: Position)
    requires k <= |s| && Tiles(c, s, b, e)
    ensures Tiles(c, s[..k], b, if k < |s| then Begin(s[k]) else e)
    ensures Tiles(c, s[k..], if k < |s| then Begin(s[k]) else e, e)
  {
    if 0 < k < |s| {
      assert Next(c, s[k - 1], s[k]);
    }
  }

  lemma BeginOfChildren(c: Arity, q: Quad)
    requires IsQuad(c, q)
    ensures Tiles(c, Children(c, q), Begin(q), End(c, q))
  {
    var s := Children(c, q);
    assert Parent(Child(q, 0)) == q;
    assert Parent(Child(q, c - 1)) == q;
    forall i, j | 0 <= i && j == i + 1 && j < |s|
      ensures Next(c, s[i], s[j])
    {
      assert Parent(s[i]) == q;
    }
  }

  // ---------------------------------------------------------------- families

  ghost predicate IsFamily(c: Arity, s: seq<Quad>) {
    |s| == c && s[0] != [] && s == Children(c, Parent(s[0]))
  }

  /** Adjacent quadrants whose child ids do not wrap are siblings of one level. */
  lemma AdjacentSiblings(c: Arity, q: Quad, r: Quad)
    requires Next(c, q, r) && ChildId(q) + 1 < c && ChildId(r) != 0
    ensures q != [] && r == Sibling(q, ChildId(q) + 1)
  {
  }

  /** In a gap-free sequence, c consecutive child ids 0..c-1 can only be a family. */
  lemma {:induction false} ChildIdsMakeFamily(c: Arity, s: seq<Quad>)
    requires Linear(c, s) && |s| == c
    requires forall i :: 0 <= i < c ==> ChildId(s[i]) == i
    ensures IsFamily(c, s)
  {
    AdjacentSiblings(c, s[0], s[1]);
    var p := Parent(s[0]);
    var i := 0;
    while i < c - 1
      invariant 0 <= i < c
      invariant forall j :: 0 <= j <= i ==> s[j] == Child(p, j)
    {
      assert Next(c, s[i], s[i + 1]);
      AdjacentSiblings(c, s[i], s[i + 1]);
      i := i + 1;
    }
  }

  // ---------------------------------------------------------------- order

  /** a lies entirely before b on the curve: they branch at some level, a lower. */
  predicate Before(a: Quad, b: Quad) {
    var n := CommonLength(a, b);
    n < |a| && n < |b| && a[n] < b[n]
  }

  /** Morton order with ancestors first, the order of p4est_quadrant_compare. */
  predicate Less(a: Quad, b: Quad) {
    a < b || Before(a, b)
  }

  lemma CommonLengthIs(a: Quad, b: Quad, n: nat)
    requires n <= |a| && n <= |b| && a[..n] == b[..n]
    requires n < |a| && n < |b| ==> a[n] != b[n]
    ensures CommonLength(a, b) == n
  {
    forall i | 0 <= i < n
      ensures a[i] == b[i]
    {
      assert a[..n][i] == b[..n][i];
    }
    var m := CommonLength(a, b);
    assert forall i :: 0 <= i < m ==> a[..m][i] == b[..m][i];
    assert m == n;
  }

  lemma BeforeIntro(a: Quad, b: Quad, n: nat)
    requires n < |a| && n < |b| && a[..n] == b[..n] && a[n] < b[n]
    ensures Before(a, b)
  {
    CommonLengthIs(a, b, n);
  }

  lemma Trichotomy(a: Quad, b: Quad)
    ensures Before(a, b) || Before(b, a) || Overlap(a, b)
    ensures !(Before(a, b) && Before(b, a))
    ensures Before(a, b) || Before(b, a) ==> !Overlap(a, b)
  {
    var n := CommonLength(a, b);
    CommonLengthIs(b, a, n);
    if n == |a| {
      assert a == a[..n];
    } else if n == |b| {
      assert b == b[..n];
    } else {
      assert !(a <= b) && !(b <= a);
    }
  }

  lemma BeforeTransitive(a: Quad, b: Quad, d: Quad)
    requires Before(a, b) && Before(b, d)
    ensures Before(a, d)
  {
    var m := CommonLength(a, b);
    var n := CommonLength(b, d);
    var k := if m < n then m else n;
    assert a[..k] == a[..m][..k] == b[..m][..k] == b[..k];
    assert d[..k] == d[..n][..k] == b[..n][..k] == b[..k];
    assert n < m ==> a[n] == a[..m][n] == b[..m][n] == b[n];
    assert m < n ==> d[m] == d[..n][m] == b[..n][m] == b[m];
    BeforeIntro(a, d, k);
  }

  lemma NextIsBefore(c: Arity, q: Quad, r: Quad)
    requires Next(c, q, r)
    ensures Before(q, r)
  {
    var k := BeginShape(r);
    var n := EndShape(c, q);
    assert r[..n] == r[..k][..n] == q[..n];
    assert r[n] == r[..k][n] == q[n] + 1;
    BeforeIntro(q, r, n);
  }

  /** Where q ends: some last ancestor-or-self that is not a last child moves up by one. */
  lemma EndShape(c: Arity, q: Quad) returns (n: nat)
    requires End(c, q) != Top
    ensures n < |q| && q[n] + 1 < c && End(c, q) == At(q[..n] + [q[n] + 1])
    ensures forall i :: n < i < |q| ==> q[i] + 1 >= c
  {
    if ChildId(q) + 1 < c {
      n := |q| - 1;
    } else {
      n := EndShape(c, Parent(q));
      assert Parent(q)[..n] == q[..n];
    }
  }

  lemma BeginShape(q: Quad) returns (n: nat)
    ensures n <= |q| && Begin(q) == At(q[..n]) && (n > 0 ==> q[n - 1] > 0)
    ensures forall i :: n <= i < |q| ==> q[i] == 0
  {
    if q != [] && ChildId(q) == 0 {
      n := BeginShape(Parent(q));
      assert Parent(q)[..n] == q[..n];
    } else {
      n := |q|;
      assert q[..n] == q;
    }
  }

  lemma {:induction false} LinearIsSorted(c: Arity, s: seq<Quad>, i: nat, j: nat)
    requires Linear(c, s) && i < j < |s|
    ensures Before(s[i], s[j])
  {
    assert Next(c, s[j - 1], s[j]);
    NextIsBefore(c, s[j - 1], s[j]);
    if i < j - 1 {
      LinearIsSorted(c, s, i, j - 1);
      BeforeTransitive(s[i], s[j - 1], s[j]);
    }
  }

  /** Two leaves of a gap-free sequence that overlap are the same slot. */
  lemma OverlapSameSlot(c: Arity, s: seq<Quad>, i: nat, j: nat)
    requires Linear(c, s) && i < |s| && j < |s| && Overlap(s[i], s[j])
    ensures i == j
  {
    Trichotomy(s[i], s[j]);
    if i < j {
      LinearIsSorted(c, s, i, j);
    } else if j < i {
      LinearIsSorted(c, s, j, i);
    }
  }

  lemma SameBeginOverlaps(a: Quad, b: Quad)
    requires Begin(a) == Begin(b)
    ensures Overlap(a, b)
  {
    var m := BeginShape(a);
    var n := BeginShape(b);
    assert a[..m] == b[..n];
    assert m == n;
    if |a| <= |b| {
      assert forall i :: 0 <= i < |a| ==> a[i] == if i < m then a[..m][i] else 0;
      assert forall i :: 0 <= i < |a| ==> b[i] == if i < m then b[..m][i] else 0;
    } else {
      assert forall i :: 0 <= i < |b| ==> a[i] == if i < m then a[..m][i] else 0;
      assert forall i :: 0 <= i < |b| ==> b[i] == if i < m then b[..m][i] else 0;
    }
  }

  lemma LinearPart(c: Arity, s: seq<Quad>, i: nat, j: nat)
    requires Linear(c, s) && i <= j <= |s|
    ensures Linear(c, s[i..j])
  {
  }
}
