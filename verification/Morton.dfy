/** Linear (Morton) indices and the intervals they cover at a finest level. */
module Morton {
  import opened Quadrants

  function Pow(c: Arity, n: nat): (p: nat)
    ensures p >= 1
  {
    if n == 0 then 1 else c * Pow(c, n - 1)
  }

  /** Index of q among the quadrants of its level. */
  function Id(c: Arity, q: Quad): nat {
    if q == [] then 0 else c * Id(c, Parent(q)) + ChildId(q)
  }

  /** The quadrant of a level with a given index. */
  function FromId(c: Arity, level: nat, id: nat): (q: Quad)
    ensures |q| == level
  {
    if level == 0 then [] else FromId(c, level - 1, id / c) + [id % c]
  }

  lemma {:induction false} FromIdIsQuad(c: Arity, level: nat, id: nat)
    ensures IsQuad(c, FromId(c, level, id))
  {
    if level > 0 {
      FromIdIsQuad(c, level - 1, id / c);
    }
  }

  lemma DivMod(c: Arity, x: nat, d: nat)
    requires d < c
    ensures (c * x + d) / c == x && (c * x + d) % c == d
  {
    var y := c * x + d;
    var q, r := y / c, y % c;
    assert y == c * q + r;
    Multiple(c, q, x, d - r);
  }

  lemma Multiple(c: int, q: int, x: int, d: int)
    requires 1 <= c && c * q - c * x == d && 0 - c < d < c
    ensures q == x
  {
    var e := q - x;
    assert c * e == d;
    if e > 0 {
      AtLeast(c, e);
    } else if e < 0 {
      AtLeast(c, -e);
    }
  }

  lemma NextMultiple(x: nat, y: nat, s: nat)
    requires x < y
    ensures x * s + s <= y * s && s * x + s <= s * y
  {
    var d := y - x - 1;
    assert y * s == x * s + s + d * s;
  }

  lemma AtLeast(c: int, e: int)
    requires 1 <= c && 1 <= e
    ensures c <= c * e
  {
  }

  lemma DivBound(c: Arity, x: nat, p: nat)
    requires x < c * p
    ensures x / c < p && c * (x / c) + x % c == x
  {
  }

  lemma {:induction false} IdBound(c: Arity, q: Quad)
    requires IsQuad(c, q)
    ensures Id(c, q) < Pow(c, |q|)
  {
    if q != [] {
      IdBound(c, Parent(q));
      NextMultiple(Id(c, Parent(q)), Pow(c, |q| - 1), c);
    }
  }

  /** morton and linear_id are inverse at every level. */
  lemma {:induction false} FromIdOfId(c: Arity, q: Quad)
    requires IsQuad(c, q)
    ensures FromId(c, |q|, Id(c, q)) == q
  {
    if q != [] {
      FromIdOfId(c, Parent(q));
      DivMod(c, Id(c, Parent(q)), ChildId(q));
    }
  }

  lemma {:induction false} IdOfFromId(c: Arity, level: nat, id: nat)
    requires id < Pow(c, level)
    ensures Id(c, FromId(c, level, id)) == id
  {
    if level > 0 {
      DivBound(c, id, Pow(c, level - 1));
      IdOfFromId(c, level - 1, id / c);
      assert Parent(FromId(c, level, id)) == FromId(c, level - 1, id / c);
    }
  }

  // ---------------------------------------------------------------- intervals

  /** First cell of q at level `deep`. */
  function First(c: Arity, deep: nat, q: Quad): nat
    requires |q| <= deep
  {
    Id(c, q) * Pow(c, deep - |q|)
  }

  /** Number of cells of q at level `deep`. */
  function Size(c: Arity, deep: nat, q: Quad): nat
    requires |q| <= deep
  {
    Pow(c, deep - |q|)
  }

  lemma ChildInterval(c: Arity, deep: nat, q: Quad)
    requires q != [] && |q| <= deep
    ensures Size(c, deep, Parent(q)) == c * Size(c, deep, q)
    ensures First(c, deep, q) == First(c, deep, Parent(q)) + ChildId(q) * Size(c, deep, q)
  {
    var p, s := Id(c, Parent(q)), Size(c, deep, q);
    assert Pow(c, deep - |q| + 1) == c * s;
    assert (c * p + ChildId(q)) * s == p * (c * s) + ChildId(q) * s;
  }

  function Value(c: Arity, deep: nat, x: Position): nat
    requires x.At? ==> |x.corner| <= deep
  {
    match x
    case At(p) => First(c, deep, p)
    case Top => Pow(c, deep)
  }

  lemma {:induction false} BeginValue(c: Arity, deep: nat, q: Quad)
    requires |q| <= deep
    ensures Begin(q).At? && |Begin(q).corner| <= |q|
    ensures Value(c, deep, Begin(q)) == First(c, deep, q)
  {
    if q != [] && ChildId(q) == 0 {
      BeginValue(c, deep, Parent(q));
      ChildInterval(c, deep, q);
    }
  }

  lemma {:induction false} EndValue(c: Arity, deep: nat, q: Quad)
    requires |q| <= deep && IsQuad(c, q)
    ensures End(c, q).At? ==> |End(c, q).corner| <= |q|
    ensures Value(c, deep, End(c, q)) == First(c, deep, q) + Size(c, deep, q)
  {
    if q != [] {
      ChildInterval(c, deep, q);
      var s := Size(c, deep, q);
      if ChildId(q) == c - 1 {
        EndValue(c, deep, Parent(q));
        assert (c - 1) * s + s == c * s;
      } else {
        var r := Sibling(q, ChildId(q) + 1);
        assert Parent(r) == Parent(q);
        ChildInterval(c, deep, r);
        assert (ChildId(q) + 1) * s == ChildId(q) * s + s;
      }
    }
  }

  /** An ancestor's interval contains the descendant's. */
  lemma {:induction false} AncestorInterval(c: Arity, deep: nat, a: Quad, q: Quad)
    requires a <= q && |q| <= deep && IsQuad(c, q)
    ensures First(c, deep, a) <= First(c, deep, q)
    ensures First(c, deep, q) + Size(c, deep, q) <= First(c, deep, a) + Size(c, deep, a)
    decreases |q|
  {
    if |a| == |q| {
      assert a == q;
    } else {
      assert a <= Parent(q);
      hide First, Size, Id, Pow;
      AncestorInterval(c, deep, a, Parent(q));
      ChildInterval(c, deep, q);
      NextMultiple(ChildId(q), c, Size(c, deep, q));
    }
  }

  /** Before is the order of disjoint intervals. */
  lemma BeforeInterval(c: Arity, deep: nat, a: Quad, b: Quad)
    requires Before(a, b) && |a| <= deep && |b| <= deep && IsQuad(c, a) && IsQuad(c, b)
    ensures First(c, deep, a) + Size(c, deep, a) <= First(c, deep, b)
  {
    var n := CommonLength(a, b);
    var a', b' := a[..n + 1], b[..n + 1];
    AncestorInterval(c, deep, a', a);
    AncestorInterval(c, deep, b', b);
    assert Parent(a') == a[..n] == b[..n] == Parent(b');
    ChildInterval(c, deep, a');
    ChildInterval(c, deep, b');
    NextMultiple(a[n], b[n], Size(c, deep, a'));
  }

  /** p4est_quadrant_is_next is adjacency of intervals. */
  lemma NextIsAdjacent(c: Arity, deep: nat, q: Quad, r: Quad)
    requires |q| <= deep && |r| <= deep && IsQuad(c, q) && IsQuad(c, r)
    ensures Next(c, q, r) <==> First(c, deep, r) == First(c, deep, q) + Size(c, deep, q)
  {
    BeginValue(c, deep, r);
    EndValue(c, deep, q);
    if First(c, deep, r) == First(c, deep, q) + Size(c, deep, q) {
      IdBound(c, r);
      if End(c, q) == Top {
        FirstBelowTop(c, deep, r);
      } else {
        var n := EndShape(c, q);
        var k := BeginShape(r);
        SameValue(c, deep, End(c, q).corner, Begin(r).corner);
      }
    }
  }

  lemma FirstBelowTop(c: Arity, deep: nat, r: Quad)
    requires |r| <= deep && IsQuad(c, r)
    ensures First(c, deep, r) + Size(c, deep, r) <= Pow(c, deep)
  {
    AncestorInterval(c, deep, [], r);
  }

  lemma SameValue(c: Arity, deep: nat, a: Quad, b: Quad)
    requires |a| <= deep && |b| <= deep && IsQuad(c, a) && IsQuad(c, b)
    requires a != [] ==> ChildId(a) != 0
    requires b != [] ==> ChildId(b) != 0
    requires First(c, deep, a) == First(c, deep, b)
    ensures a == b
  {
    Trichotomy(a, b);
    if Before(a, b) {
      BeforeInterval(c, deep, a, b);
    } else if Before(b, a) {
      BeforeInterval(c, deep, b, a);
    } else if a < b {
      StartsLater(c, deep, a, b);
    } else if b < a {
      StartsLater(c, deep, b, a);
    }
  }

  /** A strict descendant that is not a first child starts strictly later. */
  lemma StartsLater(c: Arity, deep: nat, a: Quad, b: Quad)
    requires a < b && |b| <= deep && IsQuad(c, b) && ChildId(b) != 0
    ensures First(c, deep, a) < First(c, deep, b)
  {
    AncestorInterval(c, deep, a, Parent(b));
    ChildInterval(c, deep, b);
    NextMultiple(0, ChildId(b), Size(c, deep, b));
  }

  // ---------------------------------------------------------------- tilings

  ghost predicate Levels(s: seq<Quad>, deep: nat) {
    forall i :: 0 <= i < |s| ==> |s[i]| <= deep
  }

  /** Some member of a tiling holds the first cell of x. */
  lemma {:induction false} TilingMeets(c: Arity, deep: nat, s: seq<Quad>, b: Position, e: Position, x: Quad)
    returns (i: nat)
    requires Tiles(c, s, b, e) && Levels(s, deep) && IsQuad(c, x) && |x| <= deep
    requires (b.At? ==> |b.corner| <= deep) && (e.At? ==> |e.corner| <= deep)
    requires Value(c, deep, b) <= First(c, deep, x) < Value(c, deep, e)
    ensures i < |s| && Overlap(s[i], x)
    ensures First(c, deep, s[i]) <= First(c, deep, x) < First(c, deep, s[i]) + Size(c, deep, s[i])
  {
    BeginValue(c, deep, s[0]);
    EndValue(c, deep, s[0]);
    if First(c, deep, x) < First(c, deep, s[0]) + Size(c, deep, s[0]) {
      i := 0;
      CellsOverlap(c, deep, s[0], x);
    } else {
      TilesSplit(c, s, 1, b, e);
      var m := if 1 < |s| then Begin(s[1]) else e;
      if 1 < |s| {
        BeginValue(c, deep, s[1]);
        assert Next(c, s[0], s[1]);
      }
      i := TilingMeets(c, deep, s[1..], m, e, x);
      i := i + 1;
    }
  }

  lemma CellsOverlap(c: Arity, deep: nat, a: Quad, x: Quad)
    requires IsQuad(c, a) && IsQuad(c, x) && |a| <= deep && |x| <= deep
    requires First(c, deep, a) <= First(c, deep, x) < First(c, deep, a) + Size(c, deep, a)
    ensures Overlap(a, x)
  {
    Trichotomy(a, x);
    if Before(a, x) {
      BeforeInterval(c, deep, a, x);
    } else if Before(x, a) {
      BeforeInterval(c, deep, x, a);
    }
  }

  /** A tiling of dom meets every descendant of dom. */
  lemma TilingMeetsDescendant(c: Arity, deep: nat, s: seq<Quad>, dom: Quad, x: Quad) returns (i: nat)
    requires Tiles(c, s, Begin(dom), End(c, dom)) && Levels(s, deep)
    requires IsQuad(c, x) && dom <= x && |x| <= deep
    ensures i < |s| && Overlap(s[i], x)
  {
    assert IsQuad(c, dom);
    BeginValue(c, deep, dom);
    EndValue(c, deep, dom);
    AncestorInterval(c, deep, dom, x);
    i := TilingMeets(c, deep, s, Begin(dom), End(c, dom), x);
  }
}
