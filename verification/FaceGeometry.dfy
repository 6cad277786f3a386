/** Face adjacency in coordinates: two quadrants are adjacent along an axis when one ends
    where the other begins and they overlap along every other axis. */
module FaceGeometry {
  import opened Quadrants
  import opened Faces
  import opened FacePairs

  /** Side length of a tree in cells of level n. */
  function Width(n: nat): (r: nat)
    ensures r >= 1
  {
    if n == 0 then 1 else 2 * Width(n - 1)
  }

  /** Coordinate of the lower side along axis k, in cells of level n. */
  function Low(k: nat, q: Quad, n: nat): int
    requires k < 3 && |q| <= n
  {
    if q == [] then 0 else (if Upper(q[0], k) then Width(n - 1) else 0) + Low(k, q[1..], n - 1)
  }

  function High(k: nat, q: Quad, n: nat): int
    requires k < 3 && |q| <= n
  {
    Low(k, q, n) + Width(n - |q|)
  }

  predicate Overlaps(k: nat, x: Quad, y: Quad, n: nat)
    requires k < 3 && |x| <= n && |y| <= n
  {
    Low(k, x, n) < High(k, y, n) && Low(k, y, n) < High(k, x, n)
  }

  predicate OverlapsBeside(d: Dim, k: nat, x: Quad, y: Quad, n: nat)
    requires |x| <= n && |y| <= n
  {
    forall j :: 0 <= j < d && j != k ==> Overlaps(j, x, y, n)
  }

  lemma {:induction false} InBounds(k: nat, q: Quad, n: nat)
    requires k < 3 && |q| <= n
    ensures 0 <= Low(k, q, n) < High(k, q, n) <= Width(n)
  {
    if q != [] {
      InBounds(k, q[1..], n - 1);
    }
  }

  lemma OverlapsHead(k: nat, x: Quad, y: Quad, n: nat)
    requires k < 3 && 0 < |x| <= n && 0 < |y| <= n
    ensures Overlaps(k, x, y, n) <==> SameHalf(k, x[0], y[0]) && Overlaps(k, x[1..], y[1..], n - 1)
  {
    InBounds(k, x[1..], n - 1);
    InBounds(k, y[1..], n - 1);
  }

  lemma OverlapsRoot(k: nat, x: Quad, y: Quad, n: nat)
    requires k < 3 && |x| <= n && |y| <= n && (x == [] || y == [])
    ensures Overlaps(k, x, y, n)
  {
    InBounds(k, x, n);
    InBounds(k, y, n);
  }

  lemma OverlapsBesideHead(d: Dim, k: nat, x: Quad, y: Quad, n: nat)
    requires 0 < |x| <= n && 0 < |y| <= n
    ensures OverlapsBeside(d, k, x, y, n) <==>
              SameBeside(d, k, x[0], y[0]) && OverlapsBeside(d, k, x[1..], y[1..], n - 1)
  {
    hide SameHalf, Overlaps;
    var x1, y1, m := x[1..], y[1..], n - 1;
    if OverlapsBeside(d, k, x, y, n) {
      forall j | 0 <= j < d && j != k
        ensures SameHalf(j, x[0], y[0])
      {
        OverlapsHead(j, x, y, n);
      }
      forall j | 0 <= j < d && j != k
        ensures Overlaps(j, x1, y1, m)
      {
        OverlapsHead(j, x, y, n);
      }
      assert SameBeside(d, k, x[0], y[0]);
      assert OverlapsBeside(d, k, x1, y1, m);
    }
    if SameBeside(d, k, x[0], y[0]) && OverlapsBeside(d, k, x[1..], y[1..], n - 1) {
      forall j | 0 <= j < d && j != k
        ensures Overlaps(j, x, y, n)
      {
        OverlapsHead(j, x, y, n);
      }
      assert OverlapsBeside(d, k, x, y, n);
    }
  }

  lemma OverlapsBesideRoot(d: Dim, k: nat, x: Quad, y: Quad, n: nat)
    requires |x| <= n && |y| <= n && (x == [] || y == [])
    ensures OverlapsBeside(d, k, x, y, n)
  {
    forall j | 0 <= j < d && j != k
      ensures Overlaps(j, x, y, n)
    {
      OverlapsRoot(j, x, y, n);
    }
  }

  predicate SameHalf(j: nat, u: nat, v: nat)
    requires j < 3
  {
    Upper(u, j) == Upper(v, j)
  }

  predicate SameBeside(d: Dim, k: nat, u: nat, v: nat) {
    forall j :: 0 <= j < d && j != k ==> SameHalf(j, u, v)
  }

  lemma ChildIdBits(d: Dim, k: nat, u: nat, v: nat)
    requires k < d && u < NumChildren(d) && v < NumChildren(d)
    ensures SameBeside(d, k, u, v) && Upper(u, k) == Upper(v, k) <==> u == v
    ensures SameBeside(d, k, u, v) && !Upper(u, k) && Upper(v, k) <==> !Upper(u, k) && v == u + Step(k)
  {
    assert SameBeside(d, k, u, v) <==>
           (k != 0 ==> SameHalf(0, u, v)) && (k != 1 ==> SameHalf(1, u, v)) && (d == 3 && k != 2 ==> SameHalf(2, u, v));
    assert u == u % 2 + 2 * (u / 2 % 2) + 4 * (u / 4) && v == v % 2 + 2 * (v / 2 % 2) + 4 * (v / 4);
  }

  /** Both sides of a quadrant below the root lie in its half. */
  lemma SidesOf(k: nat, q: Quad, n: nat)
    requires k < 3 && |q| <= n
    ensures q == [] ==> Low(k, q, n) == 0 && High(k, q, n) == Width(n)
    ensures q != [] ==>
              var half := if Upper(q[0], k) then Width(n - 1) else 0;
              && Low(k, q, n) == half + Low(k, q[1..], n - 1) && High(k, q, n) == half + High(k, q[1..], n - 1)
              && 0 <= Low(k, q[1..], n - 1) < High(k, q[1..], n - 1) <= Width(n - 1) && Width(n) == 2 * Width(n - 1)
  {
    if q != [] {
      InBounds(k, q[1..], n - 1);
    }
  }

  lemma {:induction false} TouchInCoordinates(d: Dim, k: nat, x: Quad, y: Quad, n: nat)
    requires k < d && IsQuad(NumChildren(d), x) && IsQuad(NumChildren(d), y) && |x| <= n && |y| <= n
    ensures Touch(k, x, y) <==> High(k, x, n) == Width(n) && Low(k, y, n) == 0 && OverlapsBeside(d, k, x, y, n)
    decreases n
  {
    hide OverlapsBeside, SameBeside, Low, High, Width;
    SidesOf(k, x, n);
    SidesOf(k, y, n);
    if x == [] || y == [] {
      OverlapsBesideRoot(d, k, x, y, n);
    }
    if x == [] && y != [] {
      TouchInCoordinates(d, k, x, y[1..], n - 1);
      OverlapsBesideRoot(d, k, x, y[1..], n - 1);
      SidesOf(k, x, n - 1);
    } else if x != [] && y == [] {
      TouchInCoordinates(d, k, x[1..], y, n - 1);
      OverlapsBesideRoot(d, k, x[1..], y, n - 1);
      SidesOf(k, y, n - 1);
    } else if x != [] {
      TouchInCoordinates(d, k, x[1..], y[1..], n - 1);
      OverlapsBesideHead(d, k, x, y, n);
      ChildIdBits(d, k, y[0], x[0]);
      SameBesideSymmetric(d, k, x[0], y[0]);
    }
  }

  lemma SameBesideSymmetric(d: Dim, k: nat, u: nat, v: nat)
    ensures SameBeside(d, k, u, v) == SameBeside(d, k, v, u)
  {
    assert forall j :: 0 <= j < d && j != k ==> SameHalf(j, u, v) == SameHalf(j, v, u);
  }

  /** The adjacency that the iterator reports is the geometric one. */
  lemma {:induction false} AdjacentInCoordinates(d: Dim, k: nat, x: Quad, y: Quad, n: nat)
    requires k < d && IsQuad(NumChildren(d), x) && IsQuad(NumChildren(d), y) && |x| <= n && |y| <= n
    ensures Adjacent(k, x, y) <==> High(k, x, n) == Low(k, y, n) && OverlapsBeside(d, k, x, y, n)
    decreases n
  {
    hide OverlapsBeside, SameBeside, Low, High, Width;
    SidesOf(k, x, n);
    SidesOf(k, y, n);
    InBounds(k, x, n);
    InBounds(k, y, n);
    if x != [] && y != [] {
      OverlapsBesideHead(d, k, x, y, n);
      ChildIdBits(d, k, x[0], y[0]);
      if x[0] == y[0] {
        AdjacentInCoordinates(d, k, x[1..], y[1..], n - 1);
      } else {
        TouchInCoordinates(d, k, x[1..], y[1..], n - 1);
      }
    }
  }
}
