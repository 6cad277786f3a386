/** The face neighbour of a packed quadrant, by dilated addition on one coordinate. */
module MortonFaces {
  import opened Bits
  import opened MortonWords
  import opened MortonOperations

  // ---------------------------------------------------------------- coordinates of a Morton index

  /** Bit k of a number. */
  function Bit(x: nat, k: nat): nat {
    Shr(x, k) % 2
  }

  /** Coordinate k of quadrant id among n levels, counted in quadrants: every d-th bit. */
  function Coordinate(d: Dim, n: nat, id: nat, k: nat): nat {
    if n == 0 then 0 else Bit(id, k) + 2 * Coordinate(d, n - 1, Shr(id, d), k)
  }

  /** The bits of coordinate k: one in every d bits. */
  function Axis(d: Dim, n: nat, k: nat): nat {
    if n == 0 then 0 else Join(d, Axis(d, n - 1, k), Two(k))
  }

  // ---------------------------------------------------------------- the code

  /** P4EST3_MORT_COORD_MASK */
  function CoordMask(d: Dim): nat {
    if d == 2 then Or(Shl(89478485, 28), 89478485)
    else Or(Shl(Or(Shl(37449, 18), 37449), 18), 37449)
  }

  function DirectionMask(d: Dim, level: nat, k: nat): (m: nat)
    requires level <= MaxLevel(d)
    ensures m < Two(64)
  {
    Shl(And(CoordMask(d), Complement(Minus(Len(d, 1, level), 1))), k)
  }

  function FaceNeighbor(d: Dim, q: nat, f: nat): nat
    requires q < Two(64) && LevelOf(q) <= MaxLevel(d)
  {
    var m := DirectionMask(d, LevelOf(q), f / 2);
    if f % 2 == 1 then IncWord(64, q, m) else DecWord(64, q, m)
  }

  // ---------------------------------------------------------------- the mask

  lemma NextWidth(d: Dim, n: nat)
    requires n > 0
    ensures d + Width(d, n - 1) == Width(d, n)
  {
  }

  lemma {:induction false} AxisBound(d: Dim, n: nat, k: nat)
    requires k < d
    ensures Axis(d, n, k) < Two(Width(d, n))
  {
    hide Width, Join;
    if n > 0 {
      AxisBound(d, n - 1, k);
      hide Two;
      JoinBound(d, Width(d, n - 1), Axis(d, n - 1, k), Two(k));
      NextWidth(d, n);
    }
  }

  lemma {:induction false} AxisJoins(d: Dim, a: nat, b: nat, k: nat)
    requires k < d
    ensures Axis(d, a + b, k) == Join(Width(d, a), Axis(d, b, k), Axis(d, a, k))
  {
    if a > 0 {
      AxisJoins(d, a - 1, b, k);
      hide Two, Join, Width;
      NextWidth(d, a);
      TwoAscends(k, d);
      JoinJoin(d, Width(d, a - 1), Axis(d, b, k), Axis(d, a - 1, k), Two(k));
    }
  }

  /** The next axis is the same mask one bit up. */
  lemma {:induction false} AxisShifts(d: Dim, n: nat, k: nat)
    requires k + 1 < d
    ensures Axis(d, n, k + 1) == 2 * Axis(d, n, k)
  {
    if n > 0 {
      AxisShifts(d, n - 1, k);
      PowersFit(d, k);
      hide Two, Join;
      JoinIs(d, Axis(d, n - 1, k), Two(k));
      JoinIs(d, Axis(d, n - 1, k + 1), Two(k + 1));
      Doubled(Axis(d, n - 1, k), Two(d));
    }
  }

  lemma PowersFit(d: Dim, k: nat)
    requires k + 1 < d
    ensures Two(k) < Two(d) && Two(k + 1) < Two(d) && Two(k + 1) == 2 * Two(k)
  {
  }

  /** Shifting up by k bits moves to axis k. */
  lemma {:induction false} ShiftAxis(d: Dim, n: nat, k: nat)
    requires k < d
    ensures Join(k, Axis(d, n, 0), 0) == Axis(d, n, k)
  {
    if k > 0 {
      ShiftAxis(d, n, k - 1);
      AxisShifts(d, n, k - 1);
    }
  }

  /** The constants are the mask of axis 0 over all levels. */
  lemma Constants()
    ensures Axis(2, 14, 0) == 89478485 && Axis(3, 6, 0) == 37449
  {
    AxisStep(2, 0);
    AxisStep(2, 1);
    AxisStep(2, 2);
    AxisStep(2, 3);
    AxisStep(2, 4);
    AxisStep(2, 5);
    AxisStep(2, 6);
    AxisStep(2, 7);
    AxisStep(2, 8);
    AxisStep(2, 9);
    AxisStep(2, 10);
    AxisStep(2, 11);
    AxisStep(2, 12);
    AxisStep(2, 13);
    AxisStep(3, 0);
    AxisStep(3, 1);
    AxisStep(3, 2);
    AxisStep(3, 3);
    AxisStep(3, 4);
    AxisStep(3, 5);
    hide Axis;
  }

  lemma AxisStep(d: Dim, n: nat)
    ensures Axis(d, 0, 0) == 0 && Axis(d, n + 1, 0) == (if d == 2 then 4 else 8) * Axis(d, n, 0) + 1
  {
    JoinIs(d, Axis(d, n, 0), 1);
  }

  lemma CoordMaskIs(d: Dim)
    ensures CoordMask(d) == Axis(d, MaxLevel(d), 0)
  {
    Constants();
    hide Two, Join, Or, Shl, Axis;
    if d == 2 {
      GlueAxes(2, 14, 14);
    } else {
      GlueAxes(3, 6, 6);
      GlueAxes(3, 6, 12);
    }
  }

  lemma GlueAxes(d: Dim, a: nat, b: nat)
    requires a + b <= MaxLevel(d)
    ensures Or(Shl(Axis(d, b, 0), Width(d, a)), Axis(d, a, 0)) == Axis(d, a + b, 0)
  {
    hide Two, Join, Or, Shl, Axis;
    AxisJoins(d, a, b, 0);
    AxisBound(d, a, 0);
    AxisBound(d, b, 0);
    Widths(d, a, a + b);
    JoinBound(Width(d, a), Width(d, b), Axis(d, b, 0), 0);
    WidthsAdd(d, a, b);
    TwoAscends(Width(d, a) + Width(d, b), 64);
    ShlIs(Axis(d, b, 0), Width(d, a));
    OrParts(Width(d, a), Axis(d, b, 0), Axis(d, a, 0));
  }

  lemma WidthsAdd(d: Dim, a: nat, b: nat)
    requires a + b <= MaxLevel(d)
    ensures Width(d, a) + Width(d, b) == Width(d, a + b) <= 56
  {
  }

  /** The mask in the direction of a face selects the coordinate's bits above the quadrant's size. */
  lemma DirectionMaskIs(d: Dim, level: nat, k: nat)
    requires level <= MaxLevel(d) && k < d
    ensures DirectionMask(d, level, k) == Join(Below(d, level), Axis(d, level, k), 0)
  {
    hide Two, Join, And, Shl, Axis, Below, Width, Len, Minus, Complement, MaxLevel, CoordMask;
    var s := Below(d, level);
    var rest := MaxLevel(d) - level;
    Widths(d, level, level);
    CoordMaskIs(d);
    BelowIs(d, level);
    AxisJoins(d, rest, level, 0);
    AxisBound(d, rest, 0);
    AxisBound(d, level, 0);
    UnitIs(d, level);
    MinusIs(Len(d, 1, level), 1);
    TwoAscends(Width(d, level), 64 - s);
    ClearLow(s, Axis(d, level, 0), Axis(d, rest, 0));
    AxisBound(d, level, k);
    ShiftAxis(d, level, k);
    JoinSwap(s, k, Axis(d, level, 0));
    JoinBound(s, Width(d, level), Axis(d, level, k), 0);
    TwoAscends(s + Width(d, level), 64);
    ShlIs(Join(s, Axis(d, level, 0), 0), k);
  }

  lemma BelowIs(d: Dim, level: nat)
    requires level <= MaxLevel(d)
    ensures Below(d, level) == Width(d, MaxLevel(d) - level)
  {
  }

  lemma JoinSwap(s: nat, k: nat, x: nat)
    ensures Join(k, Join(s, x, 0), 0) == Join(s, Join(k, x, 0), 0)
  {
    hide Join;
    JoinJoin(k, s, x, 0, 0);
    JoinJoin(s, k, x, 0, 0);
    JoinZero(k);
    JoinZero(s);
  }

  // ---------------------------------------------------------------- dilated steps on parts of words

  lemma {:induction false} StepAbove(s: nat, w: nat, a: nat, b: nat, m: nat)
    requires b < Two(s)
    ensures Inc(s + w, Join(s, a, b), Join(s, m, 0)) == Join(s, Inc(w, a, m), b)
    ensures Dec(s + w, Join(s, a, b), Join(s, m, 0)) == Join(s, Dec(w, a, m), b)
  {
    if s > 0 {
      StepAbove(s - 1, w, a, b / 2, m);
      JoinBits(s, a, b);
      JoinBits(s, m, 0);
      IncBits(s + w, Join(s, a, b), Join(s, m, 0));
      DecBits(s + w, Join(s, a, b), Join(s, m, 0));
      JoinBits(s, Inc(w, a, m), b);
      JoinBits(s, Dec(w, a, m), b);
      hide *;
      SameBits(Inc(s + w, Join(s, a, b), Join(s, m, 0)), Join(s, Inc(w, a, m), b));
      SameBits(Dec(s + w, Join(s, a, b), Join(s, m, 0)), Join(s, Dec(w, a, m), b));
    }
  }

  /** A step under a mask in the low part never carries out of it. */
  lemma {:induction false} StepBelow(s: nat, w: nat, a: nat, b: nat, m: nat)
    requires a < Two(w) && b < Two(s) && m < Two(s)
    ensures Inc(s + w, Join(s, a, b), m) == Join(s, a, Inc(s, b, m))
    ensures Dec(s + w, Join(s, a, b), m) == Join(s, a, Dec(s, b, m))
  {
    if s == 0 {
      StepNothing(w, a);
    } else {
      StepBelow(s - 1, w, a, b / 2, m / 2);
      JoinBits(s, a, b);
      IncBits(s + w, Join(s, a, b), m);
      DecBits(s + w, Join(s, a, b), m);
      IncBits(s, b, m);
      DecBits(s, b, m);
      JoinBits(s, a, Inc(s, b, m));
      JoinBits(s, a, Dec(s, b, m));
      hide *;
      SameBits(Inc(s + w, Join(s, a, b), m), Join(s, a, Inc(s, b, m)));
      SameBits(Dec(s + w, Join(s, a, b), m), Join(s, a, Dec(s, b, m)));
    }
  }

  lemma {:induction false} StepNothing(w: nat, a: nat)
    requires a < Two(w)
    ensures Inc(w, a, 0) == a && Dec(w, a, 0) == a
  {
    if w > 0 {
      StepNothing(w - 1, a / 2);
    }
  }

  lemma {:induction false} GatherJoins(s: nat, w: nat, a: nat, b: nat, m: nat, n: nat)
    requires b < Two(s) && n < Two(s)
    ensures Gather(s + w, Join(s, a, b), Join(s, m, n)) == Gather(s, b, n) + Two(Ones(s, n)) * Gather(w, a, m)
    ensures Ones(s + w, Join(s, m, n)) == Ones(s, n) + Ones(w, m)
  {
    if s > 0 {
      GatherJoins(s - 1, w, a, b / 2, m, n / 2);
      JoinBits(s, a, b);
      JoinBits(s, m, n);
      var g := Gather(w, a, m);
      var t := Two(Ones(s - 1, n / 2));
      if n % 2 == 1 {
        assert Two(Ones(s, n)) == 2 * t;
        Doubled(t, g);
      }
      hide Join, Two;
    }
  }

  // ---------------------------------------------------------------- coordinates under the masks

  lemma {:induction false} GatherNothing(w: nat, b: nat)
    ensures Gather(w, b, 0) == 0 && Ones(w, 0) == 0
  {
    if w > 0 {
      GatherNothing(w - 1, b / 2);
    }
  }

  lemma {:induction false} GatherBit(s: nat, b: nat, k: nat)
    requires k < s
    ensures Gather(s, b, Two(k)) == Bit(b, k) && Ones(s, Two(k)) == 1
  {
    if k == 0 {
      GatherNothing(s - 1, b / 2);
    } else {
      GatherBit(s - 1, b / 2, k - 1);
    }
  }

  lemma {:induction false} BitOfLow(x: nat, s: nat, k: nat)
    requires k < s
    ensures Bit(Low(x, s), k) == Bit(x, k)
  {
    if k > 0 {
      BitOfLow(x / 2, s - 1, k - 1);
    }
  }

  /** A coordinate is what its mask gathers from the index. */
  lemma {:induction false} GatherAxis(d: Dim, n: nat, id: nat, k: nat)
    requires k < d
    ensures Gather(Width(d, n), id, Axis(d, n, k)) == Coordinate(d, n, id, k)
    ensures Ones(Width(d, n), Axis(d, n, k)) == n
  {
    if n == 0 {
      assert Width(d, n) == 0;
    } else {
      var a, b := Shr(id, d), Low(id, d);
      GatherAxis(d, n - 1, a, k);
      hide Width, Join, Two, Bit, Shr, Low, Gather, Ones;
      NextWidth(d, n);
      LowBound(id, d);
      TwoRises(k, d);
      GatherJoins(d, Width(d, n - 1), a, b, Axis(d, n - 1, k), Two(k));
      GatherBit(d, b, k);
      BitOfLow(id, d, k);
      TwoOne();
    }
  }

  lemma TwoOne()
    ensures Two(1) == 2
  {
  }

  lemma TwoRises(a: nat, b: nat)
    requires a < b
    ensures Two(a) < Two(b)
  {
    TwoAscends(a + 1, b);
  }

  lemma {:induction false} PowersDisjoint(j: nat, k: nat)
    requires j != k
    ensures And(Two(j), Two(k)) == 0
  {
    AndBits(Two(j), Two(k));
    if j > 0 && k > 0 {
      PowersDisjoint(j - 1, k - 1);
    } else if j == 0 {
      AndZero(Two(k) / 2);
    } else {
      AndZero(Two(j) / 2);
    }
  }

  lemma {:induction false} AxesDisjoint(d: Dim, n: nat, j: nat, k: nat)
    requires j < d && k < d && j != k
    ensures And(Axis(d, n, j), Axis(d, n, k)) == 0
  {
    hide And, Join, Two;
    if n == 0 {
      AndZero(0);
    } else {
      AxesDisjoint(d, n - 1, j, k);
      TwoRises(j, d);
      TwoRises(k, d);
      PowersDisjoint(j, k);
      AndSplit(d, Axis(d, n - 1, j), Two(j), Axis(d, n - 1, k), Two(k));
      JoinZero(d);
    }
  }

  // ---------------------------------------------------------------- the face neighbour

  function NeighborId(d: Dim, level: nat, id: nat, f: nat): nat {
    var m := Axis(d, level, f / 2);
    if f % 2 == 1 then Inc(Width(d, level), id, m) else Dec(Width(d, level), id, m)
  }

  /** One cell up or down inside the tree, and around at its end. */
  function Moved(n: nat, x: nat, f: nat): int {
    if f % 2 == 1 then if x + 1 == n then 0 else x + 1
    else if x == 0 then n - 1 else x - 1
  }

  lemma NeighborInLevel(d: Dim, level: nat, id: nat, f: nat)
    requires InLevel(d, level, id) && f < 2 * d
    ensures InLevel(d, level, NeighborId(d, level, id, f))
  {
    hide Two, Width, Axis;
    InDecBound(Width(d, level), id, Axis(d, level, f / 2));
  }

  /** The word expression steps on the index and leaves the level byte alone. */
  lemma FaceNeighborIs(d: Dim, level: nat, id: nat, f: nat)
    requires InLevel(d, level, id) && f < 2 * d
    ensures LevelOf(Word(d, level, id)) == level && Word(d, level, id) < Two(64)
    ensures InLevel(d, level, NeighborId(d, level, id, f))
    ensures FaceNeighbor(d, Word(d, level, id), f) == Word(d, level, NeighborId(d, level, id, f))
  {
    hide Two, Axis, Width, Below, MaxLevel, LevelOf, IncWord, DecWord, Inc, Dec, DirectionMask, Join;
    var s, w, k := Below(d, level), Width(d, level), f / 2;
    var m := Axis(d, level, k);
    LevelIs(d, level, id);
    WordBits(d, level, id);
    NeighborInLevel(d, level, id, f);
    DirectionMaskIs(d, level, k);
    AxisBound(d, level, k);
    Widths(d, level, level);
    IncWordIsInc(64, Word(d, level, id), Join(s, m, 0));
    DecWordIsDec(64, Word(d, level, id), Join(s, m, 0));
    StepWord(s, w, level, id, m);
  }

  lemma StepWord(s: nat, w: nat, level: nat, id: nat, m: nat)
    requires s + w <= 56 && level < Two(8) && id < Two(w) && m < Two(w)
    ensures Inc(64, Join(56, level, Join(s, id, 0)), Join(s, m, 0)) == Join(56, level, Join(s, Inc(w, id, m), 0))
    ensures Dec(64, Join(56, level, Join(s, id, 0)), Join(s, m, 0)) == Join(56, level, Join(s, Dec(w, id, m), 0))
  {
    hide Two, Join, Inc, Dec;
    JoinBound(s, w, id, 0);
    JoinBound(s, w, m, 0);
    TwoAscends(s + w, 56);
    StepBelow(56, 8, level, Join(s, id, 0), Join(s, m, 0));
    TwoAscends(w, 56 - s);
    StepAbove(s, 56 - s, id, 0, m);
    var r := 56 - s - w;
    JoinLow(w, id);
    JoinLow(w, m);
    ZeroBelow(w, r);
    StepBelow(w, r, 0, id, m);
    InDecBound(w, id, m);
    JoinLow(w, Inc(w, id, m));
    JoinLow(w, Dec(w, id, m));
  }

  lemma ZeroBelow(w: nat, r: nat)
    ensures 0 < Two(r) && 0 < Two(w)
  {
  }

  /** Exactly the coordinate across the face moves, by one cell modulo the tree. */
  lemma NeighborCoordinates(d: Dim, level: nat, id: nat, f: nat)
    requires InLevel(d, level, id) && f < 2 * d
    ensures forall k: nat :: k < d ==> Coordinate(d, level, id, k) < Two(level)
    ensures forall k: nat :: k < d ==>
              Coordinate(d, level, NeighborId(d, level, id, f), k) ==
              (if k == f / 2 then Moved(Two(level), Coordinate(d, level, id, k), f) else Coordinate(d, level, id, k))
  {
    hide Two, Axis, Width, Coordinate, Gather, Ones, Inc, Dec;
    var w, m, r := Width(d, level), Axis(d, level, f / 2), NeighborId(d, level, id, f);
    forall k: nat | k < d
      ensures Coordinate(d, level, id, k) < Two(level)
      ensures Coordinate(d, level, r, k)
           == if k == f / 2 then Moved(Two(level), Coordinate(d, level, id, k), f) else Coordinate(d, level, id, k)
    {
      GatherAxis(d, level, id, k);
      GatherAxis(d, level, r, k);
      GatherInc(w, id, Axis(d, level, k));
      GatherDec(w, id, Axis(d, level, k));
      if k != f / 2 {
        AxesDisjoint(d, level, f / 2, k);
        OtherCoordinatesStay(w, id, m, Axis(d, level, k));
      }
    }
  }

  /** The opposite face leads back. */
  lemma OppositeFace(d: Dim, level: nat, id: nat, f: nat)
    requires InLevel(d, level, id) && f < 2 * d
    ensures var g := if f % 2 == 1 then f - 1 else f + 1;
            var q := Word(d, level, id);
            && q < Two(64) && LevelOf(q) == level
            && FaceNeighbor(d, q, f) < Two(64) && LevelOf(FaceNeighbor(d, q, f)) == level
            && FaceNeighbor(d, FaceNeighbor(d, q, f), g) == q
  {
    hide Two, Axis, Width, LevelOf, Word, Inc, Dec, FaceNeighbor;
    var g := if f % 2 == 1 then f - 1 else f + 1;
    var r := NeighborId(d, level, id, f);
    FaceNeighborIs(d, level, id, f);
    FaceNeighborIs(d, level, r, g);
    DecUndoesInc(Width(d, level), id, Axis(d, level, f / 2));
    IncUndoesDec(Width(d, level), id, Axis(d, level, f / 2));
  }

  ghost predicate SameCoordinates(d: Dim, n: nat, x: nat, y: nat) {
    forall k: nat :: k < d ==> Coordinate(d, n, x, k) == Coordinate(d, n, y, k)
  }

  ghost predicate SameBitsBelow(s: nat, x: nat, y: nat) {
    forall k: nat :: k < s ==> Bit(x, k) == Bit(y, k)
  }

  lemma OneLevelUp(d: Dim, n: nat, x: nat, y: nat)
    requires SameCoordinates(d, n + 1, x, y)
    ensures SameBitsBelow(d, x, y) && SameCoordinates(d, n, Shr(x, d), Shr(y, d))
  {
    hide Bit, Shr;
    var m := n + 1;
    forall k: nat | k < d
      ensures Bit(x, k) == Bit(y, k)
    {
      BitsAgree(d, m, x, y, k);
    }
    forall k: nat | k < d
      ensures Coordinate(d, n, Shr(x, d), k) == Coordinate(d, n, Shr(y, d), k)
    {
      BitsAgree(d, m, x, y, k);
    }
  }

  lemma BitsAgree(d: Dim, m: nat, x: nat, y: nat, k: nat)
    requires 0 < m && Coordinate(d, m, x, k) == Coordinate(d, m, y, k)
    ensures Bit(x, k) == Bit(y, k)
    ensures Coordinate(d, m - 1, Shr(x, d), k) == Coordinate(d, m - 1, Shr(y, d), k)
  {
    hide Shr;
  }

  /** The coordinates name the quadrant: no two indices of a level share all of them. */
  lemma {:induction false} CoordinatesDetermine(d: Dim, level: nat, x: nat, y: nat)
    requires x < Two(Width(d, level)) && y < Two(Width(d, level)) && SameCoordinates(d, level, x, y)
    ensures x == y
  {
    if level == 0 {
      assert Width(d, 0) == 0;
    } else {
      hide *;
      OneLevelUp(d, level - 1, x, y);
      NextWidth(d, level);
      ShrBound(Width(d, level - 1), d, x);
      ShrBound(Width(d, level - 1), d, y);
      CoordinatesDetermine(d, level - 1, Shr(x, d), Shr(y, d));
      SameLow(d, x, y);
      LowBound(x, d);
      LowBound(y, d);
    }
  }

  lemma {:induction false} SameLow(s: nat, x: nat, y: nat)
    requires SameBitsBelow(s, x, y)
    ensures Low(x, s) == Low(y, s)
  {
    if s > 0 {
      forall k: nat | k < s - 1
        ensures Bit(x / 2, k) == Bit(y / 2, k)
      {
        assert Bit(x, k + 1) == Bit(y, k + 1);
      }
      assert Bit(x, 0) == Bit(y, 0);
      SameLow(s - 1, x / 2, y / 2);
    }
  }
}
