/** Quadrants packed into 64-bit words: the level in the highest byte, below it the
    interleaved coordinates (p4est3_quadrant_mort2d.c, compiled for 2D and 3D). */
module MortonWords {
  import opened Bits

  type Dim = d: int | d == 2 || d == 3 witness 2

  const MASK56: nat := 0xFF_FFFF_FFFF_FFFF

  function MaxLevel(d: Dim): nat {
    if d == 2 then 28 else 18
  }

  // ---------------------------------------------------------------- shifts and parts of words

  function Shl(x: nat, s: nat): (r: nat)
    ensures r < Two(64)
  {
    (x * Two(s)) % Two(64)
  }

  /** x without its s lowest bits, and these bits. */
  function Shr(x: nat, s: nat): nat {
    if s == 0 then x else Shr(x / 2, s - 1)
  }

  function Low(x: nat, s: nat): nat {
    if s == 0 then 0 else 2 * Low(x / 2, s - 1) + x % 2
  }

  lemma {:induction false} LowBound(x: nat, s: nat)
    ensures Low(x, s) < Two(s) && Join(s, Shr(x, s), Low(x, s)) == x
  {
    if s > 0 {
      LowBound(x / 2, s - 1);
      assert Low(x, s) / 2 == Low(x / 2, s - 1) && Low(x, s) % 2 == x % 2;
      JoinBits(s, Shr(x, s), Low(x, s));
      hide Join;
      SameBits(Join(s, Shr(x, s), Low(x, s)), x);
    }
  }

  lemma {:induction false} JoinJoin(a: nat, b: nat, x: nat, y: nat, z: nat)
    ensures Join(a, Join(b, x, y), z) == Join(a + b, x, Join(a, y, z))
  {
    if a > 0 {
      JoinJoin(a - 1, b, x, y, z / 2);
    }
  }

  lemma {:induction false} JoinBound(s: nat, w: nat, a: nat, b: nat)
    requires a < Two(w)
    ensures Join(s, a, b) < Two(s + w)
  {
    if s > 0 {
      JoinBound(s - 1, w, a, b / 2);
    }
  }

  lemma {:induction false} PartsOfJoin(s: nat, a: nat, b: nat)
    requires b < Two(s)
    ensures Shr(Join(s, a, b), s) == a && Low(Join(s, a, b), s) == b
  {
    if s > 0 {
      PartsOfJoin(s - 1, a, b / 2);
    }
  }

  lemma ShlIs(x: nat, s: nat)
    requires Join(s, x, 0) < Two(64)
    ensures Shl(x, s) == Join(s, x, 0)
  {
    JoinIs(s, x, 0);
    Small(x * Two(s), Two(64));
  }

  lemma Small(x: nat, n: nat)
    requires x < n
    ensures x % n == x
  {
  }

  lemma {:induction false} TwoAscends(a: nat, b: nat)
    requires a <= b
    ensures Two(a) <= Two(b)
  {
    if a < b {
      TwoAscends(a, b - 1);
    }
  }

  lemma {:induction false} JoinZero(s: nat)
    ensures Join(s, 0, 0) == 0
  {
    if s > 0 {
      JoinZero(s - 1);
    }
  }

  lemma {:induction false} JoinLow(s: nat, b: nat)
    requires b < Two(s)
    ensures Join(s, 0, b) == b
  {
    if s > 0 {
      JoinLow(s - 1, b / 2);
    }
  }

  /** Or of disjoint parts puts them together. */
  lemma OrParts(s: nat, a: nat, b: nat)
    requires b < Two(s)
    ensures Or(Join(s, a, 0), b) == Join(s, a, b)
  {
    JoinLow(s, b);
    OrSplit(s, a, 0, 0, b);
    OrZero(a);
    OrZero(b);
  }

  lemma OnesJoin(s: nat, w: nat)
    ensures Join(s, Two(w) - 1, Two(s) - 1) == Two(s + w) - 1
    decreases s
  {
    if s > 0 {
      OnesJoin(s - 1, w);
    }
  }

  /** The complement of s low ones in words of w bits. */
  lemma NotLow(w: nat, s: nat)
    requires s <= w
    ensures Two(s) - 1 < Two(w) && Not(w, Two(s) - 1) == Join(s, Two(w - s) - 1, 0)
  {
    hide Two, Join;
    OnesJoin(s, w - s);
    TwoAscends(s, w);
    JoinIs(s, Two(w - s) - 1, 0);
    JoinIs(s, Two(w - s) - 1, Two(s) - 1);
  }

  /** Clears the bits below s. */
  lemma AndNotLow(w: nat, s: nat, a: nat, b: nat)
    requires s <= w && a < Two(w - s) && b < Two(s)
    ensures Two(s) - 1 < Two(w) && And(Join(s, a, b), Not(w, Two(s) - 1)) == Join(s, a, 0)
  {
    hide Two, And, Join;
    NotLow(w, s);
    AndSplit(s, a, b, Two(w - s) - 1, 0);
    AndOnes(w - s, a);
    AndZero(b);
  }

  /** Keeps the bits below s. */
  lemma AndLow(s: nat, a: nat, b: nat)
    requires b < Two(s)
    ensures And(Join(s, a, b), Two(s) - 1) == b
  {
    JoinLow(s, Two(s) - 1);
    AndSplit(s, a, b, 0, Two(s) - 1);
    AndZero(a);
    AndOnes(s, b);
    JoinLow(s, b);
  }

  lemma TwoOf16()
    ensures Two(8) == 256 && Two(16) == 65536
  {
    assert Two(4) == 16;
    TwoAdds(4, 4);
    TwoAdds(8, 8);
  }

  lemma TwoOf56()
    ensures Two(8) == 256 && Two(56) - 1 == MASK56 && Two(64) == 0x1_0000_0000_0000_0000
  {
    hide Two;
    TwoOf16();
    TwoAdds(16, 16);
    TwoAdds(32, 16);
    TwoAdds(48, 8);
    TwoAdds(56, 8);
  }

  // ---------------------------------------------------------------- words

  /** Number of coordinate bits below a level. */
  function Below(d: Dim, level: nat): nat
    requires level <= MaxLevel(d)
  {
    d * (MaxLevel(d) - level)
  }

  /** The word of the quadrant with index id on its level. */
  function Word(d: Dim, level: nat, id: nat): nat
    requires level <= MaxLevel(d)
  {
    Join(56, level, Join(Below(d, level), id, 0))
  }

  /** Number of coordinate bits of a level, and of the levels between two. */
  function Width(d: Dim, level: nat): nat {
    d * level
  }

  function Between(d: Dim, k: nat, level: nat): nat
    requires k <= level
  {
    d * (level - k)
  }

  lemma Widths(d: Dim, k: nat, level: nat)
    requires k <= level <= MaxLevel(d)
    ensures Below(d, k) == Below(d, level) + Between(d, k, level)
    ensures Width(d, level) == Width(d, k) + Between(d, k, level)
    ensures Below(d, k) + Width(d, k) == Width(d, MaxLevel(d)) <= 56
    ensures Below(d, level) + Width(d, level) == Width(d, MaxLevel(d))
  {
  }

  predicate InLevel(d: Dim, level: nat, id: nat) {
    level <= MaxLevel(d) && id < Two(Width(d, level))
  }

  lemma FullWidth(d: Dim)
    ensures Width(d, MaxLevel(d)) == if d == 3 then 54 else 56
  {
  }

  lemma WordBits(d: Dim, level: nat, id: nat)
    requires InLevel(d, level, id)
    ensures Join(Below(d, level), id, 0) < Two(Width(d, MaxLevel(d))) <= Two(56)
    ensures level < Two(8) && Word(d, level, id) < Two(64)
  {
    hide Two, Join, Width, Below, MaxLevel;
    LevelFits(d, level);
    Widths(d, level, level);
    JoinBound(Below(d, level), Width(d, level), id, 0);
    TwoAscends(Width(d, MaxLevel(d)), 56);
    JoinBound(56, 8, level, Join(Below(d, level), id, 0));
  }

  lemma LevelFits(d: Dim, level: nat)
    requires level <= MaxLevel(d)
    ensures level + 1 < Two(8)
  {
    assert Two(8) == 256;
  }

  function Len(d: Dim, n: nat, level: nat): (r: nat)
    requires level <= MaxLevel(d)
    ensures r < Two(64)
  {
    Shl(n, Below(d, level))
  }

  lemma LenIs(d: Dim, n: nat, level: nat)
    requires level <= MaxLevel(d) && n < Two(8)
    ensures Len(d, n, level) == Join(Below(d, level), n, 0) < Two(64)
    ensures Len(d, 1, level) == Two(Below(d, level)) < Two(64)
  {
    hide Two, Join, Shl, Below, Width, MaxLevel;
    Widths(d, level, level);
    TwoOf16();
    JoinBound(Below(d, level), 8, n, 0);
    JoinBound(Below(d, level), 8, 1, 0);
    TwoAscends(Below(d, level) + 8, 64);
    ShlIs(n, Below(d, level));
    ShlIs(1, Below(d, level));
    JoinIs(Below(d, level), 1, 0);
  }

  lemma UnitIs(d: Dim, level: nat)
    requires level <= MaxLevel(d)
    ensures Len(d, 1, level) == Two(Below(d, level)) < Two(64)
  {
    LenIs(d, 1, level);
  }

  function LevelOf(q: nat): nat {
    Shr(q, 56)
  }

  function LevelByte(level: nat): nat {
    Shl(level, 56)
  }

  lemma LevelByteIs(level: nat)
    requires level < Two(8)
    ensures LevelByte(level) == Join(56, level, 0) == level * Two(56)
  {
    JoinBound(56, 8, level, 0);
    ShlIs(level, 56);
    JoinIs(56, level, 0);
  }

  /** Level and coordinates of a word. */
  lemma WordParts(d: Dim, level: nat, id: nat)
    requires InLevel(d, level, id)
    ensures LevelOf(Word(d, level, id)) == level
    ensures And(Word(d, level, id), MASK56) == Join(Below(d, level), id, 0)
    ensures Or(And(Word(d, level, id), MASK56), LevelByte(level)) == Word(d, level, id)
  {
    WordBits(d, level, id);
    TwoOf56();
    PartsOfJoin(56, level, Join(Below(d, level), id, 0));
    AndLow(56, level, Join(Below(d, level), id, 0));
    LevelByteIs(level);
    OrParts(56, level, Join(Below(d, level), id, 0));
    OrSymmetric(Join(56, level, 0), Join(Below(d, level), id, 0));
  }

  lemma {:induction false} OrSymmetric(x: nat, y: nat)
    ensures Or(x, y) == Or(y, x)
    decreases x + y
  {
    if x > 0 || y > 0 {
      OrSymmetric(x / 2, y / 2);
    }
  }

  /** Coordinates with a level put on top. */
  lemma WithLevel(d: Dim, level: nat, id: nat)
    requires InLevel(d, level, id)
    ensures Or(Join(Below(d, level), id, 0), LevelByte(level)) == Word(d, level, id)
  {
    WordParts(d, level, id);
  }

  // ---------------------------------------------------------------- linear ids

  function MortonOf(d: Dim, level: nat, id: nat): nat
    requires level <= MaxLevel(d)
  {
    Or(Len(d, id, level), LevelByte(level))
  }

  function LinearId(d: Dim, q: nat, level: nat): nat
    requires level <= MaxLevel(d)
  {
    Shr(And(q, MASK56), Below(d, level))
  }

  lemma MortonIsWord(d: Dim, level: nat, id: nat)
    requires InLevel(d, level, id)
    ensures MortonOf(d, level, id) == Word(d, level, id)
  {
    WordBits(d, level, id);
    TwoAscends(56, 64);
    ShlIs(id, Below(d, level));
    WithLevel(d, level, id);
  }

  /** The id on a coarser level is the quotient, on a finer one that of the first descendant. */
  lemma LinearIdIs(d: Dim, level: nat, id: nat, k: nat)
    requires InLevel(d, level, id) && k <= MaxLevel(d)
    ensures k <= level ==> LinearId(d, Word(d, level, id), k) == Shr(id, Between(d, k, level))
    ensures k >= level ==> LinearId(d, Word(d, level, id), k) == Join(Between(d, level, k), id, 0)
  {
    hide Two, And, Join, Shr, MaxLevel, Between, Below;
    WordParts(d, level, id);
    if k <= level {
      Widths(d, k, level);
      Coarser(Below(d, level), Between(d, k, level), id);
    }
    if k >= level {
      Widths(d, level, k);
      Finer(Below(d, k), Between(d, level, k), id);
    }
  }

  lemma Coarser(s: nat, n: nat, id: nat)
    ensures Shr(Join(s, id, 0), s + n) == Shr(id, n)
    ensures Join(s, id, 0) == Join(s + n, Shr(id, n), Join(s, Low(id, n), 0))
  {
    hide Join, Shr, Low;
    LowBound(id, n);
    JoinJoin(s, n, Shr(id, n), Low(id, n), 0);
    JoinBound(s, n, Low(id, n), 0);
    PartsOfJoin(s + n, Shr(id, n), Join(s, Low(id, n), 0));
  }

  lemma Finer(t: nat, n: nat, id: nat)
    ensures Shr(Join(t + n, id, 0), t) == Join(n, id, 0)
    ensures Join(t + n, id, 0) == Join(t, Join(n, id, 0), 0)
  {
    hide Join, Shr;
    JoinZero(t);
    JoinJoin(t, n, id, 0, 0);
    PartsOfJoin(t, Join(n, id, 0), 0);
  }

  /** Morton index and linear id are inverse to each other on every level. */
  lemma MortonRoundTrip(d: Dim, level: nat, id: nat)
    requires InLevel(d, level, id)
    ensures LinearId(d, MortonOf(d, level, id), level) == id && LevelOf(MortonOf(d, level, id)) == level
    ensures MortonOf(d, level, LinearId(d, Word(d, level, id), level)) == Word(d, level, id)
  {
    hide Two, And, Join, Shr, Word, MortonOf, LinearId, LevelOf;
    MortonIsWord(d, level, id);
    LinearIdIs(d, level, id, level);
    WordParts(d, level, id);
    ShrNothing(d, level, id);
  }

  lemma ShrNothing(d: Dim, level: nat, x: nat)
    ensures Shr(x, Between(d, level, level)) == x
  {
    assert Between(d, level, level) == 0;
  }
}
