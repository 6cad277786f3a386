/** The quadrant operations on packed words, and what they do to level and linear id. */
module MortonOperations {
  import opened Bits
  import opened MortonWords

  // ---------------------------------------------------------------- word arithmetic

  /** Addition and subtraction wrap around in words of 64 bits. */
  function Plus(x: nat, y: nat): nat {
    (x + y) % Two(64)
  }

  function Minus(x: nat, y: nat): nat {
    (x - y) % Two(64)
  }

  function Complement(x: nat): nat
    requires x < Two(64)
  {
    Not(64, x)
  }

  lemma PlusIs(x: nat, y: nat)
    requires x + y < Two(64)
    ensures Plus(x, y) == x + y
  {
    hide Two;
    Small(x + y, Two(64));
  }

  lemma MinusIs(x: nat, y: nat)
    requires y <= x < Two(64)
    ensures Minus(x, y) == x - y
  {
    hide Two;
    Small(x - y, Two(64));
  }

  /** One level more or less in the highest byte. */
  lemma LevelStep(level: nat, a: nat)
    requires level + 1 < Two(8) && a < Two(56)
    ensures Plus(Join(56, level, a), Two(56)) == Join(56, level + 1, a)
    ensures Minus(Join(56, level + 1, a), Two(56)) == Join(56, level, a)
  {
    hide Two, Join, Plus, Minus;
    TwoOf56();
    JoinIs(56, level, a);
    JoinIs(56, level + 1, a);
    JoinBound(56, 8, level + 1, a);
    PlusIs(Join(56, level, a), Two(56));
    MinusIs(Join(56, level + 1, a), Two(56));
  }

  lemma OrBelow(level: nat, a: nat, b: nat)
    requires a < Two(56) && b < Two(56)
    ensures Or(Join(56, level, a), b) == Join(56, level, Or(a, b))
  {
    hide Two, Join, Or;
    JoinLow(56, b);
    OrSplit(56, level, a, 0, b);
    OrZero(level);
  }

  lemma {:induction false} NotSplit(s: nat, w: nat, a: nat, b: nat)
    requires a < Two(w) && b < Two(s)
    ensures Join(s, a, b) < Two(s + w) && Not(s + w, Join(s, a, b)) == Join(s, Not(w, a), Not(s, b))
  {
    JoinBound(s, w, a, b);
    if s > 0 {
      NotBits(s, b);
      NotSplit(s - 1, w, a, b / 2);
      NotBits(s + w, Join(s, a, b));
      assert Not(s + w, Join(s, a, b)) / 2 == Join(s - 1, Not(w, a), Not(s, b) / 2);
    }
  }

  lemma AndBelow(level: nat, a: nat, x: nat)
    requires level < Two(8) && a < Two(56) && x < Two(56)
    ensures x < Two(64) && And(Join(56, level, a), Complement(x)) == Join(56, level, And(a, Not(56, x)))
  {
    hide Two, Join, And;
    JoinLow(56, x);
    NotSplit(56, 8, 0, x);
    hide Not;
    NotSmall(56, x);
    AndSplit(56, level, a, Not(8, 0), Not(56, x));
    NotZero(8);
    AndOnes(8, level);
  }

  lemma NotSmall(w: nat, x: nat)
    requires x < Two(w)
    ensures Not(w, x) < Two(w)
  {
  }

  lemma NotZero(w: nat)
    ensures Not(w, 0) == Two(w) - 1
  {
  }

  // ---------------------------------------------------------------- children and siblings

  /** The mask 0x03 or 0x07 of a child number. */
  function ChildMask(d: Dim): nat {
    if d == 2 then 3 else 7
  }

  lemma ChildMaskIs(d: Dim)
    ensures ChildMask(d) == Two(d) - 1 && Two(d) <= 8 < Two(8)
  {
  }

  /** The id of child i of quadrant p. */
  function Kid(d: Dim, p: nat, i: nat): nat {
    Join(d, p, i)
  }

  lemma KidIs(d: Dim, p: nat, i: nat)
    requires i < Two(d)
    ensures Kid(d, p, i) == Two(d) * p + i
  {
    hide Two, Join;
    JoinIs(d, p, i);
  }

  lemma KidFits(d: Dim, level: nat, p: nat, i: nat)
    requires 0 < level && InLevel(d, level - 1, p) && level <= MaxLevel(d)
    ensures InLevel(d, level, Kid(d, p, i))
  {
    hide Two, Join;
    assert d + Width(d, level - 1) == Width(d, level);
    JoinBound(d, Width(d, level - 1), p, i);
  }

  lemma FirstKids(d: Dim, i: nat)
    requires i < Two(d)
    ensures Kid(d, 0, i) == i
  {
    JoinLow(d, i);
  }

  lemma ZeroInLevel(d: Dim, level: nat, p: nat)
    requires 0 < level && InLevel(d, level - 1, p)
    ensures InLevel(d, level - 1, 0)
  {
  }

  /** Clearing the child digits below a level. */
  lemma ClearChild(d: Dim, level: nat, p: nat, i: nat)
    requires 0 < level && InLevel(d, level - 1, p) && level <= MaxLevel(d) && i < Two(d)
    ensures And(Word(d, level, Kid(d, p, i)), Complement(Len(d, ChildMask(d), level))) == Word(d, level, Kid(d, p, 0))
  {
    hide Two, Join, And, Not, Len, Complement, ChildMask, Kid, Below, MaxLevel, Width, InLevel;
    var t := Below(d, level);
    ChildMaskIs(d);
    KidFits(d, level, p, i);
    ZeroInLevel(d, level, p);
    KidFits(d, level, 0, ChildMask(d));
    FirstKids(d, ChildMask(d));
    WordBits(d, level, Kid(d, p, i));
    WordBits(d, level, ChildMask(d));
    LenIs(d, ChildMask(d), level);
    AndBelow(level, Join(t, Kid(d, p, i), 0), Join(t, ChildMask(d), 0));
    ClearDigit(d, level, p, i);
  }

  lemma ClearDigit(d: Dim, level: nat, p: nat, i: nat)
    requires 0 < level && InLevel(d, level - 1, p) && level <= MaxLevel(d) && i < Two(d)
    ensures var t := Below(d, level);
            && Join(t, ChildMask(d), 0) < Two(56)
            && And(Join(t, Kid(d, p, i), 0), Not(56, Join(t, ChildMask(d), 0))) == Join(t, Kid(d, p, 0), 0)
  {
    Fits(d, level);
    TwoAscends(d, 56 - Below(d, level));
    TwoAscends(Width(d, level - 1), 56 - Below(d, level) - d);
    ClearDigitBits(56, Below(d, level), d, p, i);
  }

  lemma ClearDigitBits(w: nat, t: nat, d: Dim, p: nat, i: nat)
    requires t + d <= w && p < Two(w - t - d) && i < Two(d)
    ensures Join(t, ChildMask(d), 0) < Two(w)
    ensures And(Join(t, Kid(d, p, i), 0), Not(w, Join(t, ChildMask(d), 0))) == Join(t, Kid(d, p, 0), 0)
  {
    var m := ChildMask(d);
    ChildMaskIs(d);
    hide Two, Join, And, Not, ChildMask;
    TwoAscends(d, w - t);
    NotSplit(t, w - t, m, 0);
    NotSmall(t, 0);
    AndSplit(t, Kid(d, p, i), 0, Not(w - t, m), Not(t, 0));
    AndNotLow(w - t, d, p, i);
    AndZero(Not(t, 0));
  }

  lemma Fits(d: Dim, level: nat)
    requires 0 < level <= MaxLevel(d)
    ensures Below(d, level) + Width(d, level) <= 56 && Width(d, level - 1) + d == Width(d, level)
  {
  }

  /** Setting child digits that are clear, whatever the level byte on top. */
  lemma SetDigit(d: Dim, level: nat, top: nat, p: nat, i: nat)
    requires 0 < level && InLevel(d, level - 1, p) && level <= MaxLevel(d) && i < Two(d)
    ensures var t := Below(d, level);
            Or(Join(56, top, Join(t, Kid(d, p, 0), 0)), Len(d, i, level)) == Join(56, top, Join(t, Kid(d, p, i), 0))
  {
    var t := Below(d, level);
    hide Two, Join, Or, Len;
    ChildMaskIs(d);
    ZeroInLevel(d, level, p);
    hide Below, MaxLevel, Width, InLevel;
    KidFits(d, level, p, 0);
    KidFits(d, level, 0, i);
    FirstKids(d, i);
    LenIs(d, i, level);
    WordBits(d, level, Kid(d, p, 0));
    WordBits(d, level, i);
    OrBelow(top, Join(t, Kid(d, p, 0), 0), Join(t, i, 0));
    OrDigit(t, d, p, i);
  }

  lemma OrDigit(t: nat, d: Dim, p: nat, i: nat)
    requires i < Two(d)
    ensures Or(Join(t, Kid(d, p, 0), 0), Join(t, i, 0)) == Join(t, Kid(d, p, i), 0)
  {
    hide Two, Join, Or;
    OrSplit(t, Kid(d, p, 0), 0, i, 0);
    OrZero(0);
    OrParts(d, p, i);
  }

  function Child(d: Dim, q: nat, i: nat): nat
    requires LevelOf(q) < MaxLevel(d)
  {
    Plus(Or(q, Len(d, i, LevelOf(q) + 1)), Two(56))
  }

  function Parent(d: Dim, q: nat): nat
    requires LevelOf(q) <= MaxLevel(d)
  {
    Minus(And(q, Complement(Len(d, ChildMask(d), LevelOf(q)))), Two(56))
  }

  function Sibling(d: Dim, q: nat, i: nat): nat
    requires LevelOf(q) <= MaxLevel(d)
  {
    Or(And(q, Complement(Len(d, ChildMask(d), LevelOf(q)))), Len(d, i, LevelOf(q)))
  }

  lemma LevelIs(d: Dim, level: nat, id: nat)
    requires InLevel(d, level, id)
    ensures LevelOf(Word(d, level, id)) == level
  {
    hide Two, Join, And, Or, LevelByte, LevelOf;
    WordParts(d, level, id);
  }

  /** The first child has the coordinates of its parent. */
  lemma KidCoordinates(d: Dim, level: nat, p: nat, i: nat)
    requires 0 < level && InLevel(d, level - 1, p) && level <= MaxLevel(d)
    ensures Word(d, level - 1, p) == Join(56, level - 1, Join(Below(d, level), Kid(d, p, 0), 0))
    ensures Join(Below(d, level), Kid(d, p, i), 0) < Two(56) && level < Two(8)
  {
    hide Two, Join;
    Finer(Below(d, level), d, p);
    KidFits(d, level, p, i);
    WordBits(d, level, Kid(d, p, i));
    LevelFits(d, level);
  }

  lemma FirstKid(d: Dim, level: nat, p: nat)
    requires 0 < level && InLevel(d, level - 1, p) && level <= MaxLevel(d)
    ensures Plus(Word(d, level - 1, p), Two(56)) == Word(d, level, Kid(d, p, 0))
    ensures Minus(Word(d, level, Kid(d, p, 0)), Two(56)) == Word(d, level - 1, p)
  {
    hide Two, Join, Plus, Minus, Below;
    KidCoordinates(d, level, p, 0);
    LevelStep(level - 1, Join(Below(d, level), Kid(d, p, 0), 0));
  }

  /** Child i of quadrant id is quadrant 2^d id + i of the next level. */
  lemma ChildIs(d: Dim, level: nat, id: nat, i: nat)
    requires InLevel(d, level, id) && level < MaxLevel(d) && i < Two(d)
    ensures LevelOf(Word(d, level, id)) == level && InLevel(d, level + 1, Kid(d, id, i))
    ensures Child(d, Word(d, level, id), i) == Word(d, level + 1, Kid(d, id, i))
  {
    hide Two, Join, Or, Len, LevelOf, Plus, Word, Kid;
    KidFits(d, level + 1, id, i);
    LevelIs(d, level, id);
    ChildBits(d, level, id, i);
  }

  lemma ChildBits(d: Dim, level: nat, id: nat, i: nat)
    requires InLevel(d, level, id) && level < MaxLevel(d) && i < Two(d)
    ensures Plus(Or(Word(d, level, id), Len(d, i, level + 1)), Two(56)) == Word(d, level + 1, Kid(d, id, i))
  {
    hide Two, Join, Or, Len, Plus, Below, InLevel, MaxLevel, Kid;
    KidCoordinates(d, level + 1, id, i);
    SetDigit(d, level + 1, level, id, i);
    LevelStep(level, Join(Below(d, level + 1), Kid(d, id, i), 0));
  }

  /** The parent drops the lowest digit of the id, a sibling replaces it. */
  lemma ParentIs(d: Dim, level: nat, p: nat, i: nat)
    requires 0 < level && InLevel(d, level - 1, p) && level <= MaxLevel(d) && i < Two(d)
    ensures LevelOf(Word(d, level, Kid(d, p, i))) == level
    ensures Parent(d, Word(d, level, Kid(d, p, i))) == Word(d, level - 1, p)
  {
    hide Two, Kid, Word, Len, LevelOf, And, Minus, Complement;
    KidFits(d, level, p, i);
    LevelIs(d, level, Kid(d, p, i));
    ClearChild(d, level, p, i);
    FirstKid(d, level, p);
  }

  lemma SiblingIs(d: Dim, level: nat, p: nat, i: nat, j: nat)
    requires 0 < level && InLevel(d, level - 1, p) && level <= MaxLevel(d) && i < Two(d) && j < Two(d)
    ensures LevelOf(Word(d, level, Kid(d, p, i))) == level
    ensures Sibling(d, Word(d, level, Kid(d, p, i)), j) == Word(d, level, Kid(d, p, j))
  {
    hide Two, Kid, Len, LevelOf, And, Or, Join, Complement;
    KidFits(d, level, p, i);
    LevelIs(d, level, Kid(d, p, i));
    ClearChild(d, level, p, i);
    SetDigit(d, level, level, p, j);
  }

  /** The parent of a child is the quadrant, and the siblings of a child are the other children. */
  lemma ParentUndoesChild(d: Dim, level: nat, id: nat, i: nat)
    requires InLevel(d, level, id) && level < MaxLevel(d) && i < Two(d)
    ensures LevelOf(Word(d, level, id)) == level
    ensures var q := Word(d, level, id);
            LevelOf(Child(d, q, i)) == level + 1 && Parent(d, Child(d, q, i)) == q
    ensures forall j: nat :: j < Two(d) ==>
              Sibling(d, Child(d, Word(d, level, id), i), j) == Child(d, Word(d, level, id), j)
  {
    hide Two, Word, Len, LevelOf, Child, Parent, Sibling, Kid;
    ChildIs(d, level, id, i);
    ParentIs(d, level + 1, id, i);
    forall j: nat | j < Two(d)
      ensures Sibling(d, Child(d, Word(d, level, id), i), j) == Child(d, Word(d, level, id), j)
    {
      ChildIs(d, level, id, j);
      SiblingIs(d, level + 1, id, i, j);
    }
  }

  // ---------------------------------------------------------------- ancestors and descendants

  function AncestorId(d: Dim, q: nat, level: nat): nat
    requires level <= MaxLevel(d)
  {
    if level == 0 then 0 else Shr(And(q, Len(d, ChildMask(d), level)), Below(d, level))
  }

  function Ancestor(d: Dim, q: nat, level: nat): nat
    requires level <= MaxLevel(d)
  {
    Or(And(And(q, Complement(Minus(Len(d, 1, level), 1))), MASK56), LevelByte(level))
  }

  function FirstDescendant(q: nat, level: nat): nat {
    Or(And(q, MASK56), LevelByte(level))
  }

  function LastDescendant(d: Dim, q: nat, level: nat): nat
    requires level <= MaxLevel(d) && LevelOf(q) <= MaxLevel(d)
  {
    Or(And(Or(q, Minus(Len(d, 1, LevelOf(q)), Len(d, 1, level))), MASK56), LevelByte(level))
  }

  /** A word cut at coordinate bit t: the level moves up with the higher bits. */
  lemma CutWord(d: Dim, level: nat, id: nat, k: nat)
    requires InLevel(d, level, id) && k <= level
    ensures var t, n := Below(d, k), Between(d, k, level);
            && t <= 56 && Low(id, n) < Two(n)
            && Join(Below(d, level), Low(id, n), 0) < Two(t)
            && Join(56 - t, level, Shr(id, n)) < Two(64 - t)
            && Word(d, level, id) == Join(t, Join(56 - t, level, Shr(id, n)), Join(Below(d, level), Low(id, n), 0))
            && Join(t, Join(56 - t, level, Shr(id, n)), 0) == Join(56, level, Join(t, Shr(id, n), 0))
            && InLevel(d, k, Shr(id, n))
  {
    hide Two, Join, Shr, Low, Below, MaxLevel, Width, Between;
    var s, t, n := Below(d, level), Below(d, k), Between(d, k, level);
    LevelFits(d, level);
    Widths(d, k, level);
    Coarser(s, n, id);
    LowBound(id, n);
    JoinBound(s, n, Low(id, n), 0);
    ShrBound(Width(d, k), n, id);
    CutJoin(t, level, Shr(id, n), Join(s, Low(id, n), 0), Width(d, k));
  }

  lemma CutJoin(t: nat, level: nat, a: nat, b: nat, w: nat)
    requires a < Two(w) && t + w <= 56 && level < Two(8)
    ensures Join(56, level, Join(t, a, b)) == Join(t, Join(56 - t, level, a), b)
    ensures Join(56, level, Join(t, a, 0)) == Join(t, Join(56 - t, level, a), 0)
    ensures Join(56 - t, level, a) < Two(64 - t)
  {
    hide Two, Join;
    JoinJoin(t, 56 - t, level, a, b);
    JoinJoin(t, 56 - t, level, a, 0);
    JoinBound(56 - t, 8, level, a);
  }

  lemma {:induction false} ShrBound(w: nat, n: nat, id: nat)
    requires id < Two(w + n)
    ensures Shr(id, n) < Two(w)
  {
    if n > 0 {
      ShrBound(w, n - 1, id / 2);
    }
  }

  /** The ancestor on level k has the id without its last level - k digits. */
  lemma AncestorIs(d: Dim, level: nat, id: nat, k: nat)
    requires InLevel(d, level, id) && k <= level
    ensures InLevel(d, k, Shr(id, Between(d, k, level)))
    ensures Ancestor(d, Word(d, level, id), k) == Word(d, k, Shr(id, Between(d, k, level)))
  {
    hide Two, Join, Shr, Low, And, Or, LevelByte, Len, Complement, Minus, Below, Between, Width, MaxLevel;
    var t, a := Below(d, k), Shr(id, Between(d, k, level));
    CutWord(d, level, id, k);
    UnitIs(d, k);
    MinusIs(Len(d, 1, k), 1);
    ClearLow(t, Join(56 - t, level, a), Join(Below(d, level), Low(id, Between(d, k, level)), 0));
    WordBits(d, k, a);
    KeepCoordinates(level, Join(t, a, 0));
    WithLevel(d, k, a);
  }

  lemma KeepCoordinates(level: nat, x: nat)
    requires x < Two(56)
    ensures And(Join(56, level, x), MASK56) == x
  {
    hide Two, Join, And;
    TwoOf56();
    AndLow(56, level, x);
  }

  lemma ClearLow(t: nat, a: nat, b: nat)
    requires t <= 56 && a < Two(64 - t) && b < Two(t)
    ensures Two(t) - 1 < Two(64) && And(Join(t, a, b), Complement(Two(t) - 1)) == Join(t, a, 0)
  {
    hide Two, Join, And, Not;
    AndNotLow(64, t, a, b);
  }

  lemma AncestorIdIs(d: Dim, level: nat, p: nat, i: nat)
    requires 0 < level && InLevel(d, level - 1, p) && level <= MaxLevel(d) && i < Two(d)
    ensures AncestorId(d, Word(d, level, Kid(d, p, i)), level) == i
  {
    hide Two, Join, And, Shr, Len, Kid;
    var t := Below(d, level);
    ChildMaskIs(d);
    KidFits(d, level, p, i);
    KidFits(d, level, 0, ChildMask(d));
    FirstKids(d, ChildMask(d));
    LenIs(d, ChildMask(d), level);
    WordBits(d, level, Kid(d, p, i));
    WordBits(d, level, ChildMask(d));
    hide Below, MaxLevel, InLevel, ChildMask;
    KeepDigit(t, level, d, p, i);
    PartsOfJoin(t, i, 0);
  }

  lemma KeepDigit(t: nat, level: nat, d: Dim, p: nat, i: nat)
    requires Join(t, Kid(d, p, i), 0) < Two(56) && Join(t, ChildMask(d), 0) < Two(56) && i < Two(d)
    ensures And(Join(56, level, Join(t, Kid(d, p, i), 0)), Join(t, ChildMask(d), 0)) == Join(t, i, 0)
  {
    ChildMaskIs(d);
    hide Two, Join, And, ChildMask;
    JoinLow(56, Join(t, ChildMask(d), 0));
    AndSplit(56, level, Join(t, Kid(d, p, i), 0), 0, Join(t, ChildMask(d), 0));
    AndZero(level);
    JoinLow(56, And(Join(t, Kid(d, p, i), 0), Join(t, ChildMask(d), 0)));
    AndSplit(t, Kid(d, p, i), 0, ChildMask(d), 0);
    AndZero(0);
    AndLow(d, p, i);
  }

  /** The descendants on level k >= level have the ids id c^(k - level) to (id + 1) c^(k - level) - 1. */
  lemma FirstDescendantIs(d: Dim, level: nat, id: nat, k: nat)
    requires InLevel(d, level, id) && level <= k <= MaxLevel(d)
    ensures InLevel(d, k, Join(Between(d, level, k), id, 0))
    ensures FirstDescendant(Word(d, level, id), k) == Word(d, k, Join(Between(d, level, k), id, 0))
  {
    hide Two, Join, And, Or, LevelByte, Below, Between, Width, MaxLevel, InLevel;
    DescendantFits(d, level, id, k, 0);
    WordParts(d, level, id);
    WithLevel(d, k, Join(Between(d, level, k), id, 0));
  }

  lemma DescendantFits(d: Dim, level: nat, id: nat, k: nat, b: nat)
    requires InLevel(d, level, id) && level <= k <= MaxLevel(d)
    ensures InLevel(d, k, Join(Between(d, level, k), id, b))
    ensures Join(Below(d, level), id, 0) == Join(Below(d, k), Join(Between(d, level, k), id, 0), 0)
  {
    hide Two, Join, Below, Between, Width, MaxLevel;
    Widths(d, level, k);
    JoinBound(Between(d, level, k), Width(d, level), id, b);
    Finer(Below(d, k), Between(d, level, k), id);
  }

  lemma LastDescendantIs(d: Dim, level: nat, id: nat, k: nat)
    requires InLevel(d, level, id) && level <= k <= MaxLevel(d)
    ensures LevelOf(Word(d, level, id)) == level
    ensures InLevel(d, k, Join(Between(d, level, k), id, Two(Between(d, level, k)) - 1))
    ensures LastDescendant(d, Word(d, level, id), k) ==
            Word(d, k, Join(Between(d, level, k), id, Two(Between(d, level, k)) - 1))
  {
    hide Two, Join, And, Or, LevelByte, Len, LevelOf, Below, Between, Width, MaxLevel, InLevel, Minus;
    var n, t := Between(d, level, k), Below(d, k);
    var last := Join(n, id, Two(n) - 1);
    Widths(d, level, k);
    DescendantFits(d, level, id, k, 0);
    DescendantFits(d, level, id, k, Two(n) - 1);
    LastFits(d, level, k);
    LevelIs(d, level, id);
    WordBits(d, k, Join(n, id, 0));
    WordBits(d, k, last);
    UnitIs(d, level);
    UnitIs(d, k);
    LastBits(t, n);
    MinusIs(Two(t + n), Two(t));
    OrBelow(level, Join(t, Join(n, id, 0), 0), Join(t, Two(n) - 1, 0));
    OrLast(t, n, id);
    KeepCoordinates(level, Join(t, last, 0));
    WithLevel(d, k, last);
  }

  lemma LastFits(d: Dim, level: nat, k: nat)
    requires level <= k <= MaxLevel(d)
    ensures Join(Below(d, k), Two(Between(d, level, k)) - 1, 0) < Two(56)
  {
    hide Two, Join, Below, Between, Width, MaxLevel;
    Widths(d, level, k);
    JoinBound(Below(d, k), Between(d, level, k), Two(Between(d, level, k)) - 1, 0);
    TwoAscends(Below(d, k) + Between(d, level, k), 56);
  }

  lemma LastBits(t: nat, n: nat)
    ensures Two(t) <= Two(t + n) && Two(t + n) - Two(t) == Join(t, Two(n) - 1, 0)
  {
    hide Two, Join;
    TwoAscends(t, t + n);
    JoinIs(t, Two(n) - 1, 0);
    JoinIs(t, Two(n) - 1, Two(t) - 1);
    OnesJoin(t, n);
  }

  lemma OrLast(t: nat, n: nat, id: nat)
    ensures Or(Join(t, Join(n, id, 0), 0), Join(t, Two(n) - 1, 0)) == Join(t, Join(n, id, Two(n) - 1), 0)
  {
    hide Two, Join, Or;
    OrSplit(t, Join(n, id, 0), 0, Two(n) - 1, 0);
    OrZero(0);
    OrParts(n, id, Two(n) - 1);
  }

  // ---------------------------------------------------------------- successor and predecessor

  function Successor(d: Dim, q: nat): nat
    requires LevelOf(q) <= MaxLevel(d)
  {
    Plus(q, Len(d, 1, LevelOf(q)))
  }

  function Predecessor(d: Dim, q: nat): nat
    requires LevelOf(q) <= MaxLevel(d)
  {
    Minus(q, Len(d, 1, LevelOf(q)))
  }

  /** The length of a quadrant is one step of the id. */
  lemma OneStep(d: Dim, level: nat, id: nat)
    requires InLevel(d, level, id)
    ensures Word(d, level, id) + Two(Below(d, level)) == Join(56, level, 0) + Join(Below(d, level), id + 1, 0)
    ensures id + 1 < Two(Width(d, level)) ==> Word(d, level, id) + Two(Below(d, level)) == Word(d, level, id + 1)
  {
    hide Two, Join;
    var s := Below(d, level);
    WordBits(d, level, id);
    JoinIs(56, level, 0);
    JoinIs(56, level, Join(s, id, 0));
    JoinIs(s, id, 0);
    JoinIs(s, id + 1, 0);
    NextMultiple(id, Two(s));
    if id + 1 < Two(Width(d, level)) {
      WordBits(d, level, id + 1);
      JoinIs(56, level, Join(s, id + 1, 0));
    }
  }

  lemma NextMultiple(a: int, t: int)
    ensures (a + 1) * t == a * t + t
  {
  }

  lemma SuccessorIs(d: Dim, level: nat, id: nat)
    requires InLevel(d, level, id) && id + 1 < Two(Width(d, level))
    ensures LevelOf(Word(d, level, id)) == level && Successor(d, Word(d, level, id)) == Word(d, level, id + 1)
    ensures LevelOf(Word(d, level, id + 1)) == level && Predecessor(d, Word(d, level, id + 1)) == Word(d, level, id)
  {
    hide Two, Join, Len, LevelOf, Plus, Minus, Below;
    LevelIs(d, level, id);
    LevelIs(d, level, id + 1);
    UnitIs(d, level);
    OneStep(d, level, id);
    WordBits(d, level, id + 1);
    PlusIs(Word(d, level, id), Two(Below(d, level)));
    MinusIs(Word(d, level, id + 1), Two(Below(d, level)));
  }

  /** What the successor's debug check asks of its argument. */
  predicate SuccessorChecked(d: Dim, q: nat) {
    And(q, MASK56) < Two(Width(d, MaxLevel(d))) - 1
  }

  /** The check lets every quadrant pass above the finest level, the last one too; the result is
      a quadrant of the same level exactly when the argument is not the last one. */
  lemma SuccessorIff(d: Dim, level: nat, id: nat)
    requires InLevel(d, level, id)
    ensures LevelOf(Word(d, level, id)) == level
    ensures level < MaxLevel(d) ==> SuccessorChecked(d, Word(d, level, id))
    ensures (exists m: nat :: InLevel(d, level, m) && Successor(d, Word(d, level, id)) == Word(d, level, m))
        <==> id + 1 < Two(Width(d, level))
    ensures d == 2 && level < MaxLevel(d) && id + 1 == Two(Width(d, level)) ==>
              Successor(d, Word(d, level, id)) == Word(d, level + 1, 0)
  {
    hide Two, LevelOf, Word, Successor, SuccessorChecked, Width, MaxLevel;
    if level < MaxLevel(d) {
      CheckPasses(d, level, id);
    }
    LevelIs(d, level, id);
    if id + 1 < Two(Width(d, level)) {
      SuccessorIs(d, level, id);
      assert InLevel(d, level, id + 1);
    } else {
      SuccessorOfLast(d, level, id);
    }
  }

  lemma CheckPasses(d: Dim, level: nat, id: nat)
    requires InLevel(d, level, id) && level < MaxLevel(d)
    ensures SuccessorChecked(d, Word(d, level, id))
  {
    assert Below(d, level) >= 1;
    hide Two, And, Or, Join, LevelByte, LevelOf, Width, Below, MaxLevel;
    Widths(d, level, level);
    WordParts(d, level, id);
    EvenBelow(Below(d, level), Width(d, level), id);
  }

  lemma EvenBelow(s: nat, w: nat, id: nat)
    requires s >= 1 && id < Two(w)
    ensures Join(s, id, 0) < Two(s + w) - 1
  {
    JoinBits(s, id, 0);
    JoinBound(s, w, id, 0);
    assert Two(s + w) == 2 * Two(s + w - 1);
  }

  lemma SuccessorOfLast(d: Dim, level: nat, id: nat)
    requires level <= MaxLevel(d) && id + 1 == Two(Width(d, level))
    ensures LevelOf(Word(d, level, id)) == level
    ensures forall m: nat :: InLevel(d, level, m) ==> Successor(d, Word(d, level, id)) != Word(d, level, m)
    ensures d == 2 && level < MaxLevel(d) ==> Successor(d, Word(d, level, id)) == Word(d, level + 1, 0)
  {
    hide Two, Join, Plus, Len, LevelOf, Below, Width;
    var all := Width(d, MaxLevel(d));
    Widths(d, level, level);
    LevelFits(d, level);
    FullWidth(d);
    LevelIs(d, level, id);
    UnitIs(d, level);
    OneStep(d, level, id);
    JoinPower(Below(d, level), Width(d, level));
    TwoAscends(all, 56);
    JoinIs(56, level, 0);
    JoinIs(56, level + 1, 0);
    NextMultiple(level, Two(56));
    JoinBound(56, 8, level + 1, 0);
    TwoOf56();
    PlusIs(Word(d, level, id), Two(Below(d, level)));
    forall m: nat | InLevel(d, level, m)
      ensures Successor(d, Word(d, level, id)) != Word(d, level, m)
    {
      WordBits(d, level, m);
      JoinIs(56, level, Join(Below(d, level), m, 0));
    }
    if d == 2 && level < MaxLevel(d) {
      JoinZero(Below(d, level + 1));
    }
  }

  lemma JoinPower(s: nat, w: nat)
    ensures Join(s, Two(w), 0) == Two(s + w)
  {
    hide Two, Join;
    JoinIs(s, Two(w), 0);
    TwoAdds(w, s);
  }

  // ---------------------------------------------------------------- validity

  predicate IsValid(d: Dim, q: nat) {
    LevelOf(q) <= MaxLevel(d) && And(q, Minus(Len(d, 1, LevelOf(q)), 1)) == 0
  }

  lemma WordIsValid(d: Dim, level: nat, id: nat)
    requires InLevel(d, level, id)
    ensures IsValid(d, Word(d, level, id))
  {
    hide Two, Join, And, Shr, Low, Len, LevelOf, Minus, Below, Width;
    Widths(d, level, level);
    LevelIs(d, level, id);
    UnitIs(d, level);
    MinusIs(Len(d, 1, level), 1);
    LowZero(level, Below(d, level), id);
  }

  lemma LowZero(level: nat, s: nat, id: nat)
    requires s <= 56
    ensures And(Join(56, level, Join(s, id, 0)), Two(s) - 1) == 0
  {
    hide Two, Join, And;
    JoinJoin(s, 56 - s, level, id, 0);
    AndLow(s, Join(56 - s, level, id), 0);
  }

  /** The code's validity check accepts exactly the quadrants, except that in 3D it does not
      look at the two unused bits between level and coordinates. */
  lemma ValidIsWord(d: Dim, q: nat)
    requires q < Two(64) && IsValid(d, q) && (d == 3 ==> And(q, MASK56) < Two(54))
    ensures InLevel(d, LevelOf(q), LinearId(d, q, LevelOf(q))) && q == Word(d, LevelOf(q), LinearId(d, q, LevelOf(q)))
  {
    hide Two, Join, And, Shr, Low, Len, Minus, Below, Width, MaxLevel;
    var level := LevelOf(q);
    var s := Below(d, level);
    Widths(d, level, level);
    FullWidth(d);
    UnitIs(d, level);
    MinusIs(Len(d, 1, level), 1);
    LowBound(q, 56);
    KeepCoordinates(level, Low(q, 56));
    ShrBound(Width(d, level), s, Low(q, 56));
    NoLowBits(q, s);
  }

  /** A word whose lowest s bits are clear. */
  lemma NoLowBits(q: nat, s: nat)
    requires s <= 56 && And(q, Two(s) - 1) == 0
    ensures q == Join(56, Shr(q, 56), Join(s, Shr(Low(q, 56), s), 0))
  {
    hide Two, Join, And, Shr, Low;
    var x := Low(q, 56);
    LowBound(q, 56);
    LowBound(x, s);
    JoinJoin(s, 56 - s, Shr(q, 56), Shr(x, s), Low(x, s));
    AndLow(s, Join(56 - s, Shr(q, 56), Shr(x, s)), Low(x, s));
  }
}
