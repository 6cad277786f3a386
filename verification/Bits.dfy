/** Unsigned machine words as numbers, bit by bit: and, or, complement, and the dilated
    addition that changes only the bits under a mask. */
module Bits {

  function Two(n: nat): (r: nat)
    ensures r >= 1
  {
    if n == 0 then 1 else 2 * Two(n - 1)
  }

  function And(x: nat, y: nat): nat {
    if x == 0 || y == 0 then 0 else 2 * And(x / 2, y / 2) + if x % 2 == 1 && y % 2 == 1 then 1 else 0
  }

  function Or(x: nat, y: nat): nat {
    if x == 0 && y == 0 then 0 else 2 * Or(x / 2, y / 2) + if x % 2 == 1 || y % 2 == 1 then 1 else 0
  }

  /** Complement in a word of w bits. */
  function Not(w: nat, x: nat): nat
    requires x < Two(w)
  {
    Two(w) - 1 - x
  }

  lemma AndBits(x: nat, y: nat)
    ensures And(x, y) / 2 == And(x / 2, y / 2) && And(x, y) % 2 == if x % 2 == 1 && y % 2 == 1 then 1 else 0
  {
    if x == 0 || y == 0 {
      assert And(x / 2, y / 2) == 0;
    }
  }

  lemma OrBits(x: nat, y: nat)
    ensures Or(x, y) / 2 == Or(x / 2, y / 2) && Or(x, y) % 2 == if x % 2 == 1 || y % 2 == 1 then 1 else 0
  {
  }

  lemma NotBits(w: nat, x: nat)
    requires 0 < w && x < Two(w)
    ensures x / 2 < Two(w - 1) && Not(w, x) / 2 == Not(w - 1, x / 2) && Not(w, x) % 2 == 1 - x % 2
  {
  }

  lemma {:induction false} AndZero(x: nat)
    ensures And(x, 0) == 0 && And(0, x) == 0
  {
  }

  lemma {:induction false} OrZero(x: nat)
    ensures Or(x, 0) == x && Or(0, x) == x
  {
    if x > 0 {
      OrZero(x / 2);
    }
  }

  lemma {:induction false} AndOnes(w: nat, x: nat)
    requires x < Two(w)
    ensures And(x, Two(w) - 1) == x
  {
    if w > 0 {
      AndOnes(w - 1, x / 2);
      AndBits(x, Two(w) - 1);
    }
  }

  lemma {:induction false} TwoAdds(a: nat, b: nat)
    ensures Two(a + b) == Two(a) * Two(b)
  {
    if a > 0 {
      TwoAdds(a - 1, b);
      Doubled(Two(a - 1), Two(b));
    }
  }

  lemma Doubled(x: int, y: int)
    ensures 2 * (x * y) == (2 * x) * y
  {
  }

  /** The word with a above bit s and b below. */
  function Join(s: nat, a: nat, b: nat): nat {
    if s == 0 then a else 2 * Join(s - 1, a, b / 2) + b % 2
  }

  lemma {:induction false} JoinIs(s: nat, a: nat, b: nat)
    requires b < Two(s)
    ensures Join(s, a, b) == a * Two(s) + b
  {
    if s > 0 {
      JoinIs(s - 1, a, b / 2);
      Doubled(Two(s - 1), a);
    }
  }

  lemma JoinBits(s: nat, a: nat, b: nat)
    requires 0 < s
    ensures Join(s, a, b) / 2 == Join(s - 1, a, b / 2) && Join(s, a, b) % 2 == b % 2
  {
  }

  /** Operations on the parts of a word above and below bit s. */
  lemma {:induction false} AndSplit(s: nat, x1: nat, x0: nat, y1: nat, y0: nat)
    requires x0 < Two(s) && y0 < Two(s)
    ensures And(Join(s, x1, x0), Join(s, y1, y0)) == Join(s, And(x1, y1), And(x0, y0)) && And(x0, y0) < Two(s)
  {
    if s > 0 {
      AndSplit(s - 1, x1, x0 / 2, y1, y0 / 2);
      AndBits(Join(s, x1, x0), Join(s, y1, y0));
      AndBits(x0, y0);
      JoinBits(s, x1, x0);
      JoinBits(s, y1, y0);
      JoinBits(s, And(x1, y1), And(x0, y0));
      hide And, Join;
      SameBits(And(Join(s, x1, x0), Join(s, y1, y0)), Join(s, And(x1, y1), And(x0, y0)));
    }
  }

  lemma {:induction false} OrSplit(s: nat, x1: nat, x0: nat, y1: nat, y0: nat)
    requires x0 < Two(s) && y0 < Two(s)
    ensures Or(Join(s, x1, x0), Join(s, y1, y0)) == Join(s, Or(x1, y1), Or(x0, y0)) && Or(x0, y0) < Two(s)
  {
    if s > 0 {
      OrSplit(s - 1, x1, x0 / 2, y1, y0 / 2);
      OrBits(Join(s, x1, x0), Join(s, y1, y0));
      OrBits(x0, y0);
      JoinBits(s, x1, x0);
      JoinBits(s, y1, y0);
      JoinBits(s, Or(x1, y1), Or(x0, y0));
      hide Or, Join;
      SameBits(Or(Join(s, x1, x0), Join(s, y1, y0)), Join(s, Or(x1, y1), Or(x0, y0)));
    }
  }

  // ---------------------------------------------------------------- dilated arithmetic

  /** The bits of q under the mask m, pushed together. */
  function Gather(w: nat, q: nat, m: nat): nat {
    if w == 0 then 0
    else if m % 2 == 0 then Gather(w - 1, q / 2, m / 2)
    else q % 2 + 2 * Gather(w - 1, q / 2, m / 2)
  }

  function Ones(w: nat, m: nat): nat {
    if w == 0 then 0 else m % 2 + Ones(w - 1, m / 2)
  }

  /** Adds one to the bits under the mask and keeps the others. */
  function Inc(w: nat, q: nat, m: nat): nat {
    if w == 0 then 0
    else if m % 2 == 0 then 2 * Inc(w - 1, q / 2, m / 2) + q % 2
    else if q % 2 == 0 then q + 1
    else 2 * Inc(w - 1, q / 2, m / 2)
  }

  function Dec(w: nat, q: nat, m: nat): nat {
    if w == 0 then 0
    else if m % 2 == 0 then 2 * Dec(w - 1, q / 2, m / 2) + q % 2
    else if q % 2 == 1 then q - 1
    else 2 * Dec(w - 1, q / 2, m / 2) + 1
  }

  lemma {:induction false} InDecBound(w: nat, q: nat, m: nat)
    requires q < Two(w)
    ensures Inc(w, q, m) < Two(w) && Dec(w, q, m) < Two(w)
  {
    if w > 0 {
      InDecBound(w - 1, q / 2, m / 2);
    }
  }

  /** The bits under the mask count up by one, modulo what they can hold. */
  lemma {:induction false} GatherInc(w: nat, q: nat, m: nat)
    requires q < Two(w)
    ensures Gather(w, q, m) < Two(Ones(w, m))
    ensures Gather(w, Inc(w, q, m), m) == if Gather(w, q, m) + 1 == Two(Ones(w, m)) then 0 else Gather(w, q, m) + 1
  {
    if w > 0 {
      GatherInc(w - 1, q / 2, m / 2);
      IncBits(w, q, m);
      hide Inc;
    }
  }

  lemma {:induction false} GatherDec(w: nat, q: nat, m: nat)
    requires q < Two(w)
    ensures Gather(w, q, m) < Two(Ones(w, m))
    ensures Gather(w, Dec(w, q, m), m) == if Gather(w, q, m) == 0 then Two(Ones(w, m)) - 1 else Gather(w, q, m) - 1
  {
    if w > 0 {
      GatherDec(w - 1, q / 2, m / 2);
      DecBits(w, q, m);
      hide Dec;
    }
  }

  /** The lowest bit and the rest of an incremented or decremented word. */
  lemma IncBits(w: nat, q: nat, m: nat)
    requires 0 < w
    ensures var r := Inc(w, q, m);
            && r % 2 == (if m % 2 == 0 then q % 2 else 1 - q % 2)
            && r / 2 == if m % 2 == 1 && q % 2 == 0 then q / 2 else Inc(w - 1, q / 2, m / 2)
  {
  }

  lemma DecBits(w: nat, q: nat, m: nat)
    requires 0 < w
    ensures var r := Dec(w, q, m);
            && r % 2 == (if m % 2 == 0 then q % 2 else 1 - q % 2)
            && r / 2 == if m % 2 == 1 && q % 2 == 1 then q / 2 else Dec(w - 1, q / 2, m / 2)
  {
  }

  lemma SameBits(x: nat, y: nat)
    ensures x / 2 == y / 2 && x % 2 == y % 2 ==> x == y
  {
  }

  lemma {:induction false} OtherCoordinatesStay(w: nat, q: nat, m: nat, n: nat)
    requires q < Two(w) && And(m, n) == 0
    ensures Gather(w, Inc(w, q, m), n) == Gather(w, q, n) && Gather(w, Dec(w, q, m), n) == Gather(w, q, n)
  {
    if w > 0 {
      AndBits(m, n);
      OtherCoordinatesStay(w - 1, q / 2, m / 2, n / 2);
      IncBits(w, q, m);
      DecBits(w, q, m);
      hide And, Inc, Dec;
    }
  }

  lemma {:induction false} DecUndoesInc(w: nat, q: nat, m: nat)
    requires q < Two(w)
    ensures Dec(w, Inc(w, q, m), m) == q
  {
    if w > 0 {
      DecUndoesInc(w - 1, q / 2, m / 2);
      IncBits(w, q, m);
      DecBits(w, Inc(w, q, m), m);
      hide Inc, Dec;
      SameBits(Dec(w, Inc(w, q, m), m), q);
    }
  }

  lemma {:induction false} IncUndoesDec(w: nat, q: nat, m: nat)
    requires q < Two(w)
    ensures Inc(w, Dec(w, q, m), m) == q
  {
    if w > 0 {
      IncUndoesDec(w - 1, q / 2, m / 2);
      DecBits(w, q, m);
      IncBits(w, Dec(w, q, m), m);
      hide Inc, Dec;
      SameBits(Inc(w, Dec(w, q, m), m), q);
    }
  }

  // ---------------------------------------------------------------- the word expressions

  /** x + 1 and x - 1 in words of w bits. */
  function Succ(w: nat, x: nat): nat
    requires x < Two(w)
  {
    if x + 1 == Two(w) then 0 else x + 1
  }

  function Pred(w: nat, x: nat): nat
    requires x < Two(w)
  {
    if x == 0 then Two(w) - 1 else x - 1
  }

  /** Adding one flips the low bit, and a one carries. */
  lemma SuccBits(w: nat, x: nat)
    requires 0 < w && x < Two(w)
    ensures x / 2 < Two(w - 1) && Succ(w, x) % 2 == 1 - x % 2
    ensures Succ(w, x) / 2 == if x % 2 == 0 then x / 2 else Succ(w - 1, x / 2)
  {
  }

  lemma PredBits(w: nat, x: nat)
    requires 0 < w && x < Two(w)
    ensures x / 2 < Two(w - 1) && Pred(w, x) % 2 == 1 - x % 2
    ensures Pred(w, x) / 2 == if x % 2 == 1 then x / 2 else Pred(w - 1, x / 2)
  {
  }

  lemma {:induction false} WordBound(w: nat, x: nat, y: nat)
    requires x < Two(w) && y < Two(w)
    ensures Or(x, y) < Two(w) && And(x, y) < Two(w)
  {
    OrSplit(w, 0, x, 0, y);
    AndSplit(w, 0, x, 0, y);
  }

  /** ((q | ~m) + 1) & m | q & ~m, in words of w bits. */
  function IncWord(w: nat, q: nat, m: nat): nat
    requires q < Two(w) && m < Two(w)
  {
    WordBound(w, q, Not(w, m));
    Or(And(Succ(w, Or(q, Not(w, m))), m), And(q, Not(w, m)))
  }

  /** ((q & m) - 1) & m | q & ~m */
  function DecWord(w: nat, q: nat, m: nat): nat
    requires q < Two(w) && m < Two(w)
  {
    WordBound(w, q, m);
    Or(And(Pred(w, And(q, m)), m), And(q, Not(w, m)))
  }

  /** The carry runs through the gaps of the mask: the expression adds one under the mask. */
  lemma {:induction false} IncWordIsInc(w: nat, q: nat, m: nat)
    requires q < Two(w) && m < Two(w)
    ensures IncWord(w, q, m) == Inc(w, q, m)
  {
    if w > 0 {
      var n := Not(w, m);
      IncWordIsInc(w - 1, q / 2, m / 2);
      KeepUnder(w - 1, q / 2, m / 2);
      NotBits(w, m);
      WordBound(w, q, n);
      WordBound(w - 1, q / 2, n / 2);
      var x := Or(q, n);
      var y := Succ(w, x);
      OrBits(q, n);
      SuccBits(w, x);
      AndBits(y, m);
      AndBits(q, n);
      OrBits(And(y, m), And(q, n));
      IncBits(w, q, m);
      hide And, Or, Succ, Inc, Two, Not;
      SameBits(Or(And(y, m), And(q, n)), Inc(w, q, m));
    }
  }

  lemma {:induction false} KeepUnder(w: nat, q: nat, m: nat)
    requires q < Two(w) && m < Two(w)
    ensures Or(And(Or(q, Not(w, m)), m), And(q, Not(w, m))) == q
  {
    if w > 0 {
      var n := Not(w, m);
      KeepUnder(w - 1, q / 2, m / 2);
      NotBits(w, m);
      OrBits(q, n);
      AndBits(Or(q, n), m);
      AndBits(q, n);
      OrBits(And(Or(q, n), m), And(q, n));
      hide And, Or, Two, Not;
      SameBits(Or(And(Or(q, n), m), And(q, n)), q);
    }
  }

  lemma {:induction false} DecWordIsDec(w: nat, q: nat, m: nat)
    requires q < Two(w) && m < Two(w)
    ensures DecWord(w, q, m) == Dec(w, q, m)
  {
    if w > 0 {
      var n := Not(w, m);
      DecWordIsDec(w - 1, q / 2, m / 2);
      KeepOver(w - 1, q / 2, m / 2);
      NotBits(w, m);
      WordBound(w, q, m);
      WordBound(w - 1, q / 2, m / 2);
      var x := And(q, m);
      var y := Pred(w, x);
      AndBits(q, m);
      PredBits(w, x);
      AndBits(y, m);
      AndBits(q, n);
      OrBits(And(y, m), And(q, n));
      DecBits(w, q, m);
      hide And, Or, Pred, Dec, Two, Not;
      SameBits(Or(And(y, m), And(q, n)), Dec(w, q, m));
    }
  }

  lemma {:induction false} KeepOver(w: nat, q: nat, m: nat)
    requires q < Two(w) && m < Two(w)
    ensures Or(And(And(q, m), m), And(q, Not(w, m))) == q
  {
    if w > 0 {
      var n := Not(w, m);
      KeepOver(w - 1, q / 2, m / 2);
      NotBits(w, m);
      AndBits(q, m);
      AndBits(And(q, m), m);
      AndBits(q, n);
      OrBits(And(And(q, m), m), And(q, n));
      hide And, Or, Two, Not;
      SameBits(Or(And(And(q, m), m), And(q, n)), q);
    }
  }
}
