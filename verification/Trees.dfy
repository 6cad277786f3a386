/** The leaf array of one local tree with its level counters (p4est_tree_t). */
module Trees {
  import opened Quadrants

  ghost predicate BoundedLevels(s: seq<Quad>, maxl: nat) {
    forall i :: 0 <= i < |s| ==> |s[i]| <= maxl
  }

  function CountLevel(s: seq<Quad>, l: nat): nat {
    if s == [] then 0 else CountLevel(s[1..], l) + if |s[0]| == l then 1 else 0
  }

  lemma {:induction false} CountLevelConcat(s: seq<Quad>, t: seq<Quad>, l: nat)
    ensures CountLevel(s + t, l) == CountLevel(s, l) + CountLevel(t, l)
  {
    if s == [] {
      assert s + t == t;
    } else {
      CountLevelConcat(s[1..], t, l);
      assert (s + t)[1..] == s[1..] + t;
    }
  }

  lemma {:induction false} CountLevelUniform(s: seq<Quad>, l: nat, m: nat)
    requires forall i :: 0 <= i < |s| ==> |s[i]| == m
    ensures CountLevel(s, l) == if l == m then |s| else 0
  {
    if s != [] {
      CountLevelUniform(s[1..], l, m);
    }
  }

  lemma {:induction false} CountLevelPositive(s: seq<Quad>, l: nat)
    ensures CountLevel(s, l) > 0 <==> exists i :: 0 <= i < |s| && |s[i]| == l
  {
    if s != [] {
      CountLevelPositive(s[1..], l);
      if CountLevel(s[1..], l) > 0 {
        var i :| 0 <= i < |s[1..]| && |s[1..][i]| == l;
        assert |s[i + 1]| == l;
      }
      if exists i :: 0 <= i < |s| && |s[i]| == l {
        var i :| 0 <= i < |s| && |s[i]| == l;
        if i > 0 {
          assert |s[1..][i - 1]| == l;
        }
      }
    }
  }

  /** m is 0 for no quadrants and the deepest level otherwise. */
  ghost predicate IsMaxLevel(s: seq<Quad>, m: nat) {
    && BoundedLevels(s, m)
    && if s == [] then m == 0 else exists i :: 0 <= i < |s| && |s[i]| == m
  }

  ghost predicate Tally(perLevel: seq<int>, s: seq<Quad>) {
    (forall i :: 0 <= i < |s| ==> |s[i]| < |perLevel|) && forall l :: 0 <= l < |perLevel| ==>
      perLevel[l] == CountLevel(s, l)
  }

  lemma MaxLevelAppend(s: seq<Quad>, m: nat, q: Quad)
    requires IsMaxLevel(s, m)
    ensures IsMaxLevel(s + [q], if m < |q| then |q| else m)
  {
    var t := s + [q];
    if m < |q| || s == [] {
      assert |t[|s|]| == |q|;
    } else {
      var i :| 0 <= i < |s| && |s[i]| == m;
      assert |t[i]| == m;
    }
  }

  lemma TallyAppend(perLevel: seq<int>, s: seq<Quad>, q: Quad)
    requires Tally(perLevel, s) && |q| < |perLevel|
    ensures Tally(perLevel[|q| := perLevel[|q|] + 1], s + [q])
  {
    forall l | 0 <= l < |perLevel|
      ensures CountLevel(s + [q], l) == CountLevel(s, l) + if |q| == l then 1 else 0
    {
      CountLevelConcat(s, [q], l);
    }
  }

  /** A growing quadrant array (sc_array_t). */
  class QuadArray {
    var elems: seq<Quad>

    constructor ()
      ensures elems == []
    {
      elems := [];
    }

    method Push(q: Quad)
      modifies this
      ensures elems == old(elems) + [q]
    {
      elems := elems + [q];
    }
  }

  class Tree {
    var quads: seq<Quad>
    var perLevel: seq<int>
    var maxLevel: int

    /** The level counters agree with the leaves. */
    ghost predicate Counted()
      reads this
    {
      && |perLevel| > 0
      && BoundedLevels(quads, |perLevel| - 1)
      && forall l :: 0 <= l < |perLevel| ==> perLevel[l] == CountLevel(quads, l)
    }

    /** The deepest level with a positive counter. */
    method ComputeMaxLevel()
      requires Counted()
      modifies this`maxLevel
      ensures 0 <= maxLevel < |perLevel| && BoundedLevels(quads, maxLevel)
      ensures quads != [] ==> exists i :: 0 <= i < |quads| && |quads[i]| == maxLevel
    {
      maxLevel := 0;
      var i := 0;
      while i < |perLevel|
        invariant 0 <= i <= |perLevel| && 0 <= maxLevel && (maxLevel < i || maxLevel == 0)
        invariant forall l :: maxLevel < l < i ==> perLevel[l] == 0
        invariant maxLevel > 0 ==> perLevel[maxLevel] > 0
      {
        if perLevel[i] > 0 {
          maxLevel := i;
        }
        i := i + 1;
      }
      forall k | 0 <= k < |quads|
        ensures |quads[k]| <= maxLevel
      {
        CountLevelPositive(quads, |quads[k]|);
      }
      CountLevelPositive(quads, maxLevel);
      assert quads != [] ==> |quads[0]| <= maxLevel;
    }
  }

  lemma TallyIsCounted(tree: Tree)
    requires Tally(tree.perLevel, tree.quads) && |tree.perLevel| > 0
    ensures tree.Counted()
  {
  }
}
