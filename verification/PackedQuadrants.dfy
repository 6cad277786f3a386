/** The packed words stand for the quadrants of the other modules: each operation on words
    is the operation on paths from the root. */
module PackedQuadrants {
  import opened Bits
  import W = MortonWords
  import O = MortonOperations
  import M = Morton
  import opened Quadrants

  function NumChildren(d: W.Dim): Arity {
    if d == 2 then 4 else 8
  }

  lemma NumChildrenIs(d: W.Dim)
    ensures NumChildren(d) == Two(d)
  {
  }

  function Id(d: W.Dim, q: Quad): nat {
    M.Id(NumChildren(d), q)
  }

  ghost predicate Packable(d: W.Dim, q: Quad) {
    IsQuad(NumChildren(d), q) && |q| <= W.MaxLevel(d)
  }

  function Pack(d: W.Dim, q: Quad): nat
    requires |q| <= W.MaxLevel(d)
  {
    W.Word(d, |q|, Id(d, q))
  }

  lemma {:induction false} PowIsTwo(d: W.Dim, n: nat)
    ensures M.Pow(NumChildren(d), n) == Two(W.Width(d, n))
  {
    NumChildrenIs(d);
    if n == 0 {
      assert W.Width(d, 0) == 0;
    } else {
      PowIsTwo(d, n - 1);
      assert W.Width(d, n) == d + W.Width(d, n - 1);
      hide Two, W.Width;
      TwoAdds(d, W.Width(d, n - 1));
    }
  }

  lemma PackFits(d: W.Dim, q: Quad)
    requires Packable(d, q)
    ensures W.InLevel(d, |q|, Id(d, q)) && W.LevelOf(Pack(d, q)) == |q| && Pack(d, q) < Two(64)
  {
    hide Two, W.Width, W.Word, W.LevelOf, W.MaxLevel, M.Id, M.Pow, NumChildren;
    PowIsTwo(d, |q|);
    M.IdBound(NumChildren(d), q);
    O.LevelIs(d, |q|, Id(d, q));
    W.WordBits(d, |q|, Id(d, q));
  }

  /** Different quadrants have different words. */
  lemma PackInjective(d: W.Dim, q: Quad, r: Quad)
    requires Packable(d, q) && Packable(d, r) && Pack(d, q) == Pack(d, r)
    ensures q == r
  {
    var c := NumChildren(d);
    hide Two, W.InLevel, W.MaxLevel, W.LinearId, W.LevelOf, W.MortonOf, M.Id;
    PackFits(d, q);
    PackFits(d, r);
    W.MortonIsWord(d, |q|, Id(d, q));
    W.MortonIsWord(d, |r|, Id(d, r));
    hide W.Word;
    W.MortonRoundTrip(d, |q|, Id(d, q));
    W.MortonRoundTrip(d, |r|, Id(d, r));
    M.FromIdOfId(c, q);
    M.FromIdOfId(c, r);
  }

  lemma IdOfKid(d: W.Dim, p: Quad, i: nat)
    requires i < Two(d)
    ensures Id(d, p + [i]) == O.Kid(d, Id(d, p), i)
  {
    hide Two, O.Kid;
    O.KidIs(d, Id(d, p), i);
    NumChildrenIs(d);
    assert Parent(p + [i]) == p;
  }

  lemma PackChild(d: W.Dim, q: Quad, i: nat)
    requires Packable(d, q) && |q| < W.MaxLevel(d) && i < NumChildren(d)
    ensures Packable(d, Child(q, i))
    ensures W.LevelOf(Pack(d, q)) == |q| && O.Child(d, Pack(d, q), i) == Pack(d, Child(q, i))
  {
    hide Two, W.Word, W.LevelOf, O.Child, O.Kid;
    NumChildrenIs(d);
    PackFits(d, q);
    O.ChildIs(d, |q|, Id(d, q), i);
    IdOfKid(d, q, i);
  }

  lemma PackParent(d: W.Dim, q: Quad)
    requires Packable(d, q) && q != []
    ensures Packable(d, Parent(q))
    ensures W.LevelOf(Pack(d, q)) == |q| && O.Parent(d, Pack(d, q)) == Pack(d, Parent(q))
  {
    hide Two, W.Word, W.LevelOf, O.Parent, O.Kid, W.InLevel;
    NumChildrenIs(d);
    assert Child(Parent(q), ChildId(q)) == q;
    PackFits(d, Parent(q));
    IdOfKid(d, Parent(q), ChildId(q));
    O.ParentIs(d, |q|, Id(d, Parent(q)), ChildId(q));
  }

  lemma PackSibling(d: W.Dim, q: Quad, i: nat)
    requires Packable(d, q) && q != [] && i < NumChildren(d)
    ensures Packable(d, Sibling(q, i))
    ensures W.LevelOf(Pack(d, q)) == |q| && O.Sibling(d, Pack(d, q), i) == Pack(d, Sibling(q, i))
  {
    hide Two, W.Word, W.LevelOf, O.Sibling, O.Kid, W.InLevel;
    NumChildrenIs(d);
    assert Child(Parent(q), ChildId(q)) == q;
    PackFits(d, Parent(q));
    IdOfKid(d, Parent(q), ChildId(q));
    IdOfKid(d, Parent(q), i);
    O.SiblingIs(d, |q|, Id(d, Parent(q)), ChildId(q), i);
  }

  /** The id of an ancestor drops digits. */
  lemma {:induction false} IdOfAncestor(d: W.Dim, q: Quad, k: nat)
    requires IsQuad(NumChildren(d), q) && k <= |q|
    ensures Id(d, q[..k]) == W.Shr(Id(d, q), W.Between(d, k, |q|))
    decreases |q|
  {
    if k == |q| {
      assert q[..k] == q;
      assert W.Between(d, k, k) == 0;
    } else {
      hide Two, W.Shr, O.Kid, M.Id;
      IdOfAncestor(d, Parent(q), k);
      assert Parent(q)[..k] == q[..k] && Parent(q) + [ChildId(q)] == q;
      NumChildrenIs(d);
      IdOfKid(d, Parent(q), ChildId(q));
      DropDigit(d, Id(d, Parent(q)), ChildId(q), W.Between(d, k, |q| - 1));
      assert W.Between(d, k, |q|) == d + W.Between(d, k, |q| - 1);
    }
  }

  lemma DropDigit(d: W.Dim, p: nat, i: nat, n: nat)
    requires i < Two(d)
    ensures W.Shr(O.Kid(d, p, i), d + n) == W.Shr(p, n)
  {
    W.PartsOfJoin(d, p, i);
    ShrTwice(O.Kid(d, p, i), d, n);
  }

  lemma {:induction false} ShrTwice(x: nat, a: nat, b: nat)
    ensures W.Shr(x, a + b) == W.Shr(W.Shr(x, a), b)
  {
    if a > 0 {
      ShrTwice(x / 2, a - 1, b);
    }
  }

  lemma PackAncestor(d: W.Dim, q: Quad, k: nat)
    requires Packable(d, q) && k <= |q|
    ensures Packable(d, q[..k]) && O.Ancestor(d, Pack(d, q), k) == Pack(d, q[..k])
  {
    hide Two, W.Word, O.Ancestor, W.InLevel;
    PackFits(d, q);
    O.AncestorIs(d, |q|, Id(d, q), k);
    IdOfAncestor(d, q, k);
  }

  /** On one level, the successor of a word is the quadrant that follows without a gap. */
  lemma PackSuccessor(d: W.Dim, q: Quad, r: Quad)
    requires Packable(d, q) && Packable(d, r) && |r| == |q|
    ensures W.LevelOf(Pack(d, q)) == |q| && W.LevelOf(Pack(d, r)) == |q|
    ensures Next(NumChildren(d), q, r) <==> O.Successor(d, Pack(d, q)) == Pack(d, r)
    ensures Next(NumChildren(d), q, r) ==> O.Predecessor(d, Pack(d, r)) == Pack(d, q)
  {
    hide Two, W.Word, W.LevelOf, O.Successor, O.Predecessor, M.Id, W.Width, W.MaxLevel;
    var c := NumChildren(d);
    PackFits(d, q);
    PackFits(d, r);
    NextIsSuccessor(c, q, r);
    var id := Id(d, q);
    if Next(c, q, r) {
      O.SuccessorIs(d, |q|, id);
    } else if O.Successor(d, Pack(d, q)) == Pack(d, r) {
      O.SuccessorIff(d, |q|, id);
      O.SuccessorIs(d, |q|, id);
      SameId(d, |q|, id + 1, Id(d, r));
    }
  }

  lemma SameId(d: W.Dim, level: nat, x: nat, y: nat)
    requires W.InLevel(d, level, x) && W.InLevel(d, level, y) && W.Word(d, level, x) == W.Word(d, level, y)
    ensures x == y
  {
    hide W.Word, W.LinearId, W.MortonOf, W.LevelOf, Two;
    W.MortonIsWord(d, level, x);
    W.MortonIsWord(d, level, y);
    W.MortonRoundTrip(d, level, x);
    W.MortonRoundTrip(d, level, y);
  }

  lemma NextIsSuccessor(c: Arity, q: Quad, r: Quad)
    requires IsQuad(c, q) && IsQuad(c, r) && |q| == |r|
    ensures Next(c, q, r) <==> M.Id(c, r) == M.Id(c, q) + 1
  {
    M.NextIsAdjacent(c, |q|, q, r);
    assert M.Pow(c, 0) == 1;
  }
}
