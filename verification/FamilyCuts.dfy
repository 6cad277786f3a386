/** Families of sibling leaves in a forest and the positions where a partition cuts them. */
module FamilyCuts {
  import opened Quadrants
  import opened TwoPass

  /** Two leaves with the same parent in the same tree. */
  predicate Kin(a: Leaf, b: Leaf) {
    a.tree == b.tree && a.quad != [] && b.quad != [] && Parent(a.quad) == Parent(b.quad)
  }

  lemma NextInTree(c: Arity, a: Leaf, b: Leaf)
    requires EndOf(c, a) == BeginOf(b)
    ensures a.tree <= b.tree && (a.tree == b.tree ==> Next(c, a.quad, b.quad))
  {
    CornerIsBegin(b.quad);
  }

  lemma KinSorted(c: Arity, s: seq<Leaf>, a: nat, b: nat)
    requires Contiguous(c, s) && a < b < |s| && Kin(s[a], s[b])
    ensures ChildId(s[a].quad) < ChildId(s[b].quad) < c
  {
    LeavesAreSorted(c, s, a, b);
    var p := Parent(s[a].quad);
    assert s[a].quad == Child(p, ChildId(s[a].quad)) && s[b].quad == Child(p, ChildId(s[b].quad));
    if ChildId(s[a].quad) != ChildId(s[b].quad) {
      CommonLengthIs(s[a].quad, s[b].quad, |p|);
    }
  }

  // ---------------------------------------------------------------- a refined sibling takes c leaves

  /** From below child i of q one leaf further: still below q, at child i + 1 at most. */
  lemma StepUnder(c: Arity, q: Quad, u: Quad, v: Quad)
    requires IsQuad(c, u) && Next(c, u, v) && q < u && u[|q|] + 1 < c
    ensures q < v && v[|q|] <= u[|q|] + 1
  {
    var k := BeginShape(v);
    var n := EndShape(c, u);
    var e := u[..n] + [u[n] + 1];
    assert v[..k] == e;
    assert n >= |q|;
    assert v[..|q|] == v[..k][..|q|] == e[..|q|] == u[..|q|] == q;
    assert v[|q|] == v[..k][|q|] == e[|q|];
  }

  lemma {:induction false} StepsUnder(c: Arity, s: seq<Leaf>, q: Quad, a: nat, m: nat)
    requires Contiguous(c, s) && a + m < |s| && m < c && q < s[a].quad && s[a].quad[|q|] == 0
    requires s[a + m].tree == s[a].tree
    ensures q < s[a + m].quad && s[a + m].quad[|q|] <= m
  {
    if m > 0 {
      LeavesInTree(c, s, a, a + m - 1, a + m);
      StepsUnder(c, s, q, a, m - 1);
      NextInTree(c, s[a + m - 1], s[a + m]);
      StepUnder(c, q, s[a + m - 1].quad, s[a + m].quad);
    }
  }

  lemma LeavesInTree(c: Arity, s: seq<Leaf>, a: nat, m: nat, b: nat)
    requires Contiguous(c, s) && a <= m <= b < |s| && s[a].tree == s[b].tree
    ensures s[m].tree == s[a].tree
  {
    if a < m {
      LeavesAreSorted(c, s, a, m);
    }
    if m < b {
      LeavesAreSorted(c, s, m, b);
    }
  }

  /** After a leaf, its next sibling is the next leaf or is refined. */
  lemma NextSibling(c: Arity, u: Quad, v: Quad)
    requires Next(c, u, v) && u != [] && ChildId(u) + 1 < c
    ensures var q := Sibling(u, ChildId(u) + 1); v == q || (q < v && v[|q|] == 0)
  {
    var q := Sibling(u, ChildId(u) + 1);
    var k := BeginShape(v);
    assert v[..k] == q;
  }

  /** Siblings less than c leaves apart have nothing but siblings between them. */
  lemma {:induction false} KinContiguous(c: Arity, s: seq<Leaf>, a: nat, b: nat)
    requires Contiguous(c, s) && a < b < |s| && b - a < c && Kin(s[a], s[b])
    ensures forall m :: a <= m <= b ==>
              s[m] == Leaf(s[a].tree, Child(Parent(s[a].quad), ChildId(s[a].quad) + (m - a)))
    decreases b - a
  {
    KinSorted(c, s, a, b);
    var p, x := Parent(s[a].quad), ChildId(s[a].quad);
    assert s[a].quad == Child(p, x);
    LeavesInTree(c, s, a, a + 1, b);
    assert EndOf(c, s[a]) == BeginOf(s[a + 1]);
    NextInTree(c, s[a], s[a + 1]);
    NextSibling(c, s[a].quad, s[a + 1].quad);
    var q := Child(p, x + 1);
    assert Sibling(s[a].quad, x + 1) == q;
    if s[a + 1].quad != q {
      StepsUnder(c, s, q, a + 1, b - a - 1);
      assert false;
    }
    assert Parent(q) == p && ChildId(q) == x + 1;
    if a + 1 < b {
      KinContiguous(c, s, a + 1, b);
    }
  }

  // ---------------------------------------------------------------- families

  /** A family is a pair of siblings exactly c leaves apart. */
  lemma FamilyIff(c: Arity, s: seq<Leaf>, i: nat)
    requires Contiguous(c, s) && i + c <= |s|
    ensures FamilyAt(c, s, i) <==> Kin(s[i], s[i + c - 1])
  {
    if Kin(s[i], s[i + c - 1]) {
      KinContiguous(c, s, i, i + c - 1);
      var p, x := Parent(s[i].quad), ChildId(s[i].quad);
      KinSorted(c, s, i, i + c - 1);
      assert s[i + c - 1].quad == Child(p, x + c - 1);
      assert ChildId(s[i + c - 1].quad) == x + c - 1;
      assert x == 0;
    }
    if FamilyAt(c, s, i) {
      assert s[i + c - 1].quad == Child(Parent(s[i].quad), c - 1);
      assert Parent(s[i + c - 1].quad) == Parent(s[i].quad);
    }
  }

  lemma FamiliesDisjoint(c: Arity, s: seq<Leaf>, i: nat, j: nat)
    requires FamilyAt(c, s, i) && FamilyAt(c, s, j) && i < j
    ensures i + c <= j
  {
    FamilyMember(c, s, i, j);
    FamilyMember(c, s, j, j);
  }

  lemma FamilyMember(c: Arity, s: seq<Leaf>, i: nat, j: nat)
    requires FamilyAt(c, s, i) && i <= j < |s|
    ensures j < i + c ==> ChildId(s[j].quad) == j - i && Kin(s[i], s[j])
  {
    if j < i + c {
      assert s[j] == Leaf(s[i].tree, Child(Parent(s[i].quad), j - i));
    }
  }
}
