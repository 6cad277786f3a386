/** Refinement and coarsening in two passes over the local leaves (p4est3_refine.c): the
    first pass visits the leaves and writes a pattern, the second pass builds the new leaf
    arrays from it.  Families are found with one counter that survives mismatches. */
module TwoPass {
  import opened Quadrants

  // ---------------------------------------------------------------- local leaves

  datatype Leaf = Leaf(tree: nat, quad: Quad)
  datatype ForestPosition = ForestPosition(tree: nat, corner: Quad)

  function BeginOf(a: Leaf): ForestPosition {
    ForestPosition(a.tree, CornerOf(a.quad))
  }

  function CornerOf(q: Quad): Quad {
    if q != [] && ChildId(q) == 0 then CornerOf(Parent(q)) else q
  }

  lemma {:induction false} CornerIsBegin(q: Quad)
    ensures Begin(q) == At(CornerOf(q))
  {
    if q != [] && ChildId(q) == 0 {
      CornerIsBegin(Parent(q));
    }
  }

  /** The end of a tree is the beginning of the next one. */
  function EndOf(c: Arity, a: Leaf): ForestPosition {
    match End(c, a.quad)
    case At(corner) => ForestPosition(a.tree, corner)
    case Top => ForestPosition(a.tree + 1, [])
  }

  /** A contiguous run of leaves of complete trees: what one rank owns. */
  ghost predicate Contiguous(c: Arity, s: seq<Leaf>) {
    && (forall i :: 0 <= i < |s| ==> IsQuad(c, s[i].quad))
    && (forall i, j :: 0 <= i && j == i + 1 && j < |s| ==> EndOf(c, s[i]) == BeginOf(s[j]))
  }

  ghost predicate Fills(c: Arity, s: seq<Leaf>, b: ForestPosition, e: ForestPosition) {
    if s == [] then b == e
    else Contiguous(c, s) && BeginOf(s[0]) == b && EndOf(c, s[|s| - 1]) == e
  }

  // ---------------------------------------------------------------- families

  ghost predicate FamilyAt(c: Arity, s: seq<Leaf>, i: nat) {
    i + c <= |s| && s[i].quad != [] &&
    forall j :: i <= j < i + c ==> s[j] == Leaf(s[i].tree, Child(Parent(s[i].quad), j - i))
  }

  /** A complete local family none of whose members is refined. */
  ghost predicate FreeFamilyAt(c: Arity, refined: Leaf -> bool, s: seq<Leaf>, i: nat) {
    FamilyAt(c, s, i) && forall j :: i <= j < i + c ==> !refined(s[j])
  }

  /** The last leaves before n are the unrefined siblings from the first one on. */
  ghost predicate SiblingRun(refined: Leaf -> bool, s: seq<Leaf>, n: nat)
    requires 0 < n <= |s|
  {
    var a := s[n - 1];
    && a.quad != [] && !refined(a)
    && (ChildId(a.quad) == 0 ||
        (n >= 2 && s[n - 2] == Leaf(a.tree, Sibling(a.quad, ChildId(a.quad) - 1)) && SiblingRun(refined, s, n - 1)))
  }

  lemma {:induction false} RunIsFamily(refined: Leaf -> bool, s: seq<Leaf>, n: nat)
    requires 0 < n <= |s| && s[n - 1].quad != []
    ensures var k := ChildId(s[n - 1].quad);
            SiblingRun(refined, s, n) <==>
              k < n && Siblings(refined, s, s[n - 1].tree, Parent(s[n - 1].quad), n - 1 - k, n)
  {
    var a := s[n - 1];
    var k, p := ChildId(a.quad), Parent(a.quad);
    assert a.quad == Child(p, k);
    if k > 0 && n >= 2 {
      assert k < n && Siblings(refined, s, a.tree, p, n - 1 - k, n) ==> s[n - 2] == Leaf(a.tree, Child(p, k - 1));
      if s[n - 2] == Leaf(a.tree, Sibling(a.quad, k - 1)) {
        assert Parent(s[n - 2].quad) == p && ChildId(s[n - 2].quad) == k - 1;
        RunIsFamily(refined, s, n - 1);
      }
    }
  }

  /** The leaves from b up to n are the unrefined children of p in order. */
  ghost predicate Siblings(refined: Leaf -> bool, s: seq<Leaf>, tree: nat, p: Quad, b: nat, n: nat)
    requires n <= |s|
  {
    forall j :: b <= j < n ==> s[j] == Leaf(tree, Child(p, j - b)) && !refined(s[j])
  }

  /** What the counter knows after n leaves, although it is not reset on a mismatch. */
  ghost predicate CounterMeans(c: Arity, refined: Leaf -> bool, s: seq<Leaf>, n: nat, nsiblings: nat)
    requires n <= |s|
  {
    && nsiblings < c
    && (n == 0 ==> nsiblings == 0)
    && (n > 0 && s[n - 1].quad == [] ==> nsiblings <= 1)
    && (n > 0 && s[n - 1].quad != [] ==>
          && (nsiblings > 0 ==> nsiblings > ChildId(s[n - 1].quad) && SiblingRun(refined, s, n))
          && (ChildId(s[n - 1].quad) < c - 1 && SiblingRun(refined, s, n) ==> nsiblings > 0))
  }

  function NextCount(c: Arity, nsiblings: nat, childId: nat, isRefined: bool): nat {
    if isRefined then 0
    else if nsiblings != childId then nsiblings
    else if nsiblings + 1 == c then 0
    else nsiblings + 1
  }

  /** Successive leaves: a jump into the next tree, or the next sibling, or a first child. */
  lemma NextLeaf(c: Arity, a: Leaf, b: Leaf)
    requires EndOf(c, a) == BeginOf(b)
    ensures ChildId(b.quad) != 0 && ChildId(a.quad) + 1 < c ==>
              a.tree == b.tree && a.quad != [] && b.quad == Sibling(a.quad, ChildId(a.quad) + 1)
    ensures b.tree != a.tree ==> (a.quad == [] || ChildId(a.quad) + 1 >= c) && ChildId(b.quad) == 0
    ensures b.tree == a.tree ==> a.quad != [] && b.quad != []
  {
    CornerIsBegin(b.quad);
    if b.tree == a.tree {
      assert Next(c, a.quad, b.quad);
      if ChildId(b.quad) != 0 && ChildId(a.quad) + 1 < c {
        AdjacentSiblings(c, a.quad, b.quad);
      }
      var n := EndShape(c, a.quad);
      var m := BeginShape(b.quad);
    } else {
      assert CornerOf(b.quad) == [];
    }
  }

  /** One leaf more: the counter keeps its meaning, and it completes exactly at the last
      member of a run of all c siblings. */
  lemma CounterStep(c: Arity, refined: Leaf -> bool, s: seq<Leaf>, n: nat, nsiblings: nat)
    requires Contiguous(c, s) && n < |s| && CounterMeans(c, refined, s, n, nsiblings)
    ensures CounterMeans(c, refined, s, n + 1, NextCount(c, nsiblings, ChildId(s[n].quad), refined(s[n])))
    ensures !refined(s[n]) && nsiblings == ChildId(s[n].quad) == c - 1 <==>
            ChildId(s[n].quad) == c - 1 && SiblingRun(refined, s, n + 1)
  {
    hide Contiguous, SiblingRun;
    if n > 0 {
      RunGrows(c, refined, s, n);
    } else {
      FirstRun(c, refined, s);
    }
  }

  lemma FirstRun(c: Arity, refined: Leaf -> bool, s: seq<Leaf>)
    requires Contiguous(c, s) && s != []
    ensures SiblingRun(refined, s, 1) <==> (s[0].quad != [] && !refined(s[0]) && ChildId(s[0].quad) == 0)
    ensures ChildId(s[0].quad) < c
  {
    assert IsQuad(c, s[0].quad);
  }

  /** How the run of siblings continues with the next leaf. */
  lemma RunGrows(c: Arity, refined: Leaf -> bool, s: seq<Leaf>, n: nat)
    requires Contiguous(c, s) && 0 < n < |s|
    ensures var a, b := s[n - 1], s[n];
      && ChildId(a.quad) < c && ChildId(b.quad) < c
      && (SiblingRun(refined, s, n) ==> a.quad != [] && !refined(a))
      && (SiblingRun(refined, s, n + 1) <==>
            (b.quad != [] && !refined(b) &&
             (ChildId(b.quad) == 0 || (ChildId(a.quad) + 1 == ChildId(b.quad) && SiblingRun(refined, s, n)))))
      && (ChildId(b.quad) != 0 && ChildId(a.quad) + 1 < c ==> ChildId(a.quad) + 1 == ChildId(b.quad) && a.quad != [])
      && (b.quad == [] ==> a.quad == [] || ChildId(a.quad) + 1 >= c)
  {
    NextLeafAt(c, s, n);
    var a, b := s[n - 1], s[n];
    if ChildId(b.quad) != 0 && ChildId(a.quad) + 1 < c {
      assert Parent(Sibling(a.quad, ChildId(a.quad) + 1)) == Parent(a.quad);
      assert a.quad == Sibling(b.quad, ChildId(b.quad) - 1);
    }
    if b.quad != [] && ChildId(b.quad) > 0 {
      assert ChildId(Sibling(b.quad, ChildId(b.quad) - 1)) == ChildId(b.quad) - 1;
    }
  }

  lemma NextLeafAt(c: Arity, s: seq<Leaf>, n: nat)
    requires Contiguous(c, s) && 0 < n < |s|
    ensures var a, b := s[n - 1], s[n];
      && IsQuad(c, a.quad) && IsQuad(c, b.quad)
      && (ChildId(b.quad) != 0 && ChildId(a.quad) + 1 < c ==>
              a.tree == b.tree && a.quad != [] && b.quad == Sibling(a.quad, ChildId(a.quad) + 1))
      && (b.tree != a.tree ==> (a.quad == [] || ChildId(a.quad) + 1 >= c) && ChildId(b.quad) == 0)
      && (b.tree == a.tree ==> a.quad != [] && b.quad != [])
  {
    NextLeaf(c, s[n - 1], s[n]);
  }

  /** A completed run is a free family, and the other way round. */
  lemma CompletedRun(c: Arity, refined: Leaf -> bool, s: seq<Leaf>, n: nat)
    requires 0 < n <= |s|
    ensures ChildId(s[n - 1].quad) == c - 1 && SiblingRun(refined, s, n) <==>
            n >= c && FreeFamilyAt(c, refined, s, n - c)
  {
    var a := s[n - 1];
    if a.quad != [] {
      RunIsFamily(refined, s, n);
      hide SiblingRun;
      if ChildId(a.quad) == c - 1 && SiblingRun(refined, s, n) {
        assert s[n - c] == Leaf(a.tree, Child(Parent(a.quad), 0));
        ChildOf(Parent(a.quad), 0);
      }
    }
    if n >= c && FreeFamilyAt(c, refined, s, n - c) {
      assert a == Leaf(s[n - c].tree, Child(Parent(s[n - c].quad), c - 1));
      ChildOf(Parent(s[n - c].quad), c - 1);
    }
  }

  lemma ChildOf(q: Quad, k: nat)
    ensures Parent(Child(q, k)) == q && ChildId(Child(q, k)) == k
  {
  }

  // ---------------------------------------------------------------- first pass: functions

  /** The callbacks and limits of one call; `accept` is asked with the index of the first
      family member and the array of member pointers. */
  datatype Rule = Rule(c: Arity, qmaxlevel: nat, refine: Leaf -> bool, accept: (nat, seq<Leaf>) -> bool) {
    /** The refine callback is not asked on the deepest level. */
    predicate Refined(a: Leaf) {
      |a.quad| < qmaxlevel && refine(a)
    }
  }

  /** Value of the sibling counter after n leaves. */
  function Counter(r: Rule, s: seq<Leaf>, n: nat): nat
    requires n <= |s|
  {
    if n == 0 then 0 else NextCount(r.c, Counter(r, s, n - 1), ChildId(s[n - 1].quad), r.Refined(s[n - 1]))
  }

  /** Contents of the family array after n leaves. */
  function Family(r: Rule, s: seq<Leaf>, n: nat): (f: seq<Leaf>)
    requires n <= |s|
    ensures |f| == r.c
  {
    if n == 0 then seq(r.c, _ => Leaf(0, []))
    else
      var k := Counter(r, s, n - 1);
      if !r.Refined(s[n - 1]) && k == ChildId(s[n - 1].quad) && k < r.c
      then Family(r, s, n - 1)[k := s[n - 1]]
      else Family(r, s, n - 1)
  }

  lemma {:induction false} CounterIsMeaningful(r: Rule, s: seq<Leaf>, n: nat)
    requires Contiguous(r.c, s) && n <= |s|
    ensures CounterMeans(r.c, r.Refined, s, n, Counter(r, s, n))
  {
    hide Contiguous;
    if n > 0 {
      CounterIsMeaningful(r, s, n - 1);
      CounterStep(r.c, r.Refined, s, n - 1, Counter(r, s, n - 1));
    }
  }

  /** The coarsen callback is asked exactly for the complete local families without a
      refined member, each at its last leaf. */
  lemma AskedExactlyForFamilies(r: Rule, s: seq<Leaf>, n: nat)
    requires Contiguous(r.c, s) && n < |s|
    ensures Counter(r, s, n) < r.c
    ensures !r.Refined(s[n]) && Counter(r, s, n) == ChildId(s[n].quad) == r.c - 1 <==>
            n + 1 >= r.c && FreeFamilyAt(r.c, r.Refined, s, n + 1 - r.c)
  {
    hide FreeFamilyAt, SiblingRun, Contiguous, Counter;
    CounterIsMeaningful(r, s, n);
    CounterStep(r.c, r.Refined, s, n, Counter(r, s, n));
    CompletedRun(r.c, r.Refined, s, n + 1);
  }

  /** The leaves before p end with an unfinished run of unrefined siblings, or with an
      unrefined root, which counts as a child 0. */
  ghost predicate OpenRun(r: Rule, s: seq<Leaf>, p: nat)
    requires p <= |s|
  {
    && p > 0 && !r.Refined(s[p - 1])
    && (s[p - 1].quad == [] || (ChildId(s[p - 1].quad) < r.c - 1 && SiblingRun(r.Refined, s, p)))
  }

  lemma CounterAfterRoot(r: Rule, s: seq<Leaf>, n: nat)
    requires Contiguous(r.c, s) && 0 < n <= |s| && s[n - 1].quad == []
    ensures Counter(r, s, n) == if r.Refined(s[n - 1]) then 0 else 1
  {
    hide SiblingRun, Contiguous;
    CounterIsMeaningful(r, s, n - 1);
    if n > 1 {
      NextLeafAt(r.c, s, n - 1);
    }
  }

  /** When the counter stands at zero, told from the leaves. */
  lemma CounterIsOpenRun(r: Rule, s: seq<Leaf>, p: nat)
    requires Contiguous(r.c, s) && p <= |s|
    ensures Counter(r, s, p) > 0 <==> OpenRun(r, s, p)
  {
    hide Contiguous, Counter;
    CounterIsMeaningful(r, s, p);
    if p > 0 && s[p - 1].quad == [] {
      CounterAfterRoot(r, s, p);
    }
  }

  /** The array that the callback sees for the family at p is that family exactly when no
      unfinished run of siblings stands right before it. */
  lemma FamilyArrayIff(r: Rule, s: seq<Leaf>, p: nat)
    requires Contiguous(r.c, s) && p + r.c <= |s| && FreeFamilyAt(r.c, r.Refined, s, p)
    ensures Family(r, s, p + r.c) == s[p..p + r.c] <==> !OpenRun(r, s, p)
  {
    hide Contiguous, FreeFamilyAt, Family, Counter, OpenRun;
    var m := Counter(r, s, p);
    CounterIsMeaningful(r, s, p);
    CounterIsOpenRun(r, s, p);
    FamilyThrough(r, s, p, r.c);
    var f := Family(r, s, p + r.c);
    if m > 0 {
      FamilyIsOld(r, s, p, 0);
      var i :| 0 <= i < p && Family(r, s, p)[0] == s[i];
      LeavesAreSorted(r.c, s, i, p);
      assert s[p..p + r.c][0] == s[p] != f[0];
    } else {
      assert f == s[p..p + r.c];
    }
  }

  lemma MemberId(c: Arity, refined: Leaf -> bool, s: seq<Leaf>, p: nat, t: nat)
    requires FreeFamilyAt(c, refined, s, p) && t < c
    ensures p + t < |s| && ChildId(s[p + t].quad) == t && !refined(s[p + t])
  {
    assert s[p + t] == Leaf(s[p].tree, Child(Parent(s[p].quad), t));
  }

  /** The array f with the members from the m-th to before the t-th of a family at p put in. */
  ghost function Caught(f: seq<Leaf>, s: seq<Leaf>, p: nat, m: nat, t: nat): seq<Leaf>
    requires t <= |f| && p + t <= |s|
  {
    if t <= m then f else f[..m] + s[p + m..p + t] + f[t..]
  }

  lemma CaughtNothing(f: seq<Leaf>, s: seq<Leaf>, p: nat, m: nat)
    requires p <= |s|
    ensures Caught(f, s, p, m, 0) == f
  {
  }

  lemma CaughtStep(f: seq<Leaf>, s: seq<Leaf>, p: nat, m: nat, t: nat)
    requires 0 < t <= |f| && p + t <= |s|
    ensures Caught(f, s, p, m, t) ==
            if m <= t - 1 then Caught(f, s, p, m, t - 1)[t - 1 := s[p + t - 1]] else Caught(f, s, p, m, t - 1)
  {
    if m <= t - 1 {
      assert Caught(f, s, p, m, t - 1) == f[..m] + s[p + m..p + t - 1] + f[t - 1..];
      assert s[p + m..p + t] == s[p + m..p + t - 1] + [s[p + t - 1]];
      assert f[t - 1..] == [f[t - 1]] + f[t..];
    }
  }

  /** Through a free family the counter catches up with the child ids, and the array takes
      the members from the catching point on. */
  lemma {:induction false} FamilyThrough(r: Rule, s: seq<Leaf>, p: nat, t: nat)
    requires p + r.c <= |s| && FreeFamilyAt(r.c, r.Refined, s, p) && t <= r.c
    requires Counter(r, s, p) < r.c
    ensures var m := Counter(r, s, p);
      && (t < r.c ==> Counter(r, s, p + t) == if t < m then m else t)
      && Family(r, s, p + t) == Caught(Family(r, s, p), s, p, m, t)
  {
    hide FreeFamilyAt, Caught;
    CaughtNothing(Family(r, s, p), s, p, Counter(r, s, p));
    if t > 0 {
      FamilyThrough(r, s, p, t - 1);
      MemberId(r.c, r.Refined, s, p, t - 1);
      var n, m := p + t, Counter(r, s, p);
      assert Counter(r, s, n - 1) == if t - 1 < m then m else t - 1;
      assert ChildId(s[n - 1].quad) == t - 1 && !r.Refined(s[n - 1]);
      var f := Family(r, s, p);
      assert Family(r, s, n - 1) == Caught(f, s, p, m, t - 1);
      assert Family(r, s, n) == if m <= t - 1 then Family(r, s, n - 1)[t - 1 := s[n - 1]] else Family(r, s, n - 1);
      CaughtStep(f, s, p, m, t);
    }
  }

  lemma {:induction false} FamilyIsOld(r: Rule, s: seq<Leaf>, n: nat, j: nat)
    requires n <= |s| && j < Counter(r, s, n) < r.c
    ensures exists i :: 0 <= i < n && Family(r, s, n)[j] == s[i] && ChildId(s[i].quad) == j && !r.Refined(s[i])
  {
    var k := Counter(r, s, n - 1);
    if j < k && k < r.c {
      FamilyIsOld(r, s, n - 1, j);
    }
  }

  /** Whatever array the callback sees for the family at p, its entry t is an unrefined leaf
      with child id t: the member itself, or an older leaf if the open run reaches that far. */
  lemma FamilyArrayEntries(r: Rule, s: seq<Leaf>, p: nat, t: nat)
    requires Contiguous(r.c, s) && p + r.c <= |s| && FreeFamilyAt(r.c, r.Refined, s, p) && t < r.c
    ensures exists i :: 0 <= i < |s| && Family(r, s, p + r.c)[t] == s[i] && ChildId(s[i].quad) == t && !r.Refined(s[i])
                        && if t < Counter(r, s, p) then i < p else i == p + t
  {
    hide Contiguous, FreeFamilyAt, Family, Counter;
    CounterIsMeaningful(r, s, p);
    FamilyThrough(r, s, p, r.c);
    MemberId(r.c, r.Refined, s, p, t);
    if t < Counter(r, s, p) {
      FamilyIsOld(r, s, p, t);
    } else {
      assert Family(r, s, p + r.c)[t] == s[p + t];
    }
  }

  ghost predicate LeafBefore(a: Leaf, b: Leaf) {
    a.tree < b.tree || (a.tree == b.tree && Before(a.quad, b.quad))
  }

  lemma {:induction false} LeavesAreSorted(c: Arity, s: seq<Leaf>, i: nat, j: nat)
    requires Contiguous(c, s) && i < j < |s|
    ensures LeafBefore(s[i], s[j]) && s[i] != s[j]
  {
    var a, b := s[j - 1], s[j];
    CornerIsBegin(b.quad);
    if a.tree == b.tree {
      NextIsBefore(c, a.quad, b.quad);
    }
    if i < j - 1 {
      LeavesAreSorted(c, s, i, j - 1);
      if s[i].tree == a.tree == b.tree {
        BeforeTransitive(s[i].quad, a.quad, b.quad);
      }
    }
    Trichotomy(s[i].quad, b.quad);
  }

  ghost predicate Taken(r: Rule, s: seq<Leaf>, i: nat) {
    i + r.c <= |s| && FreeFamilyAt(r.c, r.Refined, s, i) && r.accept(i, Family(r, s, i + r.c))
  }

  /** The pattern entry of leaf i after n leaves have been visited. */
  ghost function Entry(r: Rule, s: seq<Leaf>, n: nat, i: nat): nat
    requires i < |s|
  {
    if i >= n then 0
    else if r.Refined(s[i]) then r.c
    else if i + r.c <= n && Taken(r, s, i) then 1
    else 0
  }

  lemma EntryAfter(r: Rule, s: seq<Leaf>, n: nat)
    requires n < |s|
    ensures Entry(r, s, n, n) == 0 && Entry(r, s, n + 1, n) == if r.Refined(s[n]) then r.c else 0
    ensures forall i :: 0 <= i < |s| && i != n ==>
              Entry(r, s, n + 1, i) == if i + r.c == n + 1 && Taken(r, s, i) then 1 else Entry(r, s, n, i)
    ensures forall i :: 0 <= i < |s| && i + r.c == n + 1 && Taken(r, s, i) ==> Entry(r, s, n, i) == 0
  {
    forall i | 0 <= i < |s| && i + r.c == n + 1 && Taken(r, s, i)
      ensures !r.Refined(s[i])
    {
    }
  }

  /** Number of new leaves: the entries' contributions, summed.  A 1 stands for one parent
      and takes back what the zeros of the other members will add. */
  function Weight(c: Arity, pattern: seq<nat>): int {
    if pattern == [] then 0
    else Weight(c, pattern[..|pattern| - 1]) + EntryWeight(c, pattern[|pattern| - 1])
  }

  function EntryWeight(c: Arity, e: nat): int {
    if e == 0 then 1 else if e == c then c else 1 - (c - 1)
  }

  lemma {:induction false} WeightUpdate(c: Arity, pattern: seq<nat>, i: nat, e: nat)
    requires i < |pattern|
    ensures Weight(c, pattern[i := e]) == Weight(c, pattern) - EntryWeight(c, pattern[i]) + EntryWeight(c, e)
  {
    var n := |pattern| - 1;
    if i < n {
      WeightUpdate(c, pattern[..n], i, e);
      assert pattern[i := e][..n] == pattern[..n][i := e];
    } else {
      assert pattern[i := e][..n] == pattern[..n];
    }
  }

  /** The pattern after one more leaf, as the visitor computes it. */
  ghost function NextPattern(r: Rule, s: seq<Leaf>, n: nat, pattern: seq<nat>): seq<nat>
    requires n < |s| == |pattern|
  {
    if r.Refined(s[n]) then pattern[n := r.c]
    else if n + 1 >= r.c && Taken(r, s, n + 1 - r.c) then pattern[n + 1 - r.c := 1]
    else pattern
  }

  lemma EntryWeightPlus(c: Arity, pattern: seq<nat>, n: nat)
    requires n < |pattern|
    ensures Weight(c, pattern[..n + 1]) == Weight(c, pattern[..n]) + EntryWeight(c, pattern[n])
  {
    assert pattern[..n + 1][..n] == pattern[..n];
  }

  lemma PatternEntries(r: Rule, s: seq<Leaf>, n: nat, pattern: seq<nat>)
    requires n < |s| == |pattern| && forall i :: 0 <= i < |s| ==> pattern[i] == Entry(r, s, n, i)
    ensures pattern[n] == 0
    ensures n + 1 >= r.c && Taken(r, s, n + 1 - r.c) ==> pattern[n + 1 - r.c] == 0
    ensures forall i :: 0 <= i < |s| ==> NextPattern(r, s, n, pattern)[i] == Entry(r, s, n + 1, i)
  {
    EntryAfter(r, s, n);
    assert n + 1 >= r.c && Taken(r, s, n + 1 - r.c) ==> !r.Refined(s[n]);
    hide Taken, Entry;
  }

  lemma PatternWeight(r: Rule, s: seq<Leaf>, n: nat, pattern: seq<nat>)
    requires n < |s| == |pattern| && pattern[n] == 0
    requires n + 1 >= r.c && Taken(r, s, n + 1 - r.c) ==> pattern[n + 1 - r.c] == 0
    ensures Weight(r.c, NextPattern(r, s, n, pattern)[..n + 1]) == Weight(r.c, pattern[..n]) +
              (if r.Refined(s[n]) then r.c
               else if n + 1 >= r.c && Taken(r, s, n + 1 - r.c) then 2 - r.c
               else 1)
  {
    hide Taken, Weight;
    var next := NextPattern(r, s, n, pattern);
    EntryWeightPlus(r.c, next, n);
    if !r.Refined(s[n]) && n + 1 >= r.c && Taken(r, s, n + 1 - r.c) {
      assert next[..n] == pattern[..n][n + 1 - r.c := 1];
      WeightUpdate(r.c, pattern[..n], n + 1 - r.c, 1);
    } else {
      assert next[..n] == pattern[..n];
    }
  }

  /** Counter, array and callback's answer at leaf n. */
  lemma NextValues(r: Rule, s: seq<Leaf>, n: nat)
    requires Contiguous(r.c, s) && n < |s|
    ensures var k, id, leaf := Counter(r, s, n), ChildId(s[n].quad), s[n];
            && k < r.c && |Family(r, s, n)| == r.c
            && Counter(r, s, n + 1) == NextCount(r.c, k, id, r.Refined(leaf))
            && Family(r, s, n + 1) ==
                 (if !r.Refined(leaf) && k == id then Family(r, s, n)[k := leaf] else Family(r, s, n))
            && (n + 1 >= r.c && Taken(r, s, n + 1 - r.c) <==>
                  !r.Refined(leaf) && k == id == r.c - 1 && n + 1 >= r.c && r.accept(n + 1 - r.c, Family(r, s, n + 1)))
            && (!r.Refined(leaf) && k == id == r.c - 1 ==> n + 1 >= r.c)
  {
    AskedExactlyForFamilies(r, s, n);
  }

  // ---------------------------------------------------------------- first pass: the visitor

  class CallbackData {
    var counter: nat
    var nNew: int
    var pattern: array<nat>
    var family: seq<Leaf>
    var nsiblings: nat

    ghost predicate Visited(r: Rule, s: seq<Leaf>, n: nat)
      requires n <= |s|
      reads this, pattern
    {
      && counter == n && pattern.Length == |s|
      && nsiblings == Counter(r, s, n) && family == Family(r, s, n)
      && (forall i :: 0 <= i < |s| ==> pattern[i] == Entry(r, s, n, i))
      && nNew == Weight(r.c, pattern[..n])
    }

    constructor (r: Rule, s: seq<Leaf>)
      ensures Visited(r, s, 0) && fresh(pattern)
    {
      counter, nNew, nsiblings := 0, 0, 0;
      family := seq(r.c, _ => Leaf(0, []));
      pattern := new nat[|s|](_ => 0);
    }

    /** p4est3_refine_coarsen_volume_callback */
    method Visit(r: Rule, leaf: Leaf, ghost s: seq<Leaf>)
      requires Contiguous(r.c, s) && counter < |s| && leaf == s[counter] && Visited(r, s, counter)
      modifies this, pattern
      ensures Visited(r, s, old(counter) + 1) && pattern == old(pattern)
    {
      hide Contiguous, Entry, Weight, Counter, Family, Taken;
      var c: int := r.c;
      ghost var n := counter;
      ghost var before := pattern[..];
      NextValues(r, s, n);
      PatternEntries(r, s, n, before);
      PatternWeight(r, s, n, before);
      var isRefine := false;
      if |leaf.quad| < r.qmaxlevel {
        isRefine := r.refine(leaf);
      }
      if !isRefine {
        var childId := ChildId(leaf.quad);
        nNew := nNew + 1;
        if nsiblings == childId {
          family := family[nsiblings := leaf];
          nsiblings := nsiblings + 1;
          if nsiblings == c {
            var isCoarsen := r.accept(counter - (c - 1), family);
            nsiblings := 0;
            if isCoarsen {
              pattern[counter - (c - 1)] := 1;
              nNew := nNew - (c - 1);
            }
          }
        }
      } else {
        pattern[counter] := c;
        nNew := nNew + c;
        nsiblings := 0;
      }
      counter := counter + 1;
      assert pattern[..] == NextPattern(r, s, n, before);
      assert pattern[..n + 1] == pattern[..][..n + 1] && before[..n] == old(pattern[..n]);
    }
  }

  /** Visits all local leaves in order (p4est3_iterate_volume with the callback). */
  method FirstPass(r: Rule, s: seq<Leaf>) returns (data: CallbackData)
    requires Contiguous(r.c, s)
    ensures data.Visited(r, s, |s|)
  {
    data := new CallbackData(r, s);
    var i := 0;
    while i < |s|
      invariant 0 <= i <= |s| && data.Visited(r, s, i) && fresh(data) && fresh(data.pattern)
    {
      data.Visit(r, s[i], s);
      i := i + 1;
    }
  }

  // ---------------------------------------------------------------- second pass

  ghost function ChildLeaves(c: Arity, a: Leaf): seq<Leaf> {
    seq(c, k requires 0 <= k < c => Leaf(a.tree, Child(a.quad, k)))
  }

  /** The new leaves that a pattern describes. */
  ghost function Apply(c: Arity, s: seq<Leaf>, pattern: seq<nat>): seq<Leaf>
    requires |s| == |pattern|
  {
    if s == [] then []
    else if pattern[0] == 0 then [s[0]] + Apply(c, s[1..], pattern[1..])
    else if pattern[0] == 1 then
      if s[0].quad == [] || |s| < c then []
      else [Leaf(s[0].tree, Parent(s[0].quad))] + Apply(c, s[c..], pattern[c..])
    else ChildLeaves(c, s[0]) + Apply(c, s[1..], pattern[1..])
  }

  /** A pattern that only marks families, with nothing else marked inside them. */
  ghost predicate Sound(c: Arity, s: seq<Leaf>, pattern: seq<nat>) {
    && |s| == |pattern|
    && (forall i :: 0 <= i < |s| ==> pattern[i] == 0 || pattern[i] == 1 || pattern[i] == c)
    && (forall i :: 0 <= i < |s| && pattern[i] == 1 ==> FamilyAt(c, s, i))
    && (forall i, j :: 0 <= i < |s| && pattern[i] == 1 && i < j < i + c ==> pattern[j] == 0)
  }

  /** The first pass leaves a sound pattern. */
  lemma FirstPassIsSound(r: Rule, s: seq<Leaf>, pattern: seq<nat>)
    requires |s| == |pattern| && forall i :: 0 <= i < |s| ==> pattern[i] == Entry(r, s, |s|, i)
    ensures Sound(r.c, s, pattern)
  {
    forall i, j | 0 <= i < |s| && pattern[i] == 1 && i < j < i + r.c
      ensures pattern[j] == 0
    {
      MemberId(r.c, r.Refined, s, i, j - i);
      FamilyStartsAtZero(r.c, s, j);
    }
  }

  lemma FamilyStartsAtZero(c: Arity, s: seq<Leaf>, i: nat)
    ensures FamilyAt(c, s, i) ==> ChildId(s[i].quad) == 0
  {
    if FamilyAt(c, s, i) {
      assert s[i] == Leaf(s[i].tree, Child(Parent(s[i].quad), 0));
    }
  }

  lemma SoundTail(c: Arity, s: seq<Leaf>, pattern: seq<nat>, k: nat)
    requires Sound(c, s, pattern) && k <= |s|
    ensures Sound(c, s[k..], pattern[k..])
  {
    var t, q := s[k..], pattern[k..];
    forall i | 0 <= i < |t| && q[i] == 1
      ensures FamilyAt(c, t, i)
    {
      assert FamilyAt(c, s, i + k);
      assert t[i] == s[i + k];
      forall j | i <= j < i + c
        ensures t[j] == Leaf(t[i].tree, Child(Parent(t[i].quad), j - i))
      {
        assert t[j] == s[j + k];
      }
    }
  }

  /** Concatenation of two runs that meet. */
  lemma FillsConcat(c: Arity, s: seq<Leaf>, t: seq<Leaf>, b: ForestPosition, m: ForestPosition, e: ForestPosition)
    requires Fills(c, s, b, m) && Fills(c, t, m, e)
    ensures Fills(c, s + t, b, e)
  {
    var u := s + t;
    if s == [] {
      assert u == t;
    } else if t == [] {
      assert u == s;
    } else {
      forall i, j | 0 <= i && j == i + 1 && j < |u|
        ensures EndOf(c, u[i]) == BeginOf(u[j])
      {
        if i == |s| - 1 {
          assert u[i] == s[i] && u[j] == t[0];
        }
      }
    }
  }

  lemma FillsSplit(c: Arity, s: seq<Leaf>, k: nat, b: ForestPosition, e: ForestPosition)
    requires k <= |s| && Fills(c, s, b, e)
    ensures Fills(c, s[..k], b, if k < |s| then BeginOf(s[k]) else e)
    ensures Fills(c, s[k..], if k < |s| then BeginOf(s[k]) else e, e)
  {
    if 0 < k < |s| {
      assert EndOf(c, s[k - 1]) == BeginOf(s[k]);
    }
  }

  lemma ChildrenFill(c: Arity, a: Leaf)
    requires IsQuad(c, a.quad)
    ensures Fills(c, ChildLeaves(c, a), BeginOf(a), EndOf(c, a))
  {
    var s := ChildLeaves(c, a);
    forall k | 0 <= k < c
      ensures Parent(s[k].quad) == a.quad && ChildId(s[k].quad) == k
    {
    }
  }

  /** The second pass covers the same part of the forest and writes as many leaves as the
      first pass counted. */
  lemma {:induction false} ApplyFills(c: Arity, s: seq<Leaf>, pattern: seq<nat>, b: ForestPosition, e: ForestPosition)
    requires Fills(c, s, b, e) && Sound(c, s, pattern)
    ensures Fills(c, Apply(c, s, pattern), b, e)
    decreases |s|
  {
    if s != [] {
      var k := if pattern[0] == 1 then c else 1;
      assert pattern[0] == 1 ==> FamilyAt(c, s, 0);
      var m := if k < |s| then BeginOf(s[k]) else e;
      FillsSplit(c, s, k, b, e);
      SoundTail(c, s, pattern, k);
      ApplyFills(c, s[k..], pattern[k..], m, e);
      var head := if pattern[0] == 0 then [s[0]]
                  else if pattern[0] == 1 then [Leaf(s[0].tree, Parent(s[0].quad))]
                  else ChildLeaves(c, s[0]);
      HeadFills(c, s, pattern[0], head, b, m);
      FillsConcat(c, head, Apply(c, s[k..], pattern[k..]), b, m, e);
    }
  }

  lemma HeadFills(c: Arity, s: seq<Leaf>, entry: nat, head: seq<Leaf>, b: ForestPosition, m: ForestPosition)
    requires s != [] && (entry == 0 || entry == 1 || entry == c) && (entry == 1 ==> FamilyAt(c, s, 0))
    requires Fills(c, s[..if entry == 1 then c else 1], b, m)
    requires head == if entry == 0 then [s[0]]
                     else if entry == 1 then [Leaf(s[0].tree, Parent(s[0].quad))]
                     else ChildLeaves(c, s[0])
    ensures Fills(c, head, b, m)
  {
    if entry == 1 {
      var p := Leaf(s[0].tree, Parent(s[0].quad));
      var f := s[..c];
      assert f[0] == s[0] && IsQuad(c, f[0].quad);
      assert f == ChildLeaves(c, p);
      ChildrenFill(c, p);
    } else {
      assert s[..1][0] == s[0];
      ChildrenFill(c, s[0]);
    }
  }

  lemma SoundFirst(c: Arity, s: seq<Leaf>, pattern: seq<nat>)
    requires Sound(c, s, pattern) && s != []
    ensures |s| == |pattern| && (pattern[0] == 0 || pattern[0] == 1 || pattern[0] == c)
    ensures pattern[0] == 1 ==> FamilyAt(c, s, 0) && s[0].quad != [] && c <= |s|
    ensures pattern[0] == 1 ==> forall j :: 0 < j < c ==> pattern[j] == 0
  {
  }

  lemma {:induction false} ApplyCounts(c: Arity, s: seq<Leaf>, pattern: seq<nat>)
    requires Sound(c, s, pattern)
    ensures |Apply(c, s, pattern)| == Weight(c, pattern)
    decreases |s|
  {
    assert |pattern| == |s|;
    hide Sound;
    if s != [] {
      SoundFirst(c, s, pattern);
      var k := if pattern[0] == 1 then c else 1;
      SoundTail(c, s, pattern, k);
      ApplyCounts(c, s[k..], pattern[k..]);
      WeightOfHead(c, pattern, k);
    }
  }

  lemma WeightOfHead(c: Arity, pattern: seq<nat>, k: nat)
    requires pattern != [] && k <= |pattern| && k == if pattern[0] == 1 then c else 1
    requires pattern[0] == 1 ==> forall j :: 0 < j < c ==> pattern[j] == 0
    ensures Weight(c, pattern) == Weight(c, pattern[k..]) + if k == 1 then EntryWeight(c, pattern[0]) else 1
  {
    assert pattern == pattern[..k] + pattern[k..];
    WeightConcat(c, pattern[..k], pattern[k..]);
    if k == 1 {
      assert pattern[..1][..0] == [];
    } else {
      WeightOfFamily(c, pattern[..c]);
    }
  }

  lemma {:induction false} WeightConcat(c: Arity, x: seq<nat>, y: seq<nat>)
    ensures Weight(c, x + y) == Weight(c, x) + Weight(c, y)
  {
    if y == [] {
      assert x + y == x;
    } else {
      var n := |y| - 1;
      assert (x + y)[..|x + y| - 1] == x + y[..n];
      WeightConcat(c, x, y[..n]);
    }
  }

  lemma {:induction false} WeightOfFamily(c: Arity, f: seq<nat>)
    requires f != [] && f[0] == 1 && forall j :: 0 < j < |f| ==> f[j] == 0
    ensures Weight(c, f) == 1 - c + |f|
  {
    if |f| > 1 {
      WeightOfFamily(c, f[..|f| - 1]);
    } else {
      assert f[..0] == [];
    }
  }

  // ---------------------------------------------------------------- second pass: the loops

  /** Offsets of the local trees' leaf arrays inside the local leaves. */
  ghost predicate TreeOffsets(s: seq<Leaf>, first: nat, offsets: seq<nat>) {
    && |offsets| > 0 && offsets[0] == 0 && offsets[|offsets| - 1] == |s|
    && (forall t, u :: 0 <= t && u == t + 1 && u < |offsets| ==> offsets[t] <= offsets[u] <= |s|)
    && (forall t, u, i :: 0 <= t && u == t + 1 && u < |offsets| && offsets[t] <= i < offsets[u] ==>
          s[i].tree == first + t)
  }

  /** What is written, and what the rest of the pattern will add, is the whole answer. */
  ghost predicate Written(c: Arity, s: seq<Leaf>, pattern: seq<nat>, out: seq<Leaf>, i: nat, done: nat) {
    && |s| == |pattern| && i <= |s| && done <= |out|
    && Apply(c, s, pattern) == out[..done] + Apply(c, s[i..], pattern[i..])
  }

  /** New leaves for the entry at i. */
  ghost function Head(c: Arity, s: seq<Leaf>, pattern: seq<nat>, i: nat): seq<Leaf>
    requires i < |s| == |pattern|
  {
    if pattern[i] == 0 then [s[i]]
    else if pattern[i] == 1 then (if s[i].quad == [] then [] else [Leaf(s[i].tree, Parent(s[i].quad))])
    else ChildLeaves(c, s[i])
  }

  lemma WrittenStep(c: Arity, s: seq<Leaf>, pattern: seq<nat>, out: seq<Leaf>, out': seq<Leaf>, i: nat, done: nat)
    requires Sound(c, s, pattern) && i < |s| && Written(c, s, pattern, out, i, done)
    requires done + |Head(c, s, pattern, i)| <= |out'|
    requires out'[..done] == out[..done] && out'[done..done + |Head(c, s, pattern, i)|] == Head(c, s, pattern, i)
    ensures pattern[i] == 1 ==> FamilyAt(c, s, i)
    ensures Written(c, s, pattern, out', if pattern[i] == 1 then i + c else i + 1, done + |Head(c, s, pattern, i)|)
  {
    var k := if pattern[i] == 1 then c else 1;
    var h := Head(c, s, pattern, i);
    ApplyAt(c, s, pattern, i);
    hide Apply, Head, Sound;
    assert out'[..done + |h|] == out'[..done] + h;
  }

  lemma ApplyAt(c: Arity, s: seq<Leaf>, pattern: seq<nat>, i: nat)
    requires Sound(c, s, pattern) && i < |s|
    ensures pattern[i] == 1 ==> FamilyAt(c, s, i)
    ensures var k := if pattern[i] == 1 then c else 1;
            i + k <= |s| && Apply(c, s[i..], pattern[i..]) ==
              Head(c, s, pattern, i) + Apply(c, s[i + k..], pattern[i + k..])
  {
    var k := if pattern[i] == 1 then c else 1;
    assert s[i..][k..] == s[i + k..] && pattern[i..][k..] == pattern[i + k..];
  }

  /** There is room in the new array for what the entry at i adds. */
  lemma RoomForHead(c: Arity, s: seq<Leaf>, pattern: seq<nat>, out: seq<Leaf>, i: nat, done: nat)
    requires Sound(c, s, pattern) && i < |s| && Written(c, s, pattern, out, i, done)
    requires |out| == |Apply(c, s, pattern)|
    ensures pattern[i] == 1 ==> FamilyAt(c, s, i)
    ensures done + |Head(c, s, pattern, i)| <= |out|
  {
    ApplyAt(c, s, pattern, i);
  }

  /** A family does not leave its tree. */
  lemma FamilyStaysInTree(c: Arity, s: seq<Leaf>, first: nat, offsets: seq<nat>, t: nat, i: nat)
    requires TreeOffsets(s, first, offsets) && t + 1 < |offsets| && offsets[t] <= i < offsets[t + 1]
    requires FamilyAt(c, s, i)
    ensures i + c <= offsets[t + 1]
  {
    var last := i + c - 1;
    assert s[last] == Leaf(s[i].tree, Child(Parent(s[i].quad), c - 1));
    if last >= offsets[t + 1] {
      LaterTree(s, first, offsets, t + 1, last);
    }
  }

  lemma LaterTree(s: seq<Leaf>, first: nat, offsets: seq<nat>, t: nat, i: nat)
    requires TreeOffsets(s, first, offsets) && t < |offsets| && offsets[t] <= i < |s|
    ensures s[i].tree >= first + t
    decreases |offsets| - t
  {
    assert offsets[t] <= offsets[if t + 1 < |offsets| then t + 1 else t];
    if offsets[t + 1] <= i {
      LaterTree(s, first, offsets, t + 1, i);
    }
  }

  method WriteChildren(c: Arity, treeid: nat, q: Quad, out: array<Leaf>, at: nat)
    requires at + c <= out.Length
    modifies out
    ensures out[..][..at] == old(out[..])[..at]
    ensures out[..][at..at + c] == ChildLeaves(c, Leaf(treeid, q))
  {
    var nch := 0;
    while nch < c
      invariant 0 <= nch <= c
      invariant forall k :: 0 <= k < at ==> out[k] == old(out[k])
      invariant forall k :: at <= k < at + nch ==> out[k] == Leaf(treeid, Child(q, k - at))
    {
      out[at + nch] := Leaf(treeid, Child(q, nch));
      nch := nch + 1;
    }
  }

  /** p4est3_pattern_populate_tree_ref_coar for one local tree. */
  method PopulateTree(c: Arity, ghost s: seq<Leaf>, treeid: nat, tquads: seq<Quad>, quadOffset: nat, pattern: seq<nat>,
                      out: array<Leaf>, ltOffset: nat, ghost first: nat, ghost offsets: seq<nat>)
    returns (ltOffset': nat)
    requires Sound(c, s, pattern) && out.Length == |Apply(c, s, pattern)|
    requires TreeOffsets(s, first, offsets) && first <= treeid && treeid - first + 1 < |offsets|
    requires quadOffset == offsets[treeid - first] && quadOffset + |tquads| == offsets[treeid - first + 1]
    requires forall i :: 0 <= i < |tquads| ==> s[quadOffset + i] == Leaf(treeid, tquads[i])
    requires Written(c, s, pattern, out[..], quadOffset, ltOffset)
    modifies out
    ensures Written(c, s, pattern, out[..], quadOffset + |tquads|, ltOffset')
  {
    hide Sound, Written, TreeOffsets, Apply, FamilyAt;
    var i, nNewQuads := 0, 0;
    while i < |tquads|
      invariant 0 <= i <= |tquads| && 0 <= nNewQuads
      invariant Written(c, s, pattern, out[..], quadOffset + i, ltOffset + nNewQuads)
    {
      ghost var p, done, before := quadOffset + i, ltOffset + nNewQuads, out[..];
      InRange(s, first, offsets, treeid - first, p, pattern, c);
      RoomForHead(c, s, pattern, out[..], p, done);
      var insert := pattern[quadOffset + i];
      var quadOld := tquads[i];
      assert s[quadOffset + i] == Leaf(treeid, quadOld);
      if insert == 0 {
        out[ltOffset + nNewQuads] := Leaf(treeid, quadOld);
        assert out[..][..done] == before[..done] && out[..][done..done + 1] == Head(c, s, pattern, p);
        WrittenStep(c, s, pattern, before, out[..], p, done);
        nNewQuads := nNewQuads + 1;
        i := i + 1;
      } else if insert == 1 {
        FamilyStaysInTree(c, s, first, offsets, treeid - first, p);
        out[ltOffset + nNewQuads] := Leaf(treeid, Parent(quadOld));
        assert out[..][..done] == before[..done] && out[..][done..done + 1] == Head(c, s, pattern, p);
        WrittenStep(c, s, pattern, before, out[..], p, done);
        nNewQuads := nNewQuads + 1;
        i := i + c;
      } else {
        WriteChildren(c, treeid, quadOld, out, ltOffset + nNewQuads);
        WrittenStep(c, s, pattern, before, out[..], p, done);
        nNewQuads := nNewQuads + c;
        i := i + 1;
      }
    }
    ltOffset' := ltOffset + nNewQuads;
  }

  lemma InRange(s: seq<Leaf>, first: nat, offsets: seq<nat>, t: nat, i: nat, pattern: seq<nat>, c: Arity)
    requires TreeOffsets(s, first, offsets) && t + 1 < |offsets| && i < offsets[t + 1] && Sound(c, s, pattern)
    ensures i < |s| == |pattern| && (pattern[i] == 0 || pattern[i] == 1 || pattern[i] == c)
    ensures pattern[i] == 1 ==> FamilyAt(c, s, i) && s[i].quad != []
  {
    assert offsets[t] <= offsets[t + 1];
  }

  /** Fills the new leaf array tree by tree. */
  method SecondPass(c: Arity, s: seq<Leaf>, pattern: seq<nat>, first: nat, offsets: seq<nat>, out: array<Leaf>)
    requires Sound(c, s, pattern) && TreeOffsets(s, first, offsets) && out.Length == |Apply(c, s, pattern)|
    modifies out
    ensures out[..] == Apply(c, s, pattern)
  {
    assert |offsets| > 0 && |s| == |pattern|;
    hide Sound, Apply, Written, TreeOffsets;
    var ltOffset, t := 0, 0;
    NothingWritten(c, s, pattern, out[..]);
    OffsetsAt(s, first, offsets, 0);
    while t + 1 < |offsets|
      invariant 0 <= t < |offsets| && 0 <= ltOffset && offsets[t] <= |s|
      invariant Written(c, s, pattern, out[..], offsets[t], ltOffset)
    {
      OffsetsAt(s, first, offsets, t + 1);
      var tquads := TreeQuads(s, offsets[t], offsets[t + 1]);
      ltOffset := PopulateTree(c, s, first + t, tquads, offsets[t], pattern, out, ltOffset, first, offsets);
      t := t + 1;
    }
    AllWritten(c, s, pattern, out[..], ltOffset);
  }

  /** The leaf array of one tree. */
  function TreeQuads(s: seq<Leaf>, lo: nat, hi: nat): (q: seq<Quad>)
    requires lo <= hi <= |s|
    ensures |q| == hi - lo && forall i :: 0 <= i < |q| ==> q[i] == s[lo + i].quad
  {
    seq(hi - lo, i requires 0 <= i < hi - lo => s[lo + i].quad)
  }

  // ---------------------------------------------------------------- both passes

  /** A local family without a member to be refined, to which the callback says yes: it is
      asked with the family itself unless an unfinished run of siblings stands before it. */
  ghost predicate Merged(r: Rule, s: seq<Leaf>, p: nat) {
    && FamilyAt(r.c, s, p)
    && (forall j :: p <= j < p + r.c ==> !(|s[j].quad| < r.qmaxlevel && r.refine(s[j])))
    && r.accept(p, if OpenRun(r, s, p) then Family(r, s, p + r.c) else s[p..p + r.c])
  }

  /** The new leaf x stands for the old leaf i: one of its children, its parent or itself. */
  ghost predicate ComesFrom(r: Rule, s: seq<Leaf>, i: nat, x: Leaf)
    requires i < |s|
  {
    if |s[i].quad| < r.qmaxlevel && r.refine(s[i]) then
      exists k: nat :: k < r.c && x == Leaf(s[i].tree, Child(s[i].quad, k))
    else if exists p: nat :: p <= i < p + r.c && Merged(r, s, p) then
      s[i].quad != [] && x == Leaf(s[i].tree, Parent(s[i].quad))
    else x == s[i]
  }

  lemma TakenIsMerged(r: Rule, s: seq<Leaf>, p: nat)
    requires Contiguous(r.c, s)
    ensures Taken(r, s, p) <==> Merged(r, s, p)
  {
    hide Contiguous, FamilyAt, OpenRun, Family;
    if p + r.c <= |s| && FreeFamilyAt(r.c, r.Refined, s, p) {
      FamilyArrayIff(r, s, p);
    } else if FamilyAt(r.c, s, p) {
      FamilyHasRoom(r.c, s, p);
    }
  }

  lemma FamilyHasRoom(c: Arity, s: seq<Leaf>, p: nat)
    requires FamilyAt(c, s, p)
    ensures p + c <= |s|
  {
  }

  /** What a pattern makes of leaf i. */
  ghost predicate Gives(c: Arity, s: seq<Leaf>, pattern: seq<nat>, i: nat, x: Leaf)
    requires i < |s| == |pattern|
  {
    if pattern[i] == c then x in ChildLeaves(c, s[i])
    else if exists p: nat :: MarkedOver(c, pattern, p, i) then
      s[i].quad != [] && x == Leaf(s[i].tree, Parent(s[i].quad))
    else x == s[i]
  }

  ghost predicate MarkedOver(c: Arity, pattern: seq<nat>, p: nat, i: nat) {
    p <= i < p + c && p < |pattern| && pattern[p] == 1
  }

  /** The entry at i stands for leaf i, or for all members of the family that starts there. */
  lemma HeadMembers(c: Arity, s: seq<Leaf>, pattern: seq<nat>, i: nat, x: Leaf)
    requires Sound(c, s, pattern) && i < |s| && forall p: nat :: p < i ==> !MarkedOver(c, pattern, p, i)
    ensures pattern[i] != 1 ==> (x in Head(c, s, pattern, i) <==> Gives(c, s, pattern, i, x))
    ensures pattern[i] == 1 ==> i + c <= |s| && forall j :: i <= j < i + c ==>
              (x in Head(c, s, pattern, i) <==> Gives(c, s, pattern, j, x))
  {
    if pattern[i] == 1 {
      assert FamilyAt(c, s, i);
      forall j | i <= j < i + c
        ensures x in Head(c, s, pattern, i) <==> Gives(c, s, pattern, j, x)
      {
        assert MarkedOver(c, pattern, i, j);
        assert s[j] == Leaf(s[i].tree, Child(Parent(s[i].quad), j - i));
        ChildOf(Parent(s[i].quad), j - i);
      }
    }
  }

  lemma {:induction false} ApplyMembers(c: Arity, s: seq<Leaf>, pattern: seq<nat>, i: nat, x: Leaf)
    requires Sound(c, s, pattern) && i <= |s| && forall p: nat :: p < i ==> !MarkedOver(c, pattern, p, i)
    ensures x in Apply(c, s[i..], pattern[i..]) <==> exists j: nat :: i <= j < |s| && Gives(c, s, pattern, j, x)
    decreases |s| - i
  {
    hide Head, Gives, Apply;
    if i < |s| {
      ApplyAt(c, s, pattern, i);
      var k := if pattern[i] == 1 then c else 1;
      HeadMembers(c, s, pattern, i, x);
      var next := i + k;
      forall p: nat | p < next
        ensures !MarkedOver(c, pattern, p, next)
      {
        assert p < i ==> !MarkedOver(c, pattern, p, i);
      }
      ApplyMembers(c, s, pattern, next, x);
      assert x in Head(c, s, pattern, i) <==> exists j: nat :: i <= j < i + k && Gives(c, s, pattern, j, x) by {
        assert Gives(c, s, pattern, i, x) <==> x in Head(c, s, pattern, i);
      }
    } else {
      assert Apply(c, s[i..], pattern[i..]) == [] by {
        NothingLeft(c, s[i..], pattern[i..]);
      }
    }
  }

  lemma NothingLeft(c: Arity, s: seq<Leaf>, pattern: seq<nat>)
    requires s == [] && pattern == []
    ensures Apply(c, s, pattern) == []
  {
  }

  /** The pattern of the first pass makes of every leaf what the callbacks say. */
  lemma GivesIsComesFrom(r: Rule, s: seq<Leaf>, pattern: seq<nat>, i: nat, x: Leaf)
    requires Contiguous(r.c, s) && |s| == |pattern| && i < |s|
    requires forall j :: 0 <= j < |s| ==> pattern[j] == Entry(r, s, |s|, j)
    ensures Gives(r.c, s, pattern, i, x) <==> ComesFrom(r, s, i, x)
  {
    forall p: nat
      ensures MarkedOver(r.c, pattern, p, i) <==> p <= i < p + r.c && Merged(r, s, p)
    {
      MarkedIsMerged(r, s, pattern, p);
    }
    MarkedIsMerged(r, s, pattern, i);
    ChildLeavesHas(r.c, s[i], x);
    hide MarkedOver, Merged, Entry;
  }

  lemma MarkedIsMerged(r: Rule, s: seq<Leaf>, pattern: seq<nat>, p: nat)
    requires Contiguous(r.c, s) && |s| == |pattern|
    requires forall j :: 0 <= j < |s| ==> pattern[j] == Entry(r, s, |s|, j)
    ensures p < |s| && pattern[p] == 1 <==> Merged(r, s, p)
    ensures p < |s| ==> (pattern[p] == r.c <==> |s[p].quad| < r.qmaxlevel && r.refine(s[p]))
  {
    TakenIsMerged(r, s, p);
  }

  lemma ChildLeavesHas(c: Arity, a: Leaf, x: Leaf)
    ensures x in ChildLeaves(c, a) <==> exists k: nat :: k < c && x == Leaf(a.tree, Child(a.quad, k))
  {
    if k: nat :| k < c && x == Leaf(a.tree, Child(a.quad, k)) {
      assert ChildLeaves(c, a)[k] == x;
    }
  }

  lemma AllNewLeaves(r: Rule, s: seq<Leaf>, pattern: seq<nat>, x: Leaf)
    requires Contiguous(r.c, s) && |s| == |pattern|
    requires forall j :: 0 <= j < |s| ==> pattern[j] == Entry(r, s, |s|, j)
    ensures x in Apply(r.c, s, pattern) <==> exists i: nat :: i < |s| && ComesFrom(r, s, i, x)
  {
    hide Contiguous, Entry, Gives, ComesFrom, Apply;
    FirstPassIsSound(r, s, pattern);
    ApplyMembers(r.c, s, pattern, 0, x);
    assert s[0..] == s && pattern[0..] == pattern;
    forall i: nat | i < |s|
      ensures Gives(r.c, s, pattern, i, x) <==> ComesFrom(r, s, i, x)
    {
      GivesIsComesFrom(r, s, pattern, i, x);
    }
  }

  /** Both passes: a leaf to be refined becomes its children, an accepted family its parent,
      every other leaf stays, and there is nothing else; the new leaves fill the same part of
      the forest and are as many as the first pass announced. */
  method RefineCoarsen(r: Rule, s: seq<Leaf>, first: nat, offsets: seq<nat>, b: ForestPosition, e: ForestPosition)
    returns (data: CallbackData, out: array<Leaf>)
    requires Fills(r.c, s, b, e) && TreeOffsets(s, first, offsets)
    ensures data.Visited(r, s, |s|) && out.Length == data.nNew
    ensures out[..] == Apply(r.c, s, data.pattern[..]) && Fills(r.c, out[..], b, e)
    ensures forall x :: x in out[..] <==> exists i: nat :: i < |s| && ComesFrom(r, s, i, x)
  {
    hide Fills, Sound, Apply, Written, TreeOffsets, CallbackData.Visited, ComesFrom;
    FillsIsContiguous(r.c, s, b, e);
    data := FirstPass(r, s);
    VisitedPattern(data, r, s);
    ApplyFills(r.c, s, data.pattern[..], b, e);
    out := new Leaf[data.nNew](_ => Leaf(0, []));
    SecondPass(r.c, s, data.pattern[..], first, offsets, out);
    forall x
      ensures x in out[..] <==> exists i: nat :: i < |s| && ComesFrom(r, s, i, x)
    {
      VisitedEntries(data, r, s);
      AllNewLeaves(r, s, data.pattern[..], x);
    }
  }

  lemma VisitedEntries(data: CallbackData, r: Rule, s: seq<Leaf>)
    requires data.Visited(r, s, |s|)
    ensures data.pattern.Length == |s| && forall i :: 0 <= i < |s| ==> data.pattern[..][i] == Entry(r, s, |s|, i)
  {
  }

  lemma VisitedPattern(data: CallbackData, r: Rule, s: seq<Leaf>)
    requires data.Visited(r, s, |s|)
    ensures data.pattern.Length == |s| && Sound(r.c, s, data.pattern[..])
    ensures data.nNew == |Apply(r.c, s, data.pattern[..])|
  {
    var pattern := data.pattern[..];
    FirstPassIsSound(r, s, pattern);
    ApplyCounts(r.c, s, pattern);
    assert pattern[..|s|] == pattern;
  }

  lemma FillsIsContiguous(c: Arity, s: seq<Leaf>, b: ForestPosition, e: ForestPosition)
    requires Fills(c, s, b, e)
    ensures Contiguous(c, s)
  {
  }

  lemma OffsetsAt(s: seq<Leaf>, first: nat, offsets: seq<nat>, t: nat)
    requires TreeOffsets(s, first, offsets) && t < |offsets|
    ensures offsets[t] <= |s| && offsets[0] == 0 && offsets[|offsets| - 1] == |s|
    ensures t > 0 ==> offsets[t - 1] <= offsets[t] && forall i :: offsets[t - 1] <= i < offsets[t] ==>
              s[i].tree == first + t - 1
  {
    if t > 0 {
      assert offsets[t - 1] <= offsets[t];
    }
  }

  lemma NothingWritten(c: Arity, s: seq<Leaf>, pattern: seq<nat>, out: seq<Leaf>)
    requires |s| == |pattern| && |out| == |Apply(c, s, pattern)|
    ensures Written(c, s, pattern, out, 0, 0)
  {
    assert s[0..] == s && pattern[0..] == pattern && out[..0] == [];
  }

  lemma AllWritten(c: Arity, s: seq<Leaf>, pattern: seq<nat>, out: seq<Leaf>, done: nat)
    requires |s| == |pattern| && |out| == |Apply(c, s, pattern)| && Written(c, s, pattern, out, |s|, done)
    ensures out == Apply(c, s, pattern)
  {
    assert Apply(c, s[|s|..], pattern[|s|..]) == [] && out[..done] == out;
  }

  /** The mixed family array of the source: child 0 and the four children of child 1.  The
      family of the grandchildren is found, but its array still holds the elder in front. */
  lemma MixedFamilyArray(r: Rule)
    requires r.c == 4 && forall a :: !r.refine(a)
    ensures Contiguous(4, MixedLeaves()) && FreeFamilyAt(4, r.Refined, MixedLeaves(), 1)
    ensures Family(r, MixedLeaves(), 5) != MixedLeaves()[1..5]
  {
    MixedIsContiguous();
    MixedIsFree(r);
    hide Contiguous, FreeFamilyAt, Family;
    FamilyArrayIff(r, MixedLeaves(), 1);
  }

  function MixedLeaves(): (s: seq<Leaf>)
    ensures |s| == 5
  {
    [Leaf(0, [0]), Leaf(0, [1, 0]), Leaf(0, [1, 1]), Leaf(0, [1, 2]), Leaf(0, [1, 3])]
  }

  lemma MixedIsContiguous()
    ensures Contiguous(4, MixedLeaves())
  {
    var s := MixedLeaves();
    hide EndOf, BeginOf;
    forall i, j | 0 <= i && j == i + 1 && j < 5
      ensures EndOf(4, s[i]) == BeginOf(s[j])
    {
      MixedStep(4, s[i], s[j], i);
    }
  }

  lemma MixedStep(c: Arity, a: Leaf, b: Leaf, i: nat)
    requires c == 4 && i < 4 && a.tree == b.tree && a.quad == (if i == 0 then [0] else Child([1], i - 1))
    requires b.quad == Child([1], i)
    ensures EndOf(c, a) == BeginOf(b)
  {
    var p := Parent(b.quad);
    assert p == [1] && CornerOf(p) == p;
    assert i == 0 ==> Sibling(a.quad, 1) == p;
    assert i > 0 ==> Parent(a.quad) == p;
  }

  lemma MixedIsFree(r: Rule)
    requires forall a :: !r.refine(a)
    ensures FreeFamilyAt(4, r.Refined, MixedLeaves(), 1)
  {
    var s := MixedLeaves();
    assert Parent(s[1].quad) == [1];
    forall j | 1 <= j < 5
      ensures s[j] == Leaf(0, Child([1], j - 1))
    {
    }
  }
}
