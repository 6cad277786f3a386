/** Complete subtrees inside the shared leaf array: what a range of leaf indices stands for. */
module Subtrees {
  import opened Quadrants

  datatype Tree = Leaf | Node(kids: seq<Tree>)

  ghost predicate Shape(c: Arity, t: Tree) {
    t.Leaf? || (|t.kids| == c && forall i :: 0 <= i < |t.kids| ==> Shape(c, t.kids[i]))
  }

  /** The leaves of a subtree rooted at quadrant p, in order. */
  ghost function Leaves(t: Tree, p: Quad): (s: seq<Quad>)
    decreases t
  {
    if t.Leaf? then [p] else LeavesFrom(t, p, 0)
  }

  ghost function LeavesFrom(t: Tree, p: Quad, i: nat): (s: seq<Quad>)
    requires t.Node? && i <= |t.kids|
    decreases t, |t.kids| - i
  {
    if i == |t.kids| then [] else Leaves(t.kids[i], Child(p, i)) + LeavesFrom(t, p, i + 1)
  }

  ghost function Count(t: Tree): (n: nat)
    decreases t
  {
    if t.Leaf? then 1 else CountFrom(t, 0)
  }

  ghost function CountFrom(t: Tree, i: nat): (n: nat)
    requires t.Node? && i <= |t.kids|
    decreases t, |t.kids| - i
  {
    if i == |t.kids| then 0 else Count(t.kids[i]) + CountFrom(t, i + 1)
  }

  /** Where child i starts, counted from the start of the subtree. */
  ghost function Offset(t: Tree, i: nat): nat
    requires t.Node? && i <= |t.kids|
  {
    if i == 0 then 0 else Offset(t, i - 1) + Count(t.kids[i - 1])
  }

  ghost function Splits(t: Tree): seq<int>
    requires t.Node?
  {
    seq(|t.kids| + 1, i requires 0 <= i <= |t.kids| => Offset(t, i))
  }

  /** The subtree t at p is stored from index b on. */
  ghost predicate Holds(quads: seq<Quad>, b: nat, t: Tree, p: Quad) {
    b + Count(t) <= |quads| && quads[b..b + Count(t)] == Leaves(t, p)
  }

  // ---------------------------------------------------------------- sizes

  lemma {:induction false} LeavesCount(c: Arity, t: Tree, p: Quad)
    requires Shape(c, t)
    ensures |Leaves(t, p)| == Count(t) >= 1
    ensures t.Node? ==> Count(t) >= c
    decreases t
  {
    if t.Node? {
      LeavesFromCount(c, t, p, 0);
    }
  }

  lemma {:induction false} LeavesFromCount(c: Arity, t: Tree, p: Quad, i: nat)
    requires Shape(c, t) && t.Node? && i <= c
    ensures |LeavesFrom(t, p, i)| == CountFrom(t, i) >= c - i
    decreases t, c - i
  {
    if i < c {
      LeavesCount(c, t.kids[i], Child(p, i));
      LeavesFromCount(c, t, p, i + 1);
    }
  }

  lemma {:induction false} OffsetPlusRest(c: Arity, t: Tree, i: nat)
    requires Shape(c, t) && t.Node? && i <= c
    ensures Offset(t, i) + CountFrom(t, i) == Count(t)
    ensures Offset(t, i) >= i
  {
    if i > 0 {
      OffsetPlusRest(c, t, i - 1);
      LeavesCount(c, t.kids[i - 1], []);
    }
  }

  lemma {:induction false} LeavesSuffix(c: Arity, t: Tree, p: Quad, i: nat)
    requires Shape(c, t) && t.Node? && i <= c
    ensures Offset(t, i) <= |Leaves(t, p)| && Leaves(t, p)[Offset(t, i)..] == LeavesFrom(t, p, i)
  {
    OffsetPlusRest(c, t, i);
    LeavesCount(c, t, p);
    if i > 0 {
      LeavesSuffix(c, t, p, i - 1);
      LeavesCount(c, t.kids[i - 1], Child(p, i - 1));
      var l := Leaves(t, p);
      assert l[Offset(t, i)..] == l[Offset(t, i - 1)..][Count(t.kids[i - 1])..];
    }
  }

  /** A child of a stored subtree is stored at its offset. */
  lemma HoldsKid(c: Arity, quads: seq<Quad>, b: nat, t: Tree, p: Quad, i: nat)
    requires Shape(c, t) && t.Node? && Holds(quads, b, t, p) && i < c
    ensures Holds(quads, b + Offset(t, i), t.kids[i], Child(p, i))
    ensures Shape(c, t.kids[i]) && Count(t.kids[i]) < Count(t)
    ensures Offset(t, i + 1) == Offset(t, i) + Count(t.kids[i]) <= Count(t)
  {
    KidSlice(c, t, p, i);
    hide Leaves, LeavesFrom, Count, Offset, Shape;
    LeavesCount(c, t, p);
    var o, n := Offset(t, i), Count(t.kids[i]);
    SliceOfSlice(quads, b, b + Count(t), o, o + n);
  }

  lemma SliceOfSlice<T>(s: seq<T>, b: nat, e: nat, x: nat, y: nat)
    requires b <= e <= |s| && x <= y <= e - b
    ensures s[b..e][x..y] == s[b + x..b + y]
  {
    var u := s[b..e];
    forall i | 0 <= i < y - x
      ensures u[x..y][i] == s[b + x..b + y][i]
    {
      assert u[x + i] == s[b + (x + i)];
    }
  }

  lemma KidSlice(c: Arity, t: Tree, p: Quad, i: nat)
    requires Shape(c, t) && t.Node? && i < c
    ensures Shape(c, t.kids[i]) && Count(t.kids[i]) < Count(t)
    ensures Offset(t, i + 1) == Offset(t, i) + Count(t.kids[i]) <= Count(t) == |Leaves(t, p)|
    ensures Leaves(t, p)[Offset(t, i)..Offset(t, i) + Count(t.kids[i])] == Leaves(t.kids[i], Child(p, i))
  {
    KidOffset(c, t, i);
    KidIsSmaller(c, t, i);
    KidFirst(t, p, i);
    hide Leaves, LeavesFrom, Count, CountFrom, Offset, Child, Shape;
    LeavesSuffix(c, t, p, i);
    LeavesCount(c, t, p);
    LeavesCount(c, t.kids[i], Child(p, i));
    PrefixOfSuffix(Leaves(t, p), Offset(t, i), Leaves(t.kids[i], Child(p, i)), LeavesFrom(t, p, i + 1));
  }

  lemma PrefixOfSuffix<T>(s: seq<T>, o: nat, a: seq<T>, b: seq<T>)
    requires o <= |s| && s[o..] == a + b
    ensures o + |a| <= |s| && s[o..o + |a|] == a
  {
    assert |s[o..]| == |a| + |b|;
    forall i | 0 <= i < |a|
      ensures s[o + i] == a[i]
    {
      assert s[o..][i] == (a + b)[i];
    }
  }

  lemma KidFirst(t: Tree, p: Quad, i: nat)
    requires t.Node? && i < |t.kids|
    ensures LeavesFrom(t, p, i) == Leaves(t.kids[i], Child(p, i)) + LeavesFrom(t, p, i + 1)
  {
  }

  lemma KidOffset(c: Arity, t: Tree, i: nat)
    requires Shape(c, t) && t.Node? && i < c
    ensures Offset(t, i + 1) == Offset(t, i) + Count(t.kids[i]) <= Count(t)
  {
    OffsetPlusRest(c, t, i + 1);
  }

  lemma KidIsSmaller(c: Arity, t: Tree, i: nat)
    requires Shape(c, t) && t.Node? && i < c
    ensures Count(t.kids[i]) < Count(t)
  {
    OffsetPlusRest(c, t, i);
    LeavesFromCount(c, t, [], i + 1);
  }

  // ---------------------------------------------------------------- levels

  lemma {:induction false} LeavesBelow(c: Arity, t: Tree, p: Quad, k: nat)
    requires Shape(c, t) && k < |Leaves(t, p)|
    ensures p <= Leaves(t, p)[k]
    ensures t.Node? ==> |Leaves(t, p)[k]| > |p| && Leaves(t, p)[k][|p|] < c
    decreases t
  {
    if t.Node? {
      LeavesFromBelow(c, t, p, 0, k);
    }
  }

  lemma {:induction false} LeavesFromBelow(c: Arity, t: Tree, p: Quad, i: nat, k: nat)
    requires Shape(c, t) && t.Node? && i <= c && k < |LeavesFrom(t, p, i)|
    ensures p < LeavesFrom(t, p, i)[k] && i <= LeavesFrom(t, p, i)[k][|p|] < c
    ensures LeavesFrom(t, p, i)[k][|p|] == i <==> k < Count(t.kids[if i < c then i else 0]) && i < c
    decreases t, c - i
  {
    if i < c {
      var h := Leaves(t.kids[i], Child(p, i));
      LeavesCount(c, t.kids[i], Child(p, i));
      if k < |h| {
        LeavesBelow(c, t.kids[i], Child(p, i), k);
        assert Child(p, i)[..|p|] == p && Child(p, i)[|p|] == i;
      } else {
        LeavesFromBelow(c, t, p, i + 1, k - |h|);
      }
    }
  }

  /** The level of the first leaf tells whether the subtree is a leaf. */
  lemma FirstLeafLevel(c: Arity, quads: seq<Quad>, b: nat, t: Tree, p: Quad)
    requires Shape(c, t) && Holds(quads, b, t, p)
    ensures b < |quads| && p <= quads[b] && (|quads[b]| == |p| <==> t.Leaf?)
    ensures t.Leaf? ==> quads[b] == p && Count(t) == 1
  {
    LeavesCount(c, t, p);
    assert quads[b] == quads[b..b + Count(t)][0];
    LeavesBelow(c, t, p, 0);
  }

  // ---------------------------------------------------------------- a range names its subtree

  /** Leaf sequences of complete subtrees are self-delimiting. */
  lemma {:induction false} LeavesDetermineTree(c: Arity, t: Tree, u: Tree, p: Quad, x: seq<Quad>, y: seq<Quad>)
    requires Shape(c, t) && Shape(c, u) && Leaves(t, p) + x == Leaves(u, p) + y
    ensures t == u && x == y
    decreases t
  {
    LeavesCount(c, t, p);
    LeavesCount(c, u, p);
    assert (Leaves(t, p) + x)[0] == Leaves(t, p)[0] && (Leaves(u, p) + y)[0] == Leaves(u, p)[0];
    LeavesBelow(c, t, p, 0);
    LeavesBelow(c, u, p, 0);
    if t.Leaf? {
      assert x == (Leaves(t, p) + x)[1..] && y == (Leaves(u, p) + y)[1..];
    } else {
      LeavesFromDetermineKids(c, t, u, p, 0, x, y);
      assert t.kids == u.kids;
    }
  }

  lemma {:induction false} LeavesFromDetermineKids(c: Arity, t: Tree, u: Tree, p: Quad, i: nat, x: seq<Quad>,
                                                   y: seq<Quad>)
    requires Shape(c, t) && Shape(c, u) && t.Node? && u.Node? && i <= c
    requires LeavesFrom(t, p, i) + x == LeavesFrom(u, p, i) + y
    ensures t.kids[i..] == u.kids[i..] && x == y
    decreases t, c - i
  {
    if i < c {
      var q := Child(p, i);
      assert LeavesFrom(t, p, i) + x == Leaves(t.kids[i], q) + (LeavesFrom(t, p, i + 1) + x);
      assert LeavesFrom(u, p, i) + y == Leaves(u.kids[i], q) + (LeavesFrom(u, p, i + 1) + y);
      LeavesDetermineTree(c, t.kids[i], u.kids[i], q, LeavesFrom(t, p, i + 1) + x, LeavesFrom(u, p, i + 1) + y);
      LeavesFromDetermineKids(c, t, u, p, i + 1, x, y);
      assert t.kids[i..] == [t.kids[i]] + t.kids[i + 1..];
      assert u.kids[i..] == [u.kids[i]] + u.kids[i + 1..];
    } else {
      assert LeavesFrom(t, p, i) + x == x && LeavesFrom(u, p, i) + y == y;
    }
  }

  /** Level and first index determine the subtree and hence the end of its range. */
  lemma SameStartSameSubtree(c: Arity, quads: seq<Quad>, b: nat, t: Tree, p: Quad, u: Tree, q: Quad)
    requires Shape(c, t) && Shape(c, u) && Holds(quads, b, t, p) && Holds(quads, b, u, q) && |p| == |q|
    ensures p == q && t == u
  {
    FirstLeafLevel(c, quads, b, t, p);
    FirstLeafLevel(c, quads, b, u, q);
    assert p == quads[b][..|p|] == q;
    LeavesCount(c, t, p);
    LeavesCount(c, u, p);
    assert quads[b..] == Leaves(t, p) + quads[b + Count(t)..];
    assert quads[b..] == Leaves(u, p) + quads[b + Count(u)..];
    LeavesDetermineTree(c, t, u, p, quads[b + Count(t)..], quads[b + Count(u)..]);
  }

  // ---------------------------------------------------------------- splitting by ancestor id

  /** Entry i of sc3_array_split: how many leaves of the range have a smaller ancestor id. */
  function CountBelow(s: seq<Quad>, level: nat, i: nat): nat
    requires forall k :: 0 <= k < |s| ==> |s[k]| > level
  {
    if s == [] then 0 else CountBelow(s[..|s| - 1], level, i) + if s[|s| - 1][level] < i then 1 else 0
  }

  function SplitOf(c: Arity, s: seq<Quad>, level: nat): seq<int>
    requires forall k :: 0 <= k < |s| ==> |s[k]| > level
  {
    seq(c + 1, i requires 0 <= i <= c => CountBelow(s, level, i))
  }

  lemma {:induction false} CountBelowSorted(s: seq<Quad>, level: nat, i: nat, m: nat)
    requires forall k :: 0 <= k < |s| ==> |s[k]| > level
    requires m <= |s| && forall k :: 0 <= k < |s| ==> (s[k][level] < i <==> k < m)
    ensures CountBelow(s, level, i) == m
  {
    if s != [] {
      CountBelowSorted(s[..|s| - 1], level, i, if m < |s| then m else m - 1);
    }
  }

  lemma {:induction false} IdBelowOffset(c: Arity, t: Tree, p: Quad, i: nat, k: nat)
    requires Shape(c, t) && t.Node? && i <= c && k < |Leaves(t, p)|
    ensures |Leaves(t, p)[k]| > |p| && (Leaves(t, p)[k][|p|] < i <==> k < Offset(t, i))
  {
    var l := Leaves(t, p);
    LeavesBelow(c, t, p, k);
    LeavesSuffix(c, t, p, i);
    OffsetPlusRest(c, t, i);
    if k >= Offset(t, i) {
      assert l[k] == LeavesFrom(t, p, i)[k - Offset(t, i)];
      LeavesFromBelow(c, t, p, i, k - Offset(t, i));
    } else if i > 0 {
      LeavesSuffix(c, t, p, i - 1);
      if k >= Offset(t, i - 1) {
        assert l[k] == LeavesFrom(t, p, i - 1)[k - Offset(t, i - 1)];
        LeavesFromBelow(c, t, p, i - 1, k - Offset(t, i - 1));
      } else {
        IdBelowOffset(c, t, p, i - 1, k);
      }
    }
  }

  /** Splitting a complete subtree by ancestor id gives the offsets of its children. */
  lemma SplitOfSubtree(c: Arity, t: Tree, p: Quad)
    requires Shape(c, t) && t.Node?
    ensures forall k :: 0 <= k < |Leaves(t, p)| ==> |Leaves(t, p)[k]| > |p|
    ensures SplitOf(c, Leaves(t, p), |p|) == Splits(t)
  {
    var l := Leaves(t, p);
    LeavesCount(c, t, p);
    forall k | 0 <= k < |l|
      ensures |l[k]| > |p|
    {
      LeavesBelow(c, t, p, k);
    }
    forall i | 0 <= i <= c
      ensures CountBelow(l, |p|, i) == Offset(t, i)
    {
      OffsetPlusRest(c, t, i);
      forall k | 0 <= k < |l|
        ensures l[k][|p|] < i <==> k < Offset(t, i)
      {
        IdBelowOffset(c, t, p, i, k);
      }
      CountBelowSorted(l, |p|, i, Offset(t, i));
    }
  }

  /** A subtree that is not a leaf and has c leaves is one family. */
  lemma CLeavesAreAFamily(c: Arity, t: Tree)
    requires Shape(c, t) && t.Node? && Count(t) == c
    ensures Splits(t) == seq(c + 1, i => i)
    ensures forall i :: 0 <= i < c ==> t.kids[i].Leaf?
  {
    forall i | 0 <= i <= c
      ensures Offset(t, i) == i
    {
      OffsetPlusRest(c, t, i);
      if i < c {
        LeavesFromCount(c, t, [], i);
      }
    }
    forall i | 0 <= i < c
      ensures t.kids[i].Leaf?
    {
      assert Offset(t, i + 1) == Offset(t, i) + Count(t.kids[i]);
      LeavesCount(c, t.kids[i], []);
    }
  }

  // ---------------------------------------------------------------- complete leaf sequences

  /** Reads one complete subtree at p off a gap-free sequence that runs to the end of the tree. */
  lemma {:induction false} ParseSubtree(c: Arity, s: seq<Quad>, p: Quad) returns (t: Tree, n: nat)
    requires Linear(c, s) && s != [] && End(c, s[|s| - 1]) == Top && IsQuad(c, p)
    requires p <= s[0] && Begin(s[0]) == Begin(p)
    ensures Shape(c, t) && 1 <= n <= |s| && s[..n] == Leaves(t, p) && End(c, s[n - 1]) == End(c, p)
    decreases |s|, |s[0]| - |p|, 1
  {
    if s[0] == p {
      t, n := Leaf, 1;
    } else {
      FirstChildFirst(c, s[0], p);
      var kids: seq<Tree>, m: nat := ParseChildren(c, s, p, []);
      t, n := Node(kids), m;
    }
  }

  lemma {:induction false} ParseChildren(c: Arity, s: seq<Quad>, p: Quad, before: seq<Tree>)
    returns (kids: seq<Tree>, n: nat)
    requires Linear(c, s) && s != [] && End(c, s[|s| - 1]) == Top && IsQuad(c, p) && |before| < c
    requires Child(p, |before|) <= s[0] && Begin(s[0]) == Begin(Child(p, |before|))
    requires forall i :: 0 <= i < |before| ==> Shape(c, before[i])
    ensures |kids| == c && kids[..|before|] == before && forall i :: 0 <= i < c ==> Shape(c, kids[i])
    ensures 1 <= n <= |s| && s[..n] == LeavesFrom(Node(kids), p, |before|) && End(c, s[n - 1]) == End(c, p)
    decreases |s|, |s[0]| - |p|, 0
  {
    var i := |before|;
    var t: Tree, m: nat := ParseSubtree(c, s, Child(p, i));
    hide Leaves, LeavesFrom, Shape, Linear, Begin, End;
    if i + 1 == c {
      kids, n := before + [t], m;
      LastChildEnd(c, p);
      LeavesOfLast(Node(kids), p);
    } else {
      NextChildNext(c, s, p, i, m);
      var m2: nat;
      kids, m2 := ParseChildren(c, s[m..], p, before + [t]);
      n := m + m2;
      JoinChildren(s, p, before, t, kids, m, m2);
    }
  }

  lemma JoinChildren(s: seq<Quad>, p: Quad, before: seq<Tree>, t: Tree, kids: seq<Tree>, m: nat, n: nat)
    requires m + n <= |s| && n > 0 && |before| + 1 <= |kids| && kids[..|before| + 1] == before + [t]
    requires s[..m] == Leaves(t, Child(p, |before|)) && s[m..][..n] == LeavesFrom(Node(kids), p, |before| + 1)
    ensures kids[..|before|] == before && s[..m + n] == LeavesFrom(Node(kids), p, |before|)
    ensures s[m..][n - 1] == s[m + n - 1]
  {
    var i := |before|;
    assert kids[i] == kids[..i + 1][i] && kids[..i] == kids[..i + 1][..i];
    KidFirst(Node(kids), p, i);
    assert s[..m + n] == s[..m] + s[m..][..n];
  }

  lemma LastChildEnd(c: Arity, p: Quad)
    ensures End(c, Child(p, c - 1)) == End(c, p)
  {
    assert Parent(Child(p, c - 1)) == p;
  }

  lemma LeavesOfLast(t: Tree, p: Quad)
    requires t.Node? && t.kids != []
    ensures LeavesFrom(t, p, |t.kids| - 1) == Leaves(t.kids[|t.kids| - 1], Child(p, |t.kids| - 1))
  {
    assert LeavesFrom(t, p, |t.kids|) == [];
  }

  lemma FirstChildFirst(c: Arity, q: Quad, p: Quad)
    requires IsQuad(c, q) && p < q && Begin(q) == Begin(p)
    ensures Child(p, 0) <= q && Begin(Child(p, 0)) == Begin(p)
  {
    hide Begin;
    var k := BeginShape(q);
    var m := BeginShape(p);
    assert k == |q[..k]| == |p[..m]| == m <= |p|;
    assert q[|p|] == 0;
    BeginOfFirst(p);
  }

  lemma BeginOfFirst(p: Quad)
    ensures Begin(Child(p, 0)) == Begin(p)
  {
    assert Parent(Child(p, 0)) == p;
  }

  lemma NextChildNext(c: Arity, s: seq<Quad>, p: Quad, i: nat, m: nat)
    requires Linear(c, s) && 1 <= m <= |s| && End(c, s[|s| - 1]) == Top && i + 1 < c
    requires End(c, s[m - 1]) == End(c, Child(p, i))
    ensures m < |s| && Child(p, i + 1) <= s[m] && Begin(s[m]) == Begin(Child(p, i + 1))
    ensures Linear(c, s[m..])
  {
    assert Sibling(Child(p, i), i + 1) == Child(p, i + 1);
    assert End(c, Child(p, i)) == At(Child(p, i + 1)) == Begin(Child(p, i + 1));
    if m == |s| {
      assert false;
    }
    assert Next(c, s[m - 1], s[m]);
    var k := BeginShape(s[m]);
  }

  /** Every gap-free sequence that fills the tree is the leaf sequence of one complete tree. */
  lemma CompleteSequenceIsATree(c: Arity, s: seq<Quad>) returns (t: Tree)
    requires s != [] && Tiles(c, s, At([]), Top)
    ensures Shape(c, t) && Leaves(t, []) == s
  {
    var n: nat;
    t, n := ParseSubtree(c, s, []);
    if n < |s| {
      assert Next(c, s[n - 1], s[n]);
      var k := BeginShape(s[n]);
      assert false;
    }
    assert s[..n] == s;
  }
}
