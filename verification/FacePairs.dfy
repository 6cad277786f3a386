/** Which events the iterator owes: every leaf once, every pair of leaves across a face
    once.  The order is that of the source, as a recursion on subtrees. */
module FacePairs {
  import opened Quadrants
  import opened Subtrees
  import opened Faces

  /** A subtree together with its quadrant and its first index in the leaf array. */
  datatype Sub = Sub(tree: Tree, quad: Quad, begin: nat)

  datatype Event =
    | Volume(index: nat, quad: Quad)
    | Face(face: nat, index0: nat, quad0: Quad, index1: nat, quad1: Quad)

  ghost predicate Stored(d: Dim, quads: seq<Quad>, a: Sub) {
    Shape(NumChildren(d), a.tree) && Holds(quads, a.begin, a.tree, a.quad)
  }

  ghost predicate InRange(a: Sub, i: nat) {
    a.begin <= i < a.begin + Count(a.tree)
  }

  ghost function Kid(d: Dim, a: Sub, x: nat): Sub
    requires a.tree.Node? && |a.tree.kids| == NumChildren(d) && x < NumChildren(d)
  {
    Sub(a.tree.kids[x], Child(a.quad, x), a.begin + Offset(a.tree, x))
  }

  /** One side of a face, one step down: a leaf stays, a split quadrant gives the child at
      corner i of the face. */
  ghost function Down(d: Dim, a: Sub, face: nat, i: nat): Sub
    requires Shape(NumChildren(d), a.tree) && face < 2 * d && i < Half(d)
  {
    if a.tree.Leaf? then a
    else
      var x := FaceCorner(d, face, i);
      if x < NumChildren(d) then Kid(d, a, x) else a
  }

  /** Pairs of leaves across the face between a (below) and b (above) along axis k. */
  ghost function Pairs(d: Dim, k: nat, a: Sub, b: Sub): seq<Event>
    requires k < d && Shape(NumChildren(d), a.tree) && Shape(NumChildren(d), b.tree)
    decreases a.tree, b.tree
  {
    if a.tree.Leaf? && b.tree.Leaf? then [Face(UpperFace(k), a.begin, a.quad, b.begin, b.quad)]
    else PairsFrom(d, k, a, b, 0)
  }

  ghost function PairsFrom(d: Dim, k: nat, a: Sub, b: Sub, i: nat): seq<Event>
    requires k < d && Shape(NumChildren(d), a.tree) && Shape(NumChildren(d), b.tree)
    requires !(a.tree.Leaf? && b.tree.Leaf?) && i <= Half(d)
    decreases a.tree, b.tree, Half(d) - i
  {
    if i == Half(d) then []
    else
      FaceCornerFacts(d, k, i);
      Pairs(d, k, Down(d, a, UpperFace(k), i), Down(d, b, LowerFace(k), i)) + PairsFrom(d, k, a, b, i + 1)
  }

  /** The faces between children of one quadrant, in the order of the source's tables. */
  ghost function Inner(d: Dim, a: Sub, i: nat): seq<Event>
    requires Shape(NumChildren(d), a.tree) && a.tree.Node? && i <= NumInnerFaces(d)
    decreases NumInnerFaces(d) - i
  {
    if i == NumInnerFaces(d) then []
    else
      InnerFaceFacts(d, i);
      var x, k := FaceChild(d, i), FaceSequence(d, i) / 2;
      Pairs(d, k, Kid(d, a, x), Kid(d, a, x + Step(k))) + Inner(d, a, i + 1)
  }

  /** Depth first: the children, then the faces between them. */
  ghost function Visit(d: Dim, a: Sub): seq<Event>
    requires Shape(NumChildren(d), a.tree)
    decreases a.tree
  {
    if a.tree.Leaf? then [Volume(a.begin, a.quad)] else VisitKids(d, a, 0) + Inner(d, a, 0)
  }

  ghost function VisitKids(d: Dim, a: Sub, x: nat): seq<Event>
    requires Shape(NumChildren(d), a.tree) && a.tree.Node? && x <= NumChildren(d)
    decreases a.tree, NumChildren(d) - x
  {
    if x == NumChildren(d) then [] else Visit(d, Kid(d, a, x)) + VisitKids(d, a, x + 1)
  }

  // ---------------------------------------------------------------- adjacency

  /** x runs along the upper side of its quadrant, y along the lower side, side by side. */
  predicate Touch(k: nat, x: Quad, y: Quad)
    requires k < 3
    decreases |x| + |y|
  {
    if x == [] && y == [] then true
    else if x == [] then !Upper(y[0], k) && Touch(k, x, y[1..])
    else if y == [] then Upper(x[0], k) && Touch(k, x[1..], y)
    else Upper(x[0], k) && x[0] == y[0] + Step(k) && !Upper(y[0], k) && Touch(k, x[1..], y[1..])
  }

  /** y is a face neighbor of x across the upper face of axis k (of any size). */
  predicate Adjacent(k: nat, x: Quad, y: Quad)
    requires k < 3
  {
    x != [] && y != [] &&
    if x[0] == y[0] then Adjacent(k, x[1..], y[1..])
    else !Upper(x[0], k) && y[0] == x[0] + Step(k) && Touch(k, x[1..], y[1..])
  }

  ghost predicate IsPair(quads: seq<Quad>, k: nat, a: Sub, b: Sub, e: Event)
    requires k < 3
  {
    && e.Face? && e.face == UpperFace(k) && InRange(a, e.index0) && InRange(b, e.index1)
    && e.index0 < |quads| && e.index1 < |quads|
    && e.quad0 == quads[e.index0] && e.quad1 == quads[e.index1]
    && a.quad <= e.quad0 && b.quad <= e.quad1
    && Touch(k, e.quad0[|a.quad|..], e.quad1[|b.quad|..])
  }

  // ---------------------------------------------------------------- membership

  lemma StoredKid(d: Dim, quads: seq<Quad>, a: Sub, x: nat)
    requires Stored(d, quads, a) && a.tree.Node? && x < NumChildren(d)
    ensures Stored(d, quads, Kid(d, a, x)) && Count(Kid(d, a, x).tree) < Count(a.tree)
    ensures forall i: nat :: InRange(Kid(d, a, x), i) ==> InRange(a, i)
    ensures forall i: nat :: InRange(Kid(d, a, x), i) ==>
              a.begin + Offset(a.tree, x) <= i < a.begin + Offset(a.tree, x + 1)
    ensures forall i: nat :: a.begin + Offset(a.tree, x) <= i < a.begin + Offset(a.tree, x + 1) ==>
              InRange(Kid(d, a, x), i)
  {
    HoldsKid(NumChildren(d), quads, a.begin, a.tree, a.quad, x);
  }

  /** A leaf in the range of a split quadrant lies in the child its next id names. */
  lemma LeafInKid(d: Dim, quads: seq<Quad>, a: Sub, i: nat)
    requires Stored(d, quads, a) && InRange(a, i)
    ensures i < |quads| && a.quad <= quads[i]
    ensures a.tree.Leaf? ==> i == a.begin && quads[i] == a.quad
    ensures a.tree.Node? ==> |quads[i]| > |a.quad| && quads[i][|a.quad|] < NumChildren(d)
    ensures a.tree.Node? ==> forall x: nat :: 0 <= x < NumChildren(d) ==>
              (InRange(Kid(d, a, x), i) <==> quads[i][|a.quad|] == x)
  {
    var c, l := NumChildren(d), Leaves(a.tree, a.quad);
    LeavesCount(c, a.tree, a.quad);
    assert quads[i] == quads[a.begin..a.begin + Count(a.tree)][i - a.begin] == l[i - a.begin];
    LeavesBelow(c, a.tree, a.quad, i - a.begin);
    if a.tree.Node? {
      forall x: nat | 0 <= x < c
        ensures InRange(Kid(d, a, x), i) <==> quads[i][|a.quad|] == x
      {
        KidRange(d, quads, a, i, x);
      }
    }
  }

  lemma KidRange(d: Dim, quads: seq<Quad>, a: Sub, i: nat, x: nat)
    requires Stored(d, quads, a) && InRange(a, i) && a.tree.Node? && x < NumChildren(d)
    ensures i < |quads| && |quads[i]| > |a.quad|
    ensures InRange(Kid(d, a, x), i) <==> quads[i][|a.quad|] == x
  {
    var c, l := NumChildren(d), Leaves(a.tree, a.quad);
    LeavesCount(c, a.tree, a.quad);
    assert quads[i] == quads[a.begin..a.begin + Count(a.tree)][i - a.begin] == l[i - a.begin];
    HoldsKid(c, quads, a.begin, a.tree, a.quad, x);
    IdBelowOffset(c, a.tree, a.quad, x, i - a.begin);
    IdBelowOffset(c, a.tree, a.quad, x + 1, i - a.begin);
  }

  lemma StoredDown(d: Dim, quads: seq<Quad>, a: Sub, face: nat, i: nat)
    requires Stored(d, quads, a) && face < 2 * d && i < Half(d) && FaceCorner(d, face, i) < NumChildren(d)
    ensures Stored(d, quads, Down(d, a, face, i))
  {
    if a.tree.Node? {
      StoredKid(d, quads, a, FaceCorner(d, face, i));
    }
  }

  lemma {:induction false} PairsFromHas(d: Dim, k: nat, a: Sub, b: Sub, i: nat, j: nat, e: Event)
    requires k < d && Shape(NumChildren(d), a.tree) && Shape(NumChildren(d), b.tree)
    requires !(a.tree.Leaf? && b.tree.Leaf?) && i <= j < Half(d)
    requires e in Pairs(d, k, Down(d, a, UpperFace(k), j), Down(d, b, LowerFace(k), j))
    ensures e in PairsFrom(d, k, a, b, i)
    decreases j - i
  {
    if i < j {
      PairsFromHas(d, k, a, b, i + 1, j, e);
    }
  }

  lemma {:induction false} PairsFromGives(d: Dim, k: nat, a: Sub, b: Sub, i: nat, e: Event) returns (j: nat)
    requires k < d && Shape(NumChildren(d), a.tree) && Shape(NumChildren(d), b.tree)
    requires !(a.tree.Leaf? && b.tree.Leaf?) && i <= Half(d)
    requires e in PairsFrom(d, k, a, b, i)
    ensures i <= j < Half(d) && e in Pairs(d, k, Down(d, a, UpperFace(k), j), Down(d, b, LowerFace(k), j))
    decreases Half(d) - i
  {
    if e in Pairs(d, k, Down(d, a, UpperFace(k), i), Down(d, b, LowerFace(k), i)) {
      j := i;
    } else {
      j := PairsFromGives(d, k, a, b, i + 1, e);
    }
  }

  /** The pairs are exactly the touching leaves of the two sides. */
  lemma {:induction false} PairsExactly(d: Dim, quads: seq<Quad>, k: nat, a: Sub, b: Sub, e: Event)
    requires k < d && Stored(d, quads, a) && Stored(d, quads, b)
    ensures e in Pairs(d, k, a, b) <==> IsPair(quads, k, a, b, e)
    decreases a.tree, b.tree
  {
    if a.tree.Leaf? && b.tree.Leaf? {
      FirstLeafLevel(NumChildren(d), quads, a.begin, a.tree, a.quad);
      FirstLeafLevel(NumChildren(d), quads, b.begin, b.tree, b.quad);
    } else {
      hide IsPair, Shape;
      if e in Pairs(d, k, a, b) {
        var i := PairsFromGives(d, k, a, b, 0, e);
        PairsExactlyDown(d, quads, k, a, b, i, e);
        PairGoesUp(d, quads, k, a, b, i, e);
      }
      if IsPair(quads, k, a, b, e) {
        var i := CornerOf(d, quads, k, a, b, e);
        PairsExactlyDown(d, quads, k, a, b, i, e);
        PairsFromHas(d, k, a, b, 0, i, e);
      }
    }
  }

  ghost predicate PairBelow(d: Dim, quads: seq<Quad>, k: nat, a: Sub, b: Sub, i: nat, e: Event)
    requires k < d && i < Half(d) && Shape(NumChildren(d), a.tree) && Shape(NumChildren(d), b.tree)
  {
    IsPair(quads, k, Down(d, a, UpperFace(k), i), Down(d, b, LowerFace(k), i), e)
  }

  lemma {:induction false} PairsExactlyDown(d: Dim, quads: seq<Quad>, k: nat, a: Sub, b: Sub, i: nat, e: Event)
    requires k < d && Stored(d, quads, a) && Stored(d, quads, b)
    requires !(a.tree.Leaf? && b.tree.Leaf?) && i < Half(d)
    ensures e in Pairs(d, k, Down(d, a, UpperFace(k), i), Down(d, b, LowerFace(k), i)) <==>
            PairBelow(d, quads, k, a, b, i, e)
    decreases a.tree, b.tree, 0
  {
    FaceCornerFacts(d, k, i);
    StoredDown(d, quads, a, UpperFace(k), i);
    StoredDown(d, quads, b, LowerFace(k), i);
    PairsExactly(d, quads, k, Down(d, a, UpperFace(k), i), Down(d, b, LowerFace(k), i), e);
  }

  /** A touching pair goes through one corner of the face. */
  lemma CornerOf(d: Dim, quads: seq<Quad>, k: nat, a: Sub, b: Sub, e: Event) returns (i: nat)
    requires k < d && Stored(d, quads, a) && Stored(d, quads, b) && !(a.tree.Leaf? && b.tree.Leaf?)
    requires IsPair(quads, k, a, b, e)
    ensures i < Half(d) && PairBelow(d, quads, k, a, b, i, e)
  {
    LeafInKid(d, quads, a, e.index0);
    LeafInKid(d, quads, b, e.index1);
    var x, y := e.quad0[|a.quad|..], e.quad1[|b.quad|..];
    if a.tree.Node? {
      FaceCornersAreTheSide(d, k, x[0]);
      i :| 0 <= i < Half(d) && FaceCorner(d, UpperFace(k), i) == x[0];
      FaceCornerFacts(d, k, i);
      Deeper(a.quad, e.quad0);
      if b.tree.Node? {
        Deeper(b.quad, e.quad1);
      }
    } else {
      FaceCornersAreTheSide(d, k, y[0]);
      i :| 0 <= i < Half(d) && FaceCorner(d, LowerFace(k), i) == y[0];
      FaceCornerFacts(d, k, i);
      Deeper(b.quad, e.quad1);
    }
  }

  lemma Deeper(p: Quad, q: Quad)
    requires p < q
    ensures Child(p, q[|p|]) <= q && q[|p|..][0] == q[|p|] && q[|p|..][1..] == q[|Child(p, q[|p|])|..]
  {
  }

  lemma PairGoesUp(d: Dim, quads: seq<Quad>, k: nat, a: Sub, b: Sub, i: nat, e: Event)
    requires k < d && Stored(d, quads, a) && Stored(d, quads, b) && !(a.tree.Leaf? && b.tree.Leaf?)
    requires i < Half(d) && PairBelow(d, quads, k, a, b, i, e)
    ensures IsPair(quads, k, a, b, e)
  {
    FaceCornerFacts(d, k, i);
    if a.tree.Node? {
      StoredKid(d, quads, a, FaceCorner(d, UpperFace(k), i));
    }
    if b.tree.Node? {
      StoredKid(d, quads, b, FaceCorner(d, LowerFace(k), i));
    }
    LeafInKid(d, quads, a, e.index0);
    LeafInKid(d, quads, b, e.index1);
    if a.tree.Node? {
      Deeper(a.quad, e.quad0);
    }
    if b.tree.Node? {
      Deeper(b.quad, e.quad1);
    }
  }

  // ---------------------------------------------------------------- faces inside a quadrant

  ghost predicate InnerBelow(d: Dim, quads: seq<Quad>, a: Sub, i: nat, e: Event)
    requires Shape(NumChildren(d), a.tree) && a.tree.Node? && i < NumInnerFaces(d)
  {
    InnerFaceFacts(d, i);
    var x, k := FaceChild(d, i), FaceSequence(d, i) / 2;
    IsPair(quads, k, Kid(d, a, x), Kid(d, a, x + Step(k)), e)
  }

  ghost function InnerPairs(d: Dim, a: Sub, i: nat): seq<Event>
    requires Shape(NumChildren(d), a.tree) && a.tree.Node? && i < NumInnerFaces(d)
  {
    InnerFaceFacts(d, i);
    var x, k := FaceChild(d, i), FaceSequence(d, i) / 2;
    Pairs(d, k, Kid(d, a, x), Kid(d, a, x + Step(k)))
  }

  lemma {:induction false} InnerHas(d: Dim, a: Sub, i: nat, j: nat, e: Event)
    requires Shape(NumChildren(d), a.tree) && a.tree.Node? && i <= j < NumInnerFaces(d) && e in InnerPairs(d, a, j)
    ensures e in Inner(d, a, i)
    decreases j - i
  {
    hide Pairs, Shape, Kid;
    if i < j {
      InnerHas(d, a, i + 1, j, e);
    }
  }

  lemma {:induction false} InnerGives(d: Dim, a: Sub, i: nat, e: Event) returns (j: nat)
    requires Shape(NumChildren(d), a.tree) && a.tree.Node? && i <= NumInnerFaces(d) && e in Inner(d, a, i)
    ensures i <= j < NumInnerFaces(d) && e in InnerPairs(d, a, j)
    decreases NumInnerFaces(d) - i
  {
    hide Pairs, Shape, Kid;
    if e in InnerPairs(d, a, i) {
      j := i;
    } else {
      j := InnerGives(d, a, i + 1, e);
    }
  }

  lemma OneInnerFace(d: Dim, quads: seq<Quad>, a: Sub, i: nat, e: Event)
    requires Stored(d, quads, a) && a.tree.Node? && i < NumInnerFaces(d)
    ensures e in InnerPairs(d, a, i) <==> InnerBelow(d, quads, a, i, e)
  {
    InnerFaceFacts(d, i);
    var x, k := FaceChild(d, i), FaceSequence(d, i) / 2;
    StoredKid(d, quads, a, x);
    StoredKid(d, quads, a, x + Step(k));
    PairsExactly(d, quads, k, Kid(d, a, x), Kid(d, a, x + Step(k)), e);
    hide Pairs, IsPair, Kid, FaceChild, FaceSequence, Step, Shape;
  }

  /** The event e lies inside a and crosses a face between two of a's children. */
  ghost predicate Crosses(d: Dim, quads: seq<Quad>, a: Sub, e: Event) {
    && e.Face? && InRange(a, e.index0) && InRange(a, e.index1) && e.index0 < |quads| && e.index1 < |quads|
    && e.quad0 == quads[e.index0] && e.quad1 == quads[e.index1]
    && a.quad < e.quad0 && a.quad < e.quad1
    && exists k :: 0 <= k < d && e.face == UpperFace(k) && CrossesAxis(k, e.quad0[|a.quad|..], e.quad1[|a.quad|..])
  }

  predicate CrossesAxis(k: nat, x: Quad, y: Quad)
    requires k < 3
  {
    x != [] && y != [] && !Upper(x[0], k) && y[0] == x[0] + Step(k) && Touch(k, x[1..], y[1..])
  }

  lemma InnerExactly(d: Dim, quads: seq<Quad>, a: Sub, e: Event)
    requires Stored(d, quads, a) && a.tree.Node?
    ensures e in Inner(d, a, 0) <==> Crosses(d, quads, a, e)
  {
    hide Crosses, InnerBelow, InnerPairs, Inner;
    if e in Inner(d, a, 0) {
      var j := InnerGives(d, a, 0, e);
      OneInnerFace(d, quads, a, j, e);
      InnerIsCrossing(d, quads, a, j, e);
    }
    if Crosses(d, quads, a, e) {
      var j := CrossingIsInner(d, quads, a, e);
      OneInnerFace(d, quads, a, j, e);
      InnerHas(d, a, 0, j, e);
    }
  }

  lemma InnerIsCrossing(d: Dim, quads: seq<Quad>, a: Sub, j: nat, e: Event)
    requires Stored(d, quads, a) && a.tree.Node? && j < NumInnerFaces(d) && InnerBelow(d, quads, a, j, e)
    ensures Crosses(d, quads, a, e)
  {
    InnerFaceFacts(d, j);
    var x, k := FaceChild(d, j), FaceSequence(d, j) / 2;
    StoredKid(d, quads, a, x);
    StoredKid(d, quads, a, x + Step(k));
    LeafInKid(d, quads, a, e.index0);
    LeafInKid(d, quads, a, e.index1);
    Deeper(a.quad, e.quad0);
    Deeper(a.quad, e.quad1);
    assert e.face == UpperFace(k);
    assert CrossesAxis(k, e.quad0[|a.quad|..], e.quad1[|a.quad|..]);
  }

  lemma CrossingIsInner(d: Dim, quads: seq<Quad>, a: Sub, e: Event) returns (j: nat)
    requires Stored(d, quads, a) && a.tree.Node? && Crosses(d, quads, a, e)
    ensures j < NumInnerFaces(d) && InnerBelow(d, quads, a, j, e)
  {
    hide FaceChild, FaceSequence, Upper, Shape, Holds, Touch;
    var k :| 0 <= k < d && e.face == UpperFace(k) && CrossesAxis(k, e.quad0[|a.quad|..], e.quad1[|a.quad|..]);
    LeafInKid(d, quads, a, e.index0);
    LeafInKid(d, quads, a, e.index1);
    var x := e.quad0[|a.quad|];
    InnerFaceExists(d, k, x);
    j :| 0 <= j < NumInnerFaces(d) && FaceSequence(d, j) == UpperFace(k) && FaceChild(d, j) == x;
    InnerFaceFacts(d, j);
    StoredKid(d, quads, a, x);
    StoredKid(d, quads, a, x + Step(k));
    Deeper(a.quad, e.quad0);
    Deeper(a.quad, e.quad1);
  }

  // ---------------------------------------------------------------- everything below a quadrant

  ghost predicate IsEvent(d: Dim, quads: seq<Quad>, a: Sub, e: Event) {
    match e
    case Volume(i, q) => InRange(a, i) && i < |quads| && q == quads[i]
    case Face(face, i, q, j, r) =>
      && InRange(a, i) && InRange(a, j) && i < |quads| && j < |quads| && q == quads[i] && r == quads[j]
      && a.quad <= q && a.quad <= r
      && exists k :: 0 <= k < d && face == UpperFace(k) && Adjacent(k, q[|a.quad|..], r[|a.quad|..])
  }

  lemma {:induction false} KidsHave(d: Dim, a: Sub, x: nat, y: nat, e: Event)
    requires Shape(NumChildren(d), a.tree) && a.tree.Node? && x <= y < NumChildren(d) && e in Visit(d, Kid(d, a, y))
    ensures e in VisitKids(d, a, x)
    decreases y - x
  {
    hide Visit, Shape;
    if x < y {
      KidsHave(d, a, x + 1, y, e);
    }
  }

  lemma {:induction false} KidsGive(d: Dim, a: Sub, x: nat, e: Event) returns (y: nat)
    requires Shape(NumChildren(d), a.tree) && a.tree.Node? && x <= NumChildren(d) && e in VisitKids(d, a, x)
    ensures x <= y < NumChildren(d) && e in Visit(d, Kid(d, a, y))
    decreases NumChildren(d) - x
  {
    hide Visit;
    assert x < NumChildren(d);
    if e in Visit(d, Kid(d, a, x)) {
      y := x;
    } else {
      y := KidsGive(d, a, x + 1, e);
    }
  }

  /** The iteration over a complete subtree meets every leaf and every pair of leaves that
      are face neighbors, and nothing else. */
  lemma {:induction false} VisitExactly(d: Dim, quads: seq<Quad>, a: Sub, e: Event)
    requires Stored(d, quads, a)
    ensures e in Visit(d, a) <==> IsEvent(d, quads, a, e)
    decreases a.tree
  {
    if a.tree.Leaf? {
      FirstLeafLevel(NumChildren(d), quads, a.begin, a.tree, a.quad);
    } else {
      InnerExactly(d, quads, a, e);
      EventSplits(d, quads, a, e);
      forall y | 0 <= y < NumChildren(d)
        ensures e in Visit(d, Kid(d, a, y)) <==> IsEvent(d, quads, Kid(d, a, y), e)
      {
        StoredKid(d, quads, a, y);
        VisitExactly(d, quads, Kid(d, a, y), e);
      }
      hide IsEvent, Crosses, Kid, Inner, VisitKids;
      if e in VisitKids(d, a, 0) {
        var y := KidsGive(d, a, 0, e);
      }
      if y :| 0 <= y < NumChildren(d) && IsEvent(d, quads, Kid(d, a, y), e) {
        KidsHave(d, a, 0, y, e);
      }
    }
  }

  /** An event below a split quadrant is inside one child or crosses between two. */
  lemma EventSplits(d: Dim, quads: seq<Quad>, a: Sub, e: Event)
    requires Stored(d, quads, a) && a.tree.Node?
    ensures IsEvent(d, quads, a, e) <==>
            Crosses(d, quads, a, e) || exists y :: 0 <= y < NumChildren(d) && IsEvent(d, quads, Kid(d, a, y), e)
  {
    forall y | 0 <= y < NumChildren(d) && IsEvent(d, quads, Kid(d, a, y), e)
      ensures IsEvent(d, quads, a, e)
    {
      KidEventGoesUp(d, quads, a, y, e);
    }
    if Crosses(d, quads, a, e) {
      CrossingGoesUp(d, quads, a, e);
    }
    if IsEvent(d, quads, a, e) {
      EventGoesDown(d, quads, a, e);
    }
  }

  lemma KidEventGoesUp(d: Dim, quads: seq<Quad>, a: Sub, y: nat, e: Event)
    requires Stored(d, quads, a) && a.tree.Node? && y < NumChildren(d) && IsEvent(d, quads, Kid(d, a, y), e)
    ensures IsEvent(d, quads, a, e)
  {
    StoredKid(d, quads, a, y);
    if e.Face? {
      var k :| 0 <= k < d && e.face == UpperFace(k) &&
               Adjacent(k, e.quad0[|Kid(d, a, y).quad|..], e.quad1[|Kid(d, a, y).quad|..]);
      assert e.quad0[|a.quad|] == Kid(d, a, y).quad[|a.quad|] == y == e.quad1[|a.quad|];
      assert a.quad < e.quad0 && a.quad < e.quad1;
      Deeper(a.quad, e.quad0);
      Deeper(a.quad, e.quad1);
      assert Adjacent(k, e.quad0[|a.quad|..], e.quad1[|a.quad|..]);
    }
  }

  lemma CrossingGoesUp(d: Dim, quads: seq<Quad>, a: Sub, e: Event)
    requires Crosses(d, quads, a, e)
    ensures IsEvent(d, quads, a, e)
  {
    var k :| 0 <= k < d && e.face == UpperFace(k) && CrossesAxis(k, e.quad0[|a.quad|..], e.quad1[|a.quad|..]);
    assert Step(k) > 0;
    assert Adjacent(k, e.quad0[|a.quad|..], e.quad1[|a.quad|..]);
  }

  lemma EventGoesDown(d: Dim, quads: seq<Quad>, a: Sub, e: Event)
    requires Stored(d, quads, a) && a.tree.Node? && IsEvent(d, quads, a, e)
    ensures Crosses(d, quads, a, e) || exists y :: 0 <= y < NumChildren(d) && IsEvent(d, quads, Kid(d, a, y), e)
  {
    if e.Volume? {
      LeafInKid(d, quads, a, e.index);
      var y := quads[e.index][|a.quad|];
      assert IsEvent(d, quads, Kid(d, a, y), e);
    } else {
      LeafInKid(d, quads, a, e.index0);
      LeafInKid(d, quads, a, e.index1);
      var k :| 0 <= k < d && e.face == UpperFace(k) && Adjacent(k, e.quad0[|a.quad|..], e.quad1[|a.quad|..]);
      Deeper(a.quad, e.quad0);
      Deeper(a.quad, e.quad1);
      var y := e.quad0[|a.quad|];
      if y == e.quad1[|a.quad|] {
        assert IsEvent(d, quads, Kid(d, a, y), e);
      } else {
        assert CrossesAxis(k, e.quad0[|a.quad|..], e.quad1[|a.quad|..]);
      }
    }
  }

  // ---------------------------------------------------------------- nothing twice

  ghost predicate NoDuplicates(s: seq<Event>) {
    forall i, j :: 0 <= i < j < |s| ==> s[i] != s[j]
  }

  lemma NoDuplicatesConcat(s: seq<Event>, t: seq<Event>)
    requires NoDuplicates(s) && NoDuplicates(t) && forall e :: e in s ==> e !in t
    ensures NoDuplicates(s + t)
  {
    var u := s + t;
    forall i, j | 0 <= i < j < |u|
      ensures u[i] != u[j]
    {
      if i < |s| <= j {
        assert u[i] in s && u[j] in t;
      }
    }
  }

  /** An index lies in one child only. */
  lemma OneKid(d: Dim, quads: seq<Quad>, a: Sub, x: nat, y: nat, i: nat)
    requires Stored(d, quads, a) && a.tree.Node? && x < NumChildren(d) && y < NumChildren(d)
    requires InRange(Kid(d, a, x), i) && InRange(Kid(d, a, y), i)
    ensures x == y
  {
    StoredKid(d, quads, a, x);
    KidRange(d, quads, a, i, x);
    KidRange(d, quads, a, i, y);
  }

  lemma OneCorner(d: Dim, quads: seq<Quad>, k: nat, a: Sub, b: Sub, i: nat, j: nat, e: Event)
    requires k < d && Stored(d, quads, a) && Stored(d, quads, b) && !(a.tree.Leaf? && b.tree.Leaf?)
    requires i < Half(d) && j < Half(d) && PairBelow(d, quads, k, a, b, i, e) && PairBelow(d, quads, k, a, b, j, e)
    ensures i == j
  {
    FaceCornerFacts(d, k, i);
    FaceCornerFacts(d, k, j);
    if a.tree.Node? {
      OneKid(d, quads, a, FaceCorner(d, UpperFace(k), i), FaceCorner(d, UpperFace(k), j), e.index0);
      FaceCornerInjective(d, UpperFace(k), i, j);
    } else {
      OneKid(d, quads, b, FaceCorner(d, LowerFace(k), i), FaceCorner(d, LowerFace(k), j), e.index1);
      FaceCornerInjective(d, LowerFace(k), i, j);
    }
  }

  lemma {:induction false} PairsOnce(d: Dim, quads: seq<Quad>, k: nat, a: Sub, b: Sub)
    requires k < d && Stored(d, quads, a) && Stored(d, quads, b)
    ensures NoDuplicates(Pairs(d, k, a, b))
    decreases a.tree, b.tree
  {
    if !(a.tree.Leaf? && b.tree.Leaf?) {
      PairsFromOnce(d, quads, k, a, b, 0);
    }
  }

  lemma {:induction false} PairsFromOnce(d: Dim, quads: seq<Quad>, k: nat, a: Sub, b: Sub, i: nat)
    requires k < d && Stored(d, quads, a) && Stored(d, quads, b)
    requires !(a.tree.Leaf? && b.tree.Leaf?) && i <= Half(d)
    ensures NoDuplicates(PairsFrom(d, k, a, b, i))
    decreases a.tree, b.tree, Half(d) - i
  {
    if i < Half(d) {
      FaceCornerFacts(d, k, i);
      StoredDown(d, quads, a, UpperFace(k), i);
      StoredDown(d, quads, b, LowerFace(k), i);
      var first := Pairs(d, k, Down(d, a, UpperFace(k), i), Down(d, b, LowerFace(k), i));
      PairsOnce(d, quads, k, Down(d, a, UpperFace(k), i), Down(d, b, LowerFace(k), i));
      PairsFromOnce(d, quads, k, a, b, i + 1);
      forall e | e in first
        ensures e !in PairsFrom(d, k, a, b, i + 1)
      {
        PairsExactlyDown(d, quads, k, a, b, i, e);
        if e in PairsFrom(d, k, a, b, i + 1) {
          var j := PairsFromGives(d, k, a, b, i + 1, e);
          PairsExactlyDown(d, quads, k, a, b, j, e);
          OneCorner(d, quads, k, a, b, i, j, e);
        }
      }
      NoDuplicatesConcat(first, PairsFrom(d, k, a, b, i + 1));
    }
  }

  lemma OneInner(d: Dim, quads: seq<Quad>, a: Sub, i: nat, j: nat, e: Event)
    requires Stored(d, quads, a) && a.tree.Node? && i < NumInnerFaces(d) && j < NumInnerFaces(d)
    requires InnerBelow(d, quads, a, i, e) && InnerBelow(d, quads, a, j, e)
    ensures i == j
  {
    InnerFaceFacts(d, i);
    InnerFaceFacts(d, j);
    var ki, kj := FaceSequence(d, i) / 2, FaceSequence(d, j) / 2;
    assert e.face == UpperFace(ki) == UpperFace(kj);
    hide FaceChild, FaceSequence, Step, Shape;
    OneKid(d, quads, a, FaceChild(d, i), FaceChild(d, j), e.index0);
    InnerFaceInjective(d, i, j);
  }

  lemma InnerDisjoint(d: Dim, quads: seq<Quad>, a: Sub, i: nat, e: Event)
    requires Stored(d, quads, a) && a.tree.Node? && i < NumInnerFaces(d) && e in InnerPairs(d, a, i)
    ensures e !in Inner(d, a, i + 1)
  {
    hide Inner, InnerPairs, InnerBelow, Shape;
    OneInnerFace(d, quads, a, i, e);
    if e in Inner(d, a, i + 1) {
      var j := InnerGives(d, a, i + 1, e);
      OneInnerFace(d, quads, a, j, e);
      OneInner(d, quads, a, i, j, e);
    }
  }

  lemma {:induction false} InnerOnce(d: Dim, quads: seq<Quad>, a: Sub, i: nat)
    requires Stored(d, quads, a) && a.tree.Node? && i <= NumInnerFaces(d)
    ensures NoDuplicates(Inner(d, a, i))
    decreases NumInnerFaces(d) - i
  {
    if i < NumInnerFaces(d) {
      hide InnerPairs, InnerBelow, Shape, FaceChild, FaceSequence;
      InnerPairsOnce(d, quads, a, i);
      InnerOnce(d, quads, a, i + 1);
      hide Inner;
      forall e | e in InnerPairs(d, a, i)
        ensures e !in Inner(d, a, i + 1)
      {
        InnerDisjoint(d, quads, a, i, e);
      }
      NoDuplicatesConcat(InnerPairs(d, a, i), Inner(d, a, i + 1));
      InnerUnfolds(d, a, i);
    }
  }

  lemma InnerUnfolds(d: Dim, a: Sub, i: nat)
    requires Shape(NumChildren(d), a.tree) && a.tree.Node? && i < NumInnerFaces(d)
    ensures Inner(d, a, i) == InnerPairs(d, a, i) + Inner(d, a, i + 1)
  {
  }

  lemma InnerPairsOnce(d: Dim, quads: seq<Quad>, a: Sub, i: nat)
    requires Stored(d, quads, a) && a.tree.Node? && i < NumInnerFaces(d)
    ensures NoDuplicates(InnerPairs(d, a, i))
  {
    InnerFaceFacts(d, i);
    var x, k := FaceChild(d, i), FaceSequence(d, i) / 2;
    StoredKid(d, quads, a, x);
    StoredKid(d, quads, a, x + Step(k));
    PairsOnce(d, quads, k, Kid(d, a, x), Kid(d, a, x + Step(k)));
  }

  /** The index that tells which child an event belongs to. */
  function IndexOf(e: Event): nat {
    match e
    case Volume(i, _) => i
    case Face(_, i, _, _, _) => i
  }

  /** Every event is met once. */
  lemma {:induction false} VisitOnce(d: Dim, quads: seq<Quad>, a: Sub)
    requires Stored(d, quads, a)
    ensures NoDuplicates(Visit(d, a))
    decreases a.tree
  {
    if a.tree.Node? {
      VisitKidsOnce(d, quads, a, 0);
      InnerOnce(d, quads, a, 0);
      forall e | e in VisitKids(d, a, 0)
        ensures e !in Inner(d, a, 0)
      {
        KidEventDoesNotCross(d, quads, a, e);
      }
      NoDuplicatesConcat(VisitKids(d, a, 0), Inner(d, a, 0));
    }
  }

  lemma KidEventDoesNotCross(d: Dim, quads: seq<Quad>, a: Sub, e: Event)
    requires Stored(d, quads, a) && a.tree.Node? && e in VisitKids(d, a, 0)
    ensures e !in Inner(d, a, 0)
  {
    var y := KidsGive(d, a, 0, e);
    StoredKid(d, quads, a, y);
    VisitExactly(d, quads, Kid(d, a, y), e);
    InnerExactly(d, quads, a, e);
    if Crosses(d, quads, a, e) {
      CrossingChangesChild(d, quads, a, e);
      hide Crosses, Stored;
      KidRange(d, quads, a, e.index0, y);
      KidRange(d, quads, a, e.index1, y);
    }
  }

  lemma CrossingChangesChild(d: Dim, quads: seq<Quad>, a: Sub, e: Event)
    requires Crosses(d, quads, a, e)
    ensures e.Face? && InRange(a, e.index0) && InRange(a, e.index1)
    ensures quads[e.index0][|a.quad|] != quads[e.index1][|a.quad|]
  {
    var k :| 0 <= k < d && e.face == UpperFace(k) && CrossesAxis(k, e.quad0[|a.quad|..], e.quad1[|a.quad|..]);
    assert Step(k) > 0;
  }

  lemma KidsDisjoint(d: Dim, quads: seq<Quad>, a: Sub, x: nat, e: Event)
    requires Stored(d, quads, a) && a.tree.Node? && x < NumChildren(d) && e in Visit(d, Kid(d, a, x))
    ensures e !in VisitKids(d, a, x + 1)
  {
    StoredKid(d, quads, a, x);
    VisitExactly(d, quads, Kid(d, a, x), e);
    if e in VisitKids(d, a, x + 1) {
      var y := KidsGive(d, a, x + 1, e);
      StoredKid(d, quads, a, y);
      VisitExactly(d, quads, Kid(d, a, y), e);
      OneKid(d, quads, a, x, y, IndexOf(e));
    }
  }

  lemma {:induction false} VisitKidsOnce(d: Dim, quads: seq<Quad>, a: Sub, x: nat)
    requires Stored(d, quads, a) && a.tree.Node? && x <= NumChildren(d)
    ensures NoDuplicates(VisitKids(d, a, x))
    decreases a.tree, NumChildren(d) - x
  {
    if x < NumChildren(d) {
      StoredKid(d, quads, a, x);
      VisitOnce(d, quads, Kid(d, a, x));
      VisitKidsOnce(d, quads, a, x + 1);
      hide Visit, Shape, Kid, Stored;
      forall e | e in Visit(d, Kid(d, a, x))
        ensures e !in VisitKids(d, a, x + 1)
      {
        KidsDisjoint(d, quads, a, x, e);
      }
      NoDuplicatesConcat(Visit(d, Kid(d, a, x)), VisitKids(d, a, x + 1));
    }
  }
}
