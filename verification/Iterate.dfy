/** The iterator over volumes and faces of one tree (p4est3_iterate.c): an explicit-stack
    traversal of the volumes and a two-sided recursion over each inner face, both working on
    index ranges of the shared leaf array. */
module Iterate {
  import opened Quadrants
  import opened Subtrees
  import opened SplitCache
  import opened Faces
  import opened FacePairs
  import opened MinMax

  /** Index ranges of the tree and of this rank's leaves. */
  datatype Window = Window(treeBegin: int, treeEnd: int, rankBegin: int, rankEnd: int) {
    function LocalBegin(): int {
      Max(treeBegin, rankBegin)
    }

    function LocalEnd(): int {
      Min(treeEnd, rankEnd)
    }

    predicate Owns(i: int) {
      rankBegin <= i < rankEnd
    }

    /** The rank has leaves in the tree, as it does in every tree that it iterates over. */
    predicate HasLocal() {
      LocalBegin() < LocalEnd()
    }
  }

  datatype FaceSide = FaceSide(nquad: int, quad: Quad, isGhost: bool)

  /** What the callbacks receive. */
  datatype Call =
    | VolumeCall(nquad: int, quad: Quad)
    | FaceCall(face0: nat, face1: nat, side0: FaceSide, side1: FaceSide)

  // ---------------------------------------------------------------- specification

  function SideOf(w: Window, i: int, q: Quad): FaceSide {
    FaceSide(i - w.treeBegin, q, i < w.rankBegin || i + 1 > w.rankEnd)
  }

  predicate Concerns(w: Window, e: Event) {
    match e
    case Volume(i, _) => w.LocalBegin() <= i < w.LocalEnd()
    case Face(_, i, _, j, _) => w.LocalBegin() <= i < w.LocalEnd() || w.LocalBegin() <= j < w.LocalEnd()
  }

  function CallOf(w: Window, e: Event): Call
    requires e.Face? ==> e.face < 6
  {
    match e
    case Volume(i, q) => VolumeCall(i - w.treeBegin, q)
    case Face(f, i, q, j, r) => FaceCall(f, FACE_DUAL[f], SideOf(w, i, q), SideOf(w, j, r))
  }

  /** The calls for a list of events: those that concern this rank, in order. */
  function Calls(w: Window, events: seq<Event>): seq<Call> {
    if events == [] then []
    else
      CallFor(w, events[0]) + Calls(w, events[1..])
  }

  function CallFor(w: Window, e: Event): seq<Call> {
    if Concerns(w, e) && (e.Face? ==> e.face < 6) then [CallOf(w, e)] else []
  }

  lemma {:induction false} CallsConcat(w: Window, s: seq<Event>, t: seq<Event>)
    ensures Calls(w, s + t) == Calls(w, s) + Calls(w, t)
  {
    if s == [] {
      assert s + t == t;
    } else {
      CallsConcat(w, s[1..], t);
      assert (s + t)[1..] == s[1..] + t && (s + t)[0] == s[0];
      CallsStep(w, CallFor(w, s[0]), Calls(w, s[1..]), Calls(w, t));
    }
  }

  lemma {:induction false} NoCalls(w: Window, s: seq<Event>)
    requires forall e :: e in s ==> !Concerns(w, e)
    ensures Calls(w, s) == []
  {
    if s != [] {
      NoCalls(w, s[1..]);
    }
  }

  lemma IsRemote(w: Window, a: Sub)
    ensures Remote(w, a) <==> a.begin >= w.LocalEnd() || a.begin + Count(a.tree) <= w.LocalBegin()
  {
  }

  lemma KidsStart(a: Sub)
    requires a.tree.Node? && a.tree.kids != []
    ensures Offset(a.tree, 0) == 0 && Bounds(a)[0] == a.begin
  {
  }

  lemma StoredLevel(d: Dim, quads: seq<Quad>, a: Sub)
    requires Stored(d, quads, a)
    ensures Shape(NumChildren(d), a.tree)
    ensures a.begin < |quads| && |a.quad| <= |quads[a.begin]| && (|quads[a.begin]| == |a.quad| <==> a.tree.Leaf?)
    ensures a.tree.Leaf? ==> quads[a.begin] == a.quad && Count(a.tree) == 1
  {
    FirstLeafLevel(NumChildren(d), quads, a.begin, a.tree, a.quad);
  }

  ghost predicate Remote(w: Window, a: Sub) {
    a.begin >= w.LocalEnd() || a.begin + Count(a.tree) <= w.LocalBegin()
  }

  /** Two remote subtrees give no calls: the early return loses nothing. */
  lemma RemotePairs(d: Dim, quads: seq<Quad>, w: Window, k: nat, a: Sub, b: Sub)
    requires k < d && Stored(d, quads, a) && Stored(d, quads, b) && Remote(w, a) && Remote(w, b)
    ensures Calls(w, Pairs(d, k, a, b)) == []
  {
    forall e | e in Pairs(d, k, a, b)
      ensures !Concerns(w, e)
    {
      PairsExactly(d, quads, k, a, b, e);
    }
    NoCalls(w, Pairs(d, k, a, b));
  }

  lemma RemoteVisit(d: Dim, quads: seq<Quad>, w: Window, a: Sub)
    requires Stored(d, quads, a) && Remote(w, a)
    ensures Calls(w, Visit(d, a)) == []
  {
    forall e | e in Visit(d, a)
      ensures !Concerns(w, e)
    {
      VisitExactly(d, quads, a, e);
    }
    NoCalls(w, Visit(d, a));
  }

  // ---------------------------------------------------------------- ranges on the stacks

  /** Absolute child boundaries of a split subtree, as the stacks hold them. */
  ghost function Bounds(a: Sub): seq<int>
    requires a.tree.Node?
  {
    seq(|a.tree.kids| + 1, i requires 0 <= i <= |a.tree.kids| => a.begin + Offset(a.tree, i))
  }

  ghost predicate RangeAt(stack: seq<seq<int>>, level: int, childId: nat, a: Sub) {
    && 0 <= level == |a.quad| && |stack| == level + 1 && childId + 1 < |stack[level]|
    && stack[level][childId] == a.begin && stack[level][childId + 1] == a.begin + Count(a.tree)
  }

  lemma KidRangeAt(d: Dim, quads: seq<Quad>, stack: seq<seq<int>>, a: Sub, x: nat)
    requires Stored(d, quads, a) && a.tree.Node? && x < NumChildren(d) && |stack| == |a.quad| + 1
    ensures RangeAt(stack + [Bounds(a)], |a.quad| + 1, x, Kid(d, a, x))
    ensures |Bounds(a)| == NumChildren(d) + 1
    ensures Bounds(a)[x] == a.begin + Offset(a.tree, x)
    ensures Bounds(a)[x + 1] == a.begin + Offset(a.tree, x) + Count(a.tree.kids[x])
  {
    StoredKid(d, quads, a, x);
    assert Offset(a.tree, x + 1) == Offset(a.tree, x) + Count(a.tree.kids[x]);
  }

  lemma ShiftedSplits(d: Dim, quads: seq<Quad>, a: Sub, rel: seq<int>)
    requires Stored(d, quads, a) && a.tree.Node? && rel == Splits(a.tree)
    ensures |rel| == NumChildren(d) + 1
    ensures Shifted(rel, a.begin) == Bounds(a)
  {
  }

  function Shifted(rel: seq<int>, start: int): seq<int> {
    seq(|rel|, i requires 0 <= i < |rel| => rel[i] + start)
  }

  // ---------------------------------------------------------------- frames of the traversal

  datatype Frame = Frame(level: int, nextChild: nat, haveFirstLevel: bool, firstChildLevel: int)

  /** What a frame stands for: a split subtree and its next child. */
  datatype Spot = Spot(sub: Sub, next: nat)

  ghost predicate OnPath(d: Dim, quads: seq<Quad>, path: seq<Spot>) {
    forall i :: 0 <= i < |path| ==> OpenAt(d, quads, path, i)
  }

  ghost predicate OpenAt(d: Dim, quads: seq<Quad>, path: seq<Spot>, i: nat)
    requires i < |path|
  {
    && Stored(d, quads, path[i].sub) && path[i].sub.tree.Node? && |path[i].sub.quad| == i
    && path[i].next <= NumChildren(d) && (i + 1 < |path| ==> path[i].next < NumChildren(d))
  }

  function Bumped(path: seq<Spot>): seq<Spot> {
    if path == [] then [] else path[|path| - 1 := Spot(path[|path| - 1].sub, path[|path| - 1].next + 1)]
  }

  /** Events still owed for one frame, from child x on. */
  ghost function RestOf(d: Dim, a: Sub, x: nat): seq<Event> {
    if Shape(NumChildren(d), a.tree) && a.tree.Node? && x <= NumChildren(d) then VisitKids(d, a, x) + Inner(d, a, 0)
    else []
  }

  /** Events still owed for the whole stack; below the top the current child is in progress. */
  ghost function Rest(d: Dim, path: seq<Spot>, skip: nat): seq<Event> {
    if path == [] then []
    else
      var n := |path| - 1;
      RestOf(d, path[n].sub, path[n].next + skip) + Rest(d, path[..n], 1)
  }

  ghost function EffortOf(d: Dim, a: Sub, x: nat): int {
    if Shape(NumChildren(d), a.tree) && a.tree.Node? && x <= NumChildren(d)
    then 1 + 2 * (Count(a.tree) - Offset(a.tree, x)) - (NumChildren(d) - x) else 0
  }

  ghost function Effort(d: Dim, path: seq<Spot>, skip: nat): int {
    if path == [] then 0
    else
      var n := |path| - 1;
      EffortOf(d, path[n].sub, path[n].next + skip) + Effort(d, path[..n], 1)
  }

  lemma EffortOfPositive(d: Dim, a: Sub, x: nat)
    requires Shape(NumChildren(d), a.tree) && a.tree.Node? && x <= NumChildren(d)
    ensures EffortOf(d, a, x) >= 1
  {
    OffsetPlusRest(NumChildren(d), a.tree, x);
    LeavesFromCount(NumChildren(d), a.tree, a.quad, x);
  }

  lemma {:induction false} EffortNatural(d: Dim, path: seq<Spot>, skip: nat)
    ensures Effort(d, path, skip) >= 0
  {
    if path != [] {
      var n := |path| - 1;
      EffortNatural(d, path[..n], 1);
      if EffortOf(d, path[n].sub, path[n].next + skip) != 0 {
        EffortOfPositive(d, path[n].sub, path[n].next + skip);
      }
    }
  }

  lemma BumpedPath(d: Dim, quads: seq<Quad>, path: seq<Spot>)
    requires OnPath(d, quads, path) && path != [] && path[|path| - 1].next < NumChildren(d)
    ensures OnPath(d, quads, Bumped(path))
  {
    var q := Bumped(path);
    hide Stored;
    forall i | 0 <= i < |q|
      ensures OpenAt(d, quads, q, i)
    {
      assert OpenAt(d, quads, path, i);
    }
  }

  lemma BumpedRest(d: Dim, path: seq<Spot>)
    ensures Rest(d, Bumped(path), 0) == Rest(d, path, 1) && Effort(d, Bumped(path), 0) == Effort(d, path, 1)
  {
    hide RestOf, EffortOf;
    if path != [] {
      assert Bumped(path)[..|path| - 1] == path[..|path| - 1];
    }
  }

  lemma PrefixPath(d: Dim, quads: seq<Quad>, path: seq<Spot>)
    requires OnPath(d, quads, path) && path != []
    ensures OnPath(d, quads, path[..|path| - 1])
    ensures |path| > 1 ==> path[|path| - 2].next < NumChildren(d)
  {
    forall i | 0 <= i < |path| - 1
      ensures OpenAt(d, quads, path[..|path| - 1], i) && path[i].next < NumChildren(d)
    {
      assert OpenAt(d, quads, path, i);
    }
  }

  /** Closing the top frame. */
  lemma FinishStep(d: Dim, quads: seq<Quad>, w: Window, path: seq<Spot>)
    requires OnPath(d, quads, path) && path != [] && path[|path| - 1].next == NumChildren(d)
    ensures |path| > 1 ==> path[|path| - 2].next < NumChildren(d)
    ensures var p, rest := path[|path| - 1].sub, Bumped(path[..|path| - 1]);
            && Stored(d, quads, p) && p.tree.Node? && |p.quad| == |path| - 1 && OnPath(d, quads, rest)
            && Calls(w, Rest(d, path, 0)) == Calls(w, Inner(d, p, 0)) + Calls(w, Rest(d, rest, 0))
            && 0 <= Effort(d, rest, 0) < Effort(d, path, 0)
  {
    var n := |path| - 1;
    var p := path[n].sub;
    TopSpot(d, quads, path);
    ClosedWhole(d, p);
    PrefixPath(d, quads, path);
    hide Inner, RestOf, EffortOf, OnPath, OpenAt, Calls, Holds, Shape, Bumped;
    CallsConcat(w, Inner(d, p, 0), Rest(d, path[..n], 1));
    BumpedPrefix(d, quads, path);
    BumpedRest(d, path[..n]);
    EffortNatural(d, Bumped(path[..n]), 0);
  }

  lemma ClosedWhole(d: Dim, a: Sub)
    requires Shape(NumChildren(d), a.tree) && a.tree.Node?
    ensures RestOf(d, a, NumChildren(d)) == Inner(d, a, 0) && EffortOf(d, a, NumChildren(d)) >= 1
  {
    assert VisitKids(d, a, NumChildren(d)) == [];
    EffortOfPositive(d, a, NumChildren(d));
  }

  lemma BumpedPrefix(d: Dim, quads: seq<Quad>, path: seq<Spot>)
    requires OnPath(d, quads, path) && path != []
    ensures OnPath(d, quads, Bumped(path[..|path| - 1]))
  {
    PrefixPath(d, quads, path);
    if |path| > 1 {
      BumpedPath(d, quads, path[..|path| - 1]);
    }
  }

  /** The next child of the top frame taken on its own. */
  lemma VisitStep(d: Dim, quads: seq<Quad>, w: Window, path: seq<Spot>)
    requires OnPath(d, quads, path) && path != [] && path[|path| - 1].next < NumChildren(d)
    ensures var t := path[|path| - 1];
            && Stored(d, quads, t.sub) && t.sub.tree.Node? && |t.sub.quad| == |path| - 1
            && Stored(d, quads, Kid(d, t.sub, t.next)) && OnPath(d, quads, Bumped(path))
            && Calls(w, Rest(d, path, 0)) ==
               Calls(w, Visit(d, Kid(d, t.sub, t.next))) + Calls(w, Rest(d, Bumped(path), 0))
            && 0 <= Effort(d, Bumped(path), 0) < Effort(d, path, 0)
  {
    var n, t := |path| - 1, path[|path| - 1];
    TopSpot(d, quads, path);
    var a := Kid(d, t.sub, t.next);
    BumpedPath(d, quads, path);
    BumpedRest(d, path);
    EffortNatural(d, Bumped(path), 0);
    OneMoreKid(d, quads, t.sub, t.next);
    hide RestOf, EffortOf, OnPath, OpenAt, Calls, Visit, Holds, Shape, Count, Offset, Child;
    var x, y, z := Visit(d, a), RestOf(d, t.sub, t.next + 1), Rest(d, path[..n], 1);
    EventsAssociate(x, y, z);
    CallsConcat(w, x, y + z);
  }

  lemma EventsAssociate(x: seq<Event>, y: seq<Event>, z: seq<Event>)
    ensures (x + y) + z == x + (y + z)
  {
  }

  lemma TopSpot(d: Dim, quads: seq<Quad>, path: seq<Spot>)
    requires OnPath(d, quads, path) && path != []
    ensures var t := path[|path| - 1]; Stored(d, quads, t.sub) && t.sub.tree.Node? && |t.sub.quad| == |path| - 1
  {
    assert OpenAt(d, quads, path, |path| - 1);
  }

  lemma OneMoreKid(d: Dim, quads: seq<Quad>, a: Sub, x: nat)
    requires Stored(d, quads, a) && a.tree.Node? && x < NumChildren(d)
    ensures Stored(d, quads, Kid(d, a, x))
    ensures RestOf(d, a, x) == Visit(d, Kid(d, a, x)) + RestOf(d, a, x + 1)
    ensures EffortOf(d, a, x) == EffortOf(d, a, x + 1) + 2 * Count(Kid(d, a, x).tree) - 1
    ensures Count(Kid(d, a, x).tree) >= 1
  {
    StoredKid(d, quads, a, x);
    LeavesCount(NumChildren(d), a.tree.kids[x], a.quad);
    RestOfUnfolds(d, a, x);
  }

  lemma RestOfUnfolds(d: Dim, a: Sub, x: nat)
    requires Shape(NumChildren(d), a.tree) && a.tree.Node? && x < NumChildren(d)
    requires Shape(NumChildren(d), a.tree.kids[x])
    ensures RestOf(d, a, x) == Visit(d, Kid(d, a, x)) + RestOf(d, a, x + 1)
  {
    assert VisitKids(d, a, x) == Visit(d, Kid(d, a, x)) + VisitKids(d, a, x + 1);
    hide Visit, VisitKids, Inner, Shape;
    EventsAssociate(Visit(d, Kid(d, a, x)), VisitKids(d, a, x + 1), Inner(d, a, 0));
  }

  lemma PushedPath(d: Dim, quads: seq<Quad>, path: seq<Spot>, a: Sub)
    requires OnPath(d, quads, path) && path != [] && path[|path| - 1].next < NumChildren(d)
    requires Stored(d, quads, a) && a.tree.Node? && |a.quad| == |path|
    ensures OnPath(d, quads, path + [Spot(a, 0)])
  {
    var q := path + [Spot(a, 0)];
    hide Stored;
    forall i | 0 <= i < |q|
      ensures OpenAt(d, quads, q, i)
    {
      if i < |path| {
        assert OpenAt(d, quads, path, i);
      }
    }
  }

  /** Opening a frame for a split child. */
  lemma DescendStep(d: Dim, quads: seq<Quad>, path: seq<Spot>, t: Spot, a: Sub)
    requires OnPath(d, quads, path) && path != [] && t == path[|path| - 1] && t.next < NumChildren(d)
    requires Stored(d, quads, t.sub) && t.sub.tree.Node? && a == Kid(d, t.sub, t.next) && a.tree.Node?
    ensures OnPath(d, quads, path + [Spot(a, 0)])
    ensures Rest(d, path + [Spot(a, 0)], 0) == Rest(d, path, 0)
    ensures 0 <= Effort(d, path + [Spot(a, 0)], 0) < Effort(d, path, 0)
  {
    var n, q := |path| - 1, path + [Spot(a, 0)];
    TopSpot(d, quads, path);
    OneMoreKid(d, quads, t.sub, t.next);
    PushedPath(d, quads, path, a);
    OpenedWhole(d, a);
    EffortNatural(d, q, 0);
    hide RestOf, EffortOf, OnPath, OpenAt, Visit, Holds, Shape, Count, Offset, Kid;
    assert q[..n + 1] == path;
    EventsAssociate(RestOf(d, a, 0), RestOf(d, t.sub, t.next + 1), Rest(d, path[..n], 1));
  }

  lemma OpenedWhole(d: Dim, a: Sub)
    requires Shape(NumChildren(d), a.tree) && a.tree.Node?
    ensures Visit(d, a) == RestOf(d, a, 0) && EffortOf(d, a, 0) < 2 * Count(a.tree) - 1
  {
  }

  lemma VisitLeaf(d: Dim, w: Window, a: Sub)
    requires a.tree.Leaf? && !Remote(w, a)
    ensures Calls(w, Visit(d, a)) == [VolumeCall(a.begin - w.treeBegin, a.quad)]
  {
    var e := Volume(a.begin, a.quad);
    assert Visit(d, a) == [e] && [e][1..] == [];
    assert Calls(w, [e]) == CallFor(w, e) + Calls(w, []);
  }

  // ---------------------------------------------------------------- rows of the stacks

  /** The call names a leaf on level m. */
  predicate NamesLevel(c: Call, m: nat) {
    match c
    case VolumeCall(_, q) => |q| == m
    case FaceCall(_, _, s0, s1) => |s0.quad| == m || |s1.quad| == m
  }

  ghost predicate AnyOnLevel(calls: seq<Call>, m: nat) {
    exists c :: c in calls && NamesLevel(c, m)
  }

  /** The rank owns a leaf of the tree on level m. */
  ghost predicate LocalOnLevel(quads: seq<Quad>, w: Window, m: nat) {
    exists i :: 0 <= i < |quads| && w.LocalBegin() <= i < w.LocalEnd() && |quads[i]| == m
  }

  /** How the overrun flag may change while the calls `made` are made: it is never withdrawn,
      it is set when a leaf on level m is named, and only for such a leaf or a local one. */
  ghost predicate Overran(before: bool, after: bool, local: bool, made: seq<Call>, m: nat) {
    && (before || AnyOnLevel(made, m) ==> after)
    && (after ==> before || local || AnyOnLevel(made, m))
  }

  lemma OverranConcat(b0: bool, b1: bool, b2: bool, local: bool, s: seq<Call>, t: seq<Call>, m: nat)
    requires Overran(b0, b1, local, s, m) && Overran(b1, b2, local, t, m)
    ensures Overran(b0, b2, local, s + t, m)
  {
    forall c | c in s || c in t
      ensures c in s + t
    {
    }
  }

  /** A split subtree just above level m that is not remote has a local leaf on level m. */
  lemma SplitAboveLocal(d: Dim, quads: seq<Quad>, w: Window, a: Sub, m: nat)
    requires Stored(d, quads, a) && a.tree.Node? && |a.quad| + 1 == m && !Remote(w, a)
    requires forall i :: 0 <= i < |quads| ==> |quads[i]| <= m
    ensures w.HasLocal() ==> LocalOnLevel(quads, w, m)
  {
    if w.HasLocal() {
      var i := Max(a.begin, w.LocalBegin());
      LeavesCount(NumChildren(d), a.tree, a.quad);
      LeafInKid(d, quads, a, i);
      assert |quads[i]| == m;
    }
  }

  /** Both sides of a face are on one level, unless the coarser one is a leaf. */
  predicate Level(a: Sub, b: Sub) {
    |a.quad| == |b.quad| || (if |a.quad| < |b.quad| then a.tree.Leaf? else b.tree.Leaf?)
  }

  /** A side that is split just above level m has a leaf on level m that is local or is
      reported with the other side. */
  lemma SplitAboveNamed(d: Dim, quads: seq<Quad>, w: Window, k: nat, a: Sub, b: Sub, m: nat)
    requires k < d && Stored(d, quads, a) && Stored(d, quads, b) && Level(a, b) && !(Remote(w, a) && Remote(w, b))
    requires forall i :: 0 <= i < |quads| ==> |quads[i]| <= m
    requires (a.tree.Node? && |a.quad| + 1 == m) || (b.tree.Node? && |b.quad| + 1 == m)
    ensures w.HasLocal() ==> LocalOnLevel(quads, w, m) || AnyOnLevel(Calls(w, Pairs(d, k, a, b)), m)
  {
    if a.tree.Node? && |a.quad| + 1 == m && !Remote(w, a) {
      SplitAboveLocal(d, quads, w, a, m);
    } else if b.tree.Node? && |b.quad| + 1 == m && !Remote(w, b) {
      SplitAboveLocal(d, quads, w, b, m);
    } else {
      hide Calls, Pairs, PairsFrom, Remote, Holds, Shape, Down;
      var x, y := Down(d, a, UpperFace(k), 0), Down(d, b, LowerFace(k), 0);
      PairsUnfold(d, quads, k, a, b);
      PairsStep(d, quads, w, k, a, b, 0);
      DownOnLevel(d, quads, w, k, a, b, m);
      PairOfLeaves(d, quads, w, k, x, y);
      var c := FaceCall(UpperFace(k), LowerFace(k), SideOf(w, x.begin, x.quad), SideOf(w, y.begin, y.quad));
      assert c in Calls(w, Pairs(d, k, x, y)) && NamesLevel(c, m);
      assert c in Calls(w, Pairs(d, k, a, b));
    }
  }

  /** One side is a local leaf, the other is split just above level m. */
  lemma DownOnLevel(d: Dim, quads: seq<Quad>, w: Window, k: nat, a: Sub, b: Sub, m: nat)
    requires k < d && Stored(d, quads, a) && Stored(d, quads, b) && !(Remote(w, a) && Remote(w, b)) && Level(a, b)
    requires forall i :: 0 <= i < |quads| ==> |quads[i]| <= m
    requires (a.tree.Node? && |a.quad| + 1 == m) || (b.tree.Node? && |b.quad| + 1 == m)
    requires a.tree.Node? && |a.quad| + 1 == m ==> Remote(w, a)
    requires b.tree.Node? && |b.quad| + 1 == m ==> Remote(w, b)
    ensures var x, y := Down(d, a, UpperFace(k), 0), Down(d, b, LowerFace(k), 0);
            && Stored(d, quads, x) && Stored(d, quads, y) && x.tree.Leaf? && y.tree.Leaf?
            && !(Remote(w, x) && Remote(w, y))
            && (|x.quad| == m || |y.quad| == m)
  {
    hide Remote, Holds, Shape, Count;
    FaceCornerFacts(d, k, 0);
    StoredLevel(d, quads, a);
    StoredLevel(d, quads, b);
    StoredDown(d, quads, a, UpperFace(k), 0);
    StoredDown(d, quads, b, LowerFace(k), 0);
    StoredLevel(d, quads, Down(d, a, UpperFace(k), 0));
    StoredLevel(d, quads, Down(d, b, LowerFace(k), 0));
    DownLevel(d, a, UpperFace(k), 0);
    DownLevel(d, b, LowerFace(k), 0);
  }

  lemma DownLevel(d: Dim, a: Sub, face: nat, i: nat)
    requires Shape(NumChildren(d), a.tree) && face < 2 * d && i < Half(d) && FaceCorner(d, face, i) < NumChildren(d)
    ensures |Down(d, a, face, i).quad| == |a.quad| + if a.tree.Leaf? then 0 else 1
    ensures a.tree.Leaf? ==> Down(d, a, face, i) == a
  {
  }

  lemma {:induction false} CallsHave(w: Window, events: seq<Event>, e: Event)
    requires e in events && Concerns(w, e) && (e.Face? ==> e.face < 6)
    ensures CallOf(w, e) in Calls(w, events)
  {
    if e == events[0] {
      assert CallOf(w, e) in CallFor(w, e);
    } else {
      CallsHave(w, events[1..], e);
    }
  }

  /** A local leaf on level m is named by its own call. */
  lemma LocalIsNamed(d: Dim, quads: seq<Quad>, w: Window, root: Sub, m: nat)
    requires Stored(d, quads, root) && root.quad == [] && root.begin == w.treeBegin
    requires w.treeEnd == w.treeBegin + Count(root.tree)
    requires LocalOnLevel(quads, w, m)
    ensures AnyOnLevel(Calls(w, Visit(d, root)), m)
  {
    hide Calls, Visit, Shape, Holds, Count;
    var i :| 0 <= i < |quads| && w.LocalBegin() <= i < w.LocalEnd() && |quads[i]| == m;
    VisitExactly(d, quads, root, Volume(i, quads[i]));
    CallsHave(w, Visit(d, root), Volume(i, quads[i]));
    assert NamesLevel(CallOf(w, Volume(i, quads[i])), m);
  }

  // ---------------------------------------------------------------- the search area

  class SearchArea {
    const d: Dim
    const quads: seq<Quad>
    const w: Window
    const cache: Cache
    const maxLevel: nat

    var calls: seq<Call>

    /** A row was used that the source does not have: its stacks and its array of counters
        end with row maxLevel - 1. The rows of the model go on, those of the source do not,
        so the calls are the source's only as long as this is false. */
    var overrun: bool

    var level: int
    var volStack: seq<seq<int>>

    var nface: seq<nat>
    var levelFace: seq<int>
    var isRefine: seq<bool>
    var childIdFace: seq<nat>
    var faceStack: seq<seq<seq<int>>>
    var sides: seq<FaceSide>

    constructor (d: Dim, quads: seq<Quad>, w: Window, maxLevel: nat)
      requires 1 <= maxLevel && forall i :: 0 <= i < |quads| ==> |quads[i]| <= maxLevel
      ensures this.d == d && this.quads == quads && this.w == w && this.maxLevel == maxLevel && fresh(cache)
      ensures Fixed() && FaceRows() && calls == [] && !overrun
    {
      this.d, this.quads, this.w, this.maxLevel, overrun := d, quads, w, maxLevel, false;
      var unset := FaceSide(0, [], false);
      calls, nface, levelFace, isRefine, childIdFace := [], [0, 0], [0, 0], [false, false], [0, 0];
      faceStack, sides := [[], []], [unset, unset];
      level, volStack := 0, [];
      cache := new Cache(NumChildren(d), quads, maxLevel);
    }

    ghost predicate Fixed()
      reads cache
    {
      && cache.Valid(NumChildren(d), quads)
      && 1 <= maxLevel == |cache.rings|
      && forall i :: 0 <= i < |quads| ==> |quads[i]| <= maxLevel
    }

    /** How the flag may have changed since it was `before`, the calls from number n on having
        been made meanwhile. */
    ghost predicate Flagged(before: bool, n: nat)
      requires n <= |calls|
      reads this`calls, this`overrun
    {
      Overran(before, overrun, Excused(), calls[n..], maxLevel)
    }

    /** An overrun may come from a local leaf whose call is still to be made; a tree without
        local leaves, which no rank iterates over, is not accounted for. */
    ghost predicate Excused() {
      w.HasLocal() ==> LocalOnLevel(quads, w, maxLevel)
    }

    /** The stacks have a row for the level, or the overrun has been noted. */
    ghost predicate Row(level: int)
      reads this`overrun
    {
      level < maxLevel || overrun
    }

    ghost predicate TwoSided(k: nat)
      reads this`nface, this`levelFace, this`isRefine, this`childIdFace, this`faceStack, this`sides
    {
      && k < d && nface == [UpperFace(k), LowerFace(k)]
      && |levelFace| == 2 && |isRefine| == 2 && |childIdFace| == 2 && |faceStack| == 2 && |sides| == 2
    }

    /** Side s of the face is positioned at the subtree a. */
    ghost predicate Positioned(s: nat, a: Sub)
      requires s < 2 && |levelFace| == 2 && |isRefine| == 2 && |childIdFace| == 2 && |faceStack| == 2 && |sides| == 2
      reads this
    {
      && Stored(d, quads, a) && RangeAt(faceStack[s], levelFace[s], childIdFace[s], a)
      && (!isRefine[s] ==> a.tree.Leaf? && sides[s] == SideOf(w, a.begin, a.quad))
    }

    /** Looks at the first quadrant of a side's range: a leaf is recorded and not refined. */
    method Examine(s: nat, ghost a: Sub, ghost k: nat)
      requires s < 2 && TwoSided(k) && Positioned(s, a)
      modifies this`isRefine, this`sides
      ensures isRefine == old(isRefine)[s := a.tree.Node?]
      ensures sides == if a.tree.Leaf? then old(sides)[s := SideOf(w, a.begin, a.quad)] else old(sides)
    {
      FirstLeafLevel(NumChildren(d), quads, a.begin, a.tree, a.quad);
      if isRefine[s] {
        var begin, end := faceStack[s][levelFace[s]][childIdFace[s]], faceStack[s][levelFace[s]][childIdFace[s] + 1];
        var firstQuad := quads[begin];
        if |firstQuad| == levelFace[s] {
          isRefine := isRefine[s := false];
          sides := sides[s := FaceSide(begin - w.treeBegin, firstQuad, begin < w.rankBegin || end > w.rankEnd)];
        }
      }
    }

    /** Pushes the child boundaries of a side's range. */
    method PushSplit(s: nat, ghost a: Sub, ghost k: nat)
      requires s < 2 && TwoSided(k) && Positioned(s, a) && a.tree.Node? && Fixed()
      modifies this`faceStack, this`overrun, cache
      ensures Fixed()
      ensures faceStack == old(faceStack)[s := old(faceStack)[s] + [Bounds(a)]]
      ensures overrun == (old(overrun) || |a.quad| + 1 == maxLevel)
    {
      FirstLeafLevel(NumChildren(d), quads, a.begin, a.tree, a.quad);
      var begin, end := faceStack[s][levelFace[s]][childIdFace[s]], faceStack[s][levelFace[s]][childIdFace[s] + 1];
      var rel := cache.Split(NumChildren(d), quads, levelFace[s], begin, end, a.tree, a.quad);
      ShiftedSplits(d, quads, a, rel);
      overrun := overrun || |faceStack[s]| >= maxLevel;
      faceStack := faceStack[s := faceStack[s] + [Shifted(rel, begin)]];
    }

    /** Moves a side to its child at corner i of the face. */
    method EnterChild(s: nat, i: nat, ghost k: nat)
      requires s < 2 && TwoSided(k) && i < Half(d)
      modifies this`levelFace, this`childIdFace
      ensures levelFace == old(levelFace)[s := old(levelFace)[s] + 1]
      ensures childIdFace == old(childIdFace)[s := FaceCorner(d, if s == 0 then UpperFace(k) else LowerFace(k), i)]
    {
      FaceCornerFacts(d, k, i);
      var idx := i;
      if s == 1 {
        idx := NeighborFaceCorner(d, nface[0], nface[1], idx);
      }
      childIdFace := childIdFace[s := FaceCorner(d, nface[s], idx)];
      levelFace := levelFace[s := levelFace[s] + 1];
    }

    /** Between two corners: the split sides hold their child boundaries on top of the stack
        and are to be refined, the leaf sides are as they were recorded. */
    ghost predicate Ready(k: nat, a: Sub, b: Sub, level0: seq<int>, stack0: seq<seq<seq<int>>>)
      reads this
    {
      && TwoSided(k) && |level0| == 2 && |stack0| == 2
      && levelFace == level0 && isRefine == [a.tree.Node?, b.tree.Node?]
      && SideReady(0, a, level0[0], stack0[0]) && SideReady(1, b, level0[1], stack0[1])
    }

    ghost predicate SideReady(s: nat, a: Sub, level0: int, stack0: seq<seq<int>>)
      requires s < 2 && |childIdFace| == 2 && |faceStack| == 2 && |sides| == 2
      reads this
    {
      && Stored(d, quads, a) && level0 == |a.quad| && |stack0| == level0 + 1
      && faceStack[s] == Pushed(stack0, a)
      && (a.tree.Leaf? ==> RangeAt(stack0, level0, childIdFace[s], a) && sides[s] == SideOf(w, a.begin, a.quad))
    }

    /** Moves every split side to its child at corner i. */
    method EnterChildren(i: nat, ghost k: nat, ghost a: Sub, ghost b: Sub, ghost level0: seq<int>,
                         ghost stack0: seq<seq<seq<int>>>)
      requires i < Half(d) && Ready(k, a, b, level0, stack0)
      modifies this`levelFace, this`childIdFace
      ensures TwoSided(k)
      ensures Positioned(0, Down(d, a, UpperFace(k), i)) && Positioned(1, Down(d, b, LowerFace(k), i))
      ensures levelFace == [level0[0] + if isRefine[0] then 1 else 0, level0[1] + if isRefine[1] then 1 else 0]
      ensures forall s :: 0 <= s < 2 && !isRefine[s] ==> childIdFace[s] == old(childIdFace)[s]
    {
      hide Stored, SideOf, Bounds, FaceCorner;
      FaceCornerFacts(d, k, i);
      if isRefine[0] {
        EnterChild(0, i, k);
        KidRangeAt(d, quads, stack0[0], a, FaceCorner(d, UpperFace(k), i));
        StoredKid(d, quads, a, FaceCorner(d, UpperFace(k), i));
      }
      if isRefine[1] {
        EnterChild(1, i, k);
        KidRangeAt(d, quads, stack0[1], b, FaceCorner(d, LowerFace(k), i));
        StoredKid(d, quads, b, FaceCorner(d, LowerFace(k), i));
      }
    }

    /** The recursion over the two sides of a face reports exactly the pairs of the structural
        specification, in its order, and leaves stacks and levels as it found them. */
    method IterateFace(ghost k: nat, ghost a: Sub, ghost b: Sub)
      requires Fixed() && TwoSided(k) && Positioned(0, a) && Positioned(1, b)
      requires Level(a, b) && Row(|a.quad|) && Row(|b.quad|)
      modifies this`calls, this`levelFace, this`isRefine, this`childIdFace, this`faceStack, this`sides, this`overrun
      modifies cache
      ensures Fixed() && TwoSided(k)
      ensures calls == old(calls) + Calls(w, Pairs(d, k, a, b))
      ensures Flagged(old(overrun), |old(calls)|) && (old(overrun) ==> overrun)
      ensures levelFace == old(levelFace) && faceStack == old(faceStack)
      ensures forall s :: 0 <= s < 2 && !old(isRefine)[s] ==>
                !isRefine[s] && childIdFace[s] == old(childIdFace)[s] && sides[s] == old(sides)[s]
      decreases Count(a.tree) + Count(b.tree)
    {
      hide Stored, SideOf, Bounds, FaceCorner, Calls, Pairs, PairsFrom, Count, Cache.Valid, Shape, Holds, Overran;
      var begin0, end0 := faceStack[0][levelFace[0]][childIdFace[0]], faceStack[0][levelFace[0]][childIdFace[0] + 1];
      var begin1, end1 := faceStack[1][levelFace[1]][childIdFace[1]], faceStack[1][levelFace[1]][childIdFace[1] + 1];
      if (begin0 >= w.LocalEnd() || end0 <= w.LocalBegin()) && (begin1 >= w.LocalEnd() || end1 <= w.LocalBegin()) {
        RemotePairs(d, quads, w, k, a, b);
        FlagKept(old(calls));
        return;
      }
      Examine(0, a, k);
      Examine(1, b, k);
      if !isRefine[0] && !isRefine[1] {
        PairOfLeaves(d, quads, w, k, a, b);
        calls := calls + [FaceCall(nface[0], nface[1], sides[0], sides[1])];
        FlagFace(old(calls), nface[0], nface[1], a, b);
        return;
      }
      SplitFace(k, a, b);
    }

    /** A face with a side to be refined: the boundaries of the children are pushed, then every
        corner is visited. */
    method SplitFace(ghost k: nat, ghost a: Sub, ghost b: Sub)
      requires Fixed() && TwoSided(k) && Positioned(0, a) && Positioned(1, b)
      requires isRefine == [a.tree.Node?, b.tree.Node?]
      requires (a.tree.Node? || b.tree.Node?) && !(Remote(w, a) && Remote(w, b)) && Level(a, b) && Row(|a.quad|)
      requires Row(|b.quad|)
      modifies this`calls, this`levelFace, this`isRefine, this`childIdFace, this`faceStack, this`sides, this`overrun
      modifies cache
      ensures Fixed() && TwoSided(k)
      ensures calls == old(calls) + Calls(w, Pairs(d, k, a, b))
      ensures Flagged(old(overrun), |old(calls)|) && (old(overrun) ==> overrun)
      ensures levelFace == old(levelFace) && faceStack == old(faceStack)
      ensures forall s :: 0 <= s < 2 && !old(isRefine)[s] ==>
                !isRefine[s] && childIdFace[s] == old(childIdFace)[s] && sides[s] == old(sides)[s]
      decreases Count(a.tree) + Count(b.tree), 2
    {
      hide Stored, SideOf, Bounds, FaceCorner, Calls, Pairs, PairsFrom, Count, Cache.Valid, Shape, Holds, Overran;
      hide Level, Remote;
      ghost var level0, stack0 := levelFace, faceStack;
      RowsPushed(a, b);
      PushSplits(k, a, b);
      ghost var pushed := overrun;
      IterateCorners(k, a, b, level0, stack0);
      FlagPushed(old(overrun), pushed, old(calls), k, a, b);
    }

    /** A side above the maximum level has a row for its children unless the flag is set. */
    lemma RowsPushed(a: Sub, b: Sub)
      requires Fixed() && Stored(d, quads, a) && Stored(d, quads, b)
      ensures a.tree.Node? ==> |a.quad| + 1 <= maxLevel
      ensures b.tree.Node? ==> |b.quad| + 1 <= maxLevel
    {
      StoredLevel(d, quads, a);
      StoredLevel(d, quads, b);
    }

    /** Pushes the child boundaries of each side that is to be refined. */
    method PushSplits(ghost k: nat, ghost a: Sub, ghost b: Sub)
      requires Fixed() && TwoSided(k) && Positioned(0, a) && Positioned(1, b)
      requires isRefine == [a.tree.Node?, b.tree.Node?]
      modifies this`faceStack, this`overrun, cache
      ensures Fixed() && Ready(k, a, b, levelFace, old(faceStack))
      ensures overrun ==
              (old(overrun) || (a.tree.Node? && |a.quad| + 1 == maxLevel) || (b.tree.Node? && |b.quad| + 1 == maxLevel))
    {
      hide Stored, SideOf, Bounds, Cache.Valid, Shape, Holds, Count;
      if isRefine[0] {
        PushSplit(0, a, k);
      }
      if isRefine[1] {
        PushSplit(1, b, k);
      }
    }

    /** The loop over the corners of the face. */
    method IterateCorners(ghost k: nat, ghost a: Sub, ghost b: Sub, ghost level0: seq<int>,
                          ghost stack0: seq<seq<seq<int>>>)
      requires Fixed() && Ready(k, a, b, level0, stack0) && (a.tree.Node? || b.tree.Node?) && Level(a, b)
      requires Row(|a.quad| + if a.tree.Node? then 1 else 0) && Row(|b.quad| + if b.tree.Node? then 1 else 0)
      modifies this`calls, this`levelFace, this`isRefine, this`childIdFace, this`faceStack, this`sides, this`overrun
      modifies cache
      ensures Fixed() && TwoSided(k)
      ensures calls == old(calls) + Calls(w, Pairs(d, k, a, b))
      ensures Flagged(old(overrun), |old(calls)|) && (old(overrun) ==> overrun)
      ensures levelFace == level0 && faceStack == stack0
      ensures forall s :: 0 <= s < 2 && !old(isRefine)[s] ==>
                !isRefine[s] && childIdFace[s] == old(childIdFace)[s] && sides[s] == old(sides)[s]
      decreases Count(a.tree) + Count(b.tree), 1
    {
      hide Shape, Holds, SideOf, Bounds, FaceCorner, Calls, Pairs, PairsFrom, Count, Cache.Valid, Overran, Level, Down;
      hide Ready;
      var i := 0;
      ghost var calls0, refine0, child0, sides0, overrun0 := calls, isRefine, childIdFace, sides, overrun;
      SidesStored(k, a, b, level0, stack0);
      PairsUnfold(d, quads, k, a, b);
      FlagKept(calls);
      while i < Half(d)
        invariant 0 <= i <= Half(d) && Fixed() && TwoSided(k)
        invariant i < Half(d) ==> Ready(k, a, b, level0, stack0)
        invariant i == Half(d) ==> levelFace == level0 && faceStack == stack0
        invariant forall s :: 0 <= s < 2 && !refine0[s] ==>
                    !isRefine[s] && childIdFace[s] == child0[s] && sides[s] == sides0[s]
        invariant calls + Calls(w, PairsFrom(d, k, a, b, i)) == calls0 + Calls(w, Pairs(d, k, a, b))
        invariant calls0 <= calls && Flagged(overrun0, |calls0|) && (overrun0 ==> overrun)
      {
        ghost var before, flag := calls, overrun;
        PairsStep(d, quads, w, k, a, b, i);
        IterateCorner(i, k, a, b, level0, stack0);
        CallsStep(w, before, Calls(w, Pairs(d, k, Down(d, a, UpperFace(k), i), Down(d, b, LowerFace(k), i))),
                  Calls(w, PairsFrom(d, k, a, b, i + 1)));
        FlagStep(overrun0, flag, calls0, before);
        i := i + 1;
      }
      PairsEnd(d, w, k, a, b);
    }

    lemma SidesStored(k: nat, a: Sub, b: Sub, level0: seq<int>, stack0: seq<seq<seq<int>>>)
      requires Ready(k, a, b, level0, stack0)
      ensures Stored(d, quads, a) && Stored(d, quads, b) && TwoSided(k) && isRefine == [a.tree.Node?, b.tree.Node?]
    {
    }

    /** One corner: down on the split sides, the two quarters of the face, and up again. */
    method IterateCorner(i: nat, ghost k: nat, ghost a: Sub, ghost b: Sub, ghost level0: seq<int>,
                         ghost stack0: seq<seq<seq<int>>>)
      requires Fixed() && i < Half(d) && Ready(k, a, b, level0, stack0) && (a.tree.Node? || b.tree.Node?) && Level(a, b)
      requires Stored(d, quads, a) && Stored(d, quads, b)
      requires Row(|a.quad| + if a.tree.Node? then 1 else 0) && Row(|b.quad| + if b.tree.Node? then 1 else 0)
      modifies this`calls, this`levelFace, this`isRefine, this`childIdFace, this`faceStack, this`sides, this`overrun
      modifies cache
      ensures Fixed() && TwoSided(k)
      ensures i != Half(d) - 1 ==> Ready(k, a, b, level0, stack0)
      ensures i == Half(d) - 1 ==> levelFace == level0 && faceStack == stack0
      ensures calls == old(calls) + Calls(w, Pairs(d, k, Down(d, a, UpperFace(k), i), Down(d, b, LowerFace(k), i)))
      ensures Flagged(old(overrun), |old(calls)|) && (old(overrun) ==> overrun)
      ensures forall s :: 0 <= s < 2 && !old(isRefine)[s] ==>
                !isRefine[s] && childIdFace[s] == old(childIdFace)[s] && sides[s] == old(sides)[s]
      decreases Count(a.tree) + Count(b.tree), 0
    {
      hide Shape, Holds, SideOf, Bounds, FaceCorner, Calls, Pairs, PairsFrom, Count, Cache.Valid, Overran, Level, Down;
      var increased := isRefine;
      PairsStep(d, quads, w, k, a, b, i);
      RowsBelow(k, a, b, i);
      EnterChildren(i, k, a, b, level0, stack0);
      IterateFace(k, Down(d, a, UpperFace(k), i), Down(d, b, LowerFace(k), i));
      LeaveChildren(i, increased, k, a, b, level0, stack0);
    }

    /** After a corner the split sides go back up; after the last one their boundaries go too. */
    method LeaveChildren(i: nat, increased: seq<bool>, ghost k: nat, ghost a: Sub, ghost b: Sub,
                         ghost level0: seq<int>, ghost stack0: seq<seq<seq<int>>>)
      requires i < Half(d) && TwoSided(k) && |level0| == 2 && |stack0| == 2 && increased == [a.tree.Node?, b.tree.Node?]
      requires levelFace == [level0[0] + if increased[0] then 1 else 0, level0[1] + if increased[1] then 1 else 0]
      requires SideReady(0, a, level0[0], stack0[0]) && SideReady(1, b, level0[1], stack0[1])
      requires forall s :: 0 <= s < 2 && !increased[s] ==> !isRefine[s]
      modifies this`levelFace, this`isRefine, this`faceStack
      ensures TwoSided(k)
      ensures i != Half(d) - 1 ==> Ready(k, a, b, level0, stack0)
      ensures i == Half(d) - 1 ==> levelFace == level0 && faceStack == stack0
      ensures forall s :: 0 <= s < 2 && !increased[s] ==> !isRefine[s]
    {
      hide Stored, RangeAt, SideOf, Bounds;
      levelFace := [if increased[0] then levelFace[0] - 1 else levelFace[0],
                    if increased[1] then levelFace[1] - 1 else levelFace[1]];
      if i != Half(d) - 1 {
        isRefine := increased;
      } else {
        PopSplits(increased);
      }
    }

    /** Drops the top of the stack of each side that was split. */
    method PopSplits(split: seq<bool>)
      requires |split| == 2 && |faceStack| == 2 && forall s :: 0 <= s < 2 && split[s] ==> faceStack[s] != []
      modifies this`faceStack
      ensures faceStack == [if split[0] then Popped(old(faceStack)[0]) else old(faceStack)[0],
                            if split[1] then Popped(old(faceStack)[1]) else old(faceStack)[1]]
    {
      if split[0] {
        faceStack := faceStack[0 := Popped(faceStack[0])];
      }
      if split[1] {
        faceStack := faceStack[1 := Popped(faceStack[1])];
      }
    }

    // -------------------------------------------------------------- inner faces

    /** Rows of the face stacks have room for all child boundaries. */
    ghost predicate FaceRows()
      reads this`faceStack
    {
      |faceStack| == 2 && forall s, l :: 0 <= s < 2 && 1 <= l < |faceStack[s]| ==>
        |faceStack[s][l]| == NumChildren(d) + 1
    }

    /** p4est3_iterate_face_inner_init */
    method StartInnerFace(child: nat, neighbor: nat, ghost k: nat, ghost p: Sub)
      requires k < d && nface == [UpperFace(k), LowerFace(k)] && |sides| == 2 && FaceRows()
      requires child < NumChildren(d) && neighbor < NumChildren(d)
      requires AtChildren(p)
      modifies this`levelFace, this`isRefine, this`childIdFace, this`faceStack
      ensures TwoSided(k) && FaceRows()
      ensures Positioned(0, Kid(d, p, child)) && Positioned(1, Kid(d, p, neighbor))
    {
      hide Stored, Bounds, Kid, RangeAt, Inherit, Resized, Count, Offset, Splits;
      var width := NumChildren(d) + 1;
      InheritedRange(d, quads, faceStack[0], p, child, volStack[level]);
      InheritedRange(d, quads, faceStack[1], p, neighbor, volStack[level]);
      levelFace, isRefine, childIdFace := [level, level], [true, true], [child, neighbor];
      faceStack := [Inherit(Resized(faceStack[0], level + 1, width), volStack[level], child),
                    Inherit(Resized(faceStack[1], level + 1, width), volStack[level], neighbor)];
    }

    /** p4est3_iterate_face_inner */
    method IterateFaceInner(ghost p: Sub)
      requires Fixed() && FaceRows() && |sides| == 2 && AtChildren(p) && Row(level)
      modifies this`calls, this`levelFace, this`isRefine, this`childIdFace, this`faceStack, this`sides, this`nface
      modifies this`overrun, cache
      ensures Fixed() && FaceRows() && |sides| == 2
      ensures calls == old(calls) + Calls(w, Inner(d, p, 0))
      ensures Flagged(old(overrun), |old(calls)|)
    {
      hide Holds, Shape, Bounds, Calls, Inner, FaceRows, Cache.Valid, Overran;
      var i := 0;
      ghost var calls0, overrun0 := calls, overrun;
      FlagKept(calls);
      while i < NumInnerFaces(d)
        invariant 0 <= i <= NumInnerFaces(d) && Fixed() && FaceRows() && |sides| == 2
        invariant calls0 <= calls && Flagged(overrun0, |calls0|) && Row(level)
        invariant calls + Calls(w, Inner(d, p, i)) == calls0 + Calls(w, Inner(d, p, 0))
      {
        ghost var before, flag := calls, overrun;
        IterateInnerFace(i, p);
        FlagStep(overrun0, flag, calls0, before);
        i := i + 1;
      }
      InnerEnd(d, w, p);
    }

    /** One inner face: both sides start at the two children that share it. */
    method IterateInnerFace(i: nat, ghost p: Sub)
      requires Fixed() && FaceRows() && |sides| == 2 && AtChildren(p) && Row(level) && i < NumInnerFaces(d)
      modifies this`calls, this`levelFace, this`isRefine, this`childIdFace, this`faceStack, this`sides, this`nface
      modifies this`overrun, cache
      ensures Fixed() && FaceRows() && |sides| == 2
      ensures calls + Calls(w, Inner(d, p, i + 1)) == old(calls) + Calls(w, Inner(d, p, i))
      ensures old(calls) <= calls && Flagged(old(overrun), |old(calls)|) && (old(overrun) ==> overrun)
    {
      hide Holds, Bounds, Calls, Pairs, Inner, FaceRows, FaceChild, FaceSequence, ChildFaceNeighbor, Step, Kid, RangeAt;
      hide Overran, Cache.Valid;
      InnerFaceFacts(d, i);
      var face := FaceSequence(d, i);
      var child := FaceChild(d, i);
      nface := [face, FACE_DUAL[face]];
      ghost var k, before := face / 2, calls;
      FaceCornerFacts(d, k, 0);
      assert nface == [UpperFace(k), LowerFace(k)];
      InnerStep(d, quads, w, p, i);
      StartInnerFace(child, ChildFaceNeighbor(d, child, face), k, p);
      ghost var a, b := Kid(d, p, child), Kid(d, p, child + Step(k));
      label L:
      IterateFace(k, a, b);
      SameRows@L();
      CallsStep(w, before, Calls(w, Pairs(d, k, a, b)), Calls(w, Inner(d, p, i + 1)));
    }

    /** The top row of the volume stack holds the boundaries of the children of p. */
    ghost predicate AtChildren(p: Sub)
      reads this`level, this`volStack
    {
      && Stored(d, quads, p) && p.tree.Node?
      && level == |p.quad| + 1 == |volStack| - 1 && volStack[level] == Bounds(p)
    }

    /** The next corner is one level deeper on every split side. */
    lemma RowsBelow(k: nat, a: Sub, b: Sub, i: nat)
      requires k < d && i < Half(d) && Shape(NumChildren(d), a.tree) && Shape(NumChildren(d), b.tree) && Level(a, b)
      requires Row(|a.quad| + if a.tree.Node? then 1 else 0) && Row(|b.quad| + if b.tree.Node? then 1 else 0)
      ensures var x, y := Down(d, a, UpperFace(k), i), Down(d, b, LowerFace(k), i);
              Level(x, y) && Row(|x.quad|) && Row(|y.quad|)
    {
      FaceCornerFacts(d, k, i);
      DownLevel(d, a, UpperFace(k), i);
      DownLevel(d, b, LowerFace(k), i);
    }

    /** Pushing a row of its own set the flag only if a leaf on the maximum level is local or
        was named afterwards. */
    lemma FlagPushed(b0: bool, b1: bool, before: seq<Call>, k: nat, a: Sub, b: Sub)
      requires Fixed() && k < d && Stored(d, quads, a) && Stored(d, quads, b) && Level(a, b)
      requires !(Remote(w, a) && Remote(w, b))
      requires b1 == (b0 || (a.tree.Node? && |a.quad| + 1 == maxLevel) || (b.tree.Node? && |b.quad| + 1 == maxLevel))
      requires calls == before + Calls(w, Pairs(d, k, a, b)) && Flagged(b1, |before|)
      ensures Flagged(b0, |before|)
    {
      hide Calls, Pairs, Remote, AnyOnLevel, LocalOnLevel;
      assert calls[|before|..] == Calls(w, Pairs(d, k, a, b));
      if (a.tree.Node? && |a.quad| + 1 == maxLevel) || (b.tree.Node? && |b.quad| + 1 == maxLevel) {
        SplitAboveNamed(d, quads, w, k, a, b, maxLevel);
      }
    }

    /** What one step and the steps before it did to the flag. */
    lemma FlagStep(b0: bool, b1: bool, calls0: seq<Call>, calls1: seq<Call>)
      requires calls0 <= calls1 <= calls && Flagged(b1, |calls1|)
      requires Overran(b0, b1, Excused(), calls1[|calls0|..], maxLevel)
      ensures Flagged(b0, |calls0|)
    {
      OverranConcat(b0, b1, overrun, Excused(), calls1[|calls0|..], calls[|calls1|..], maxLevel);
      assert calls1[|calls0|..] + calls[|calls1|..] == calls[|calls0|..];
    }

    twostate lemma SameRows()
      requires faceStack == old(faceStack) && old(FaceRows())
      ensures FaceRows()
    {
    }

    // -------------------------------------------------------------- volumes

    /** The explicit stack stands for a path of split subtrees, each with its child
        boundaries in the row below its level. */
    ghost predicate Traversing(path: seq<Spot>, frames: seq<Frame>)
      reads this`level, this`volStack, this`overrun
    {
      && OnPath(d, quads, path) && level == |frames| == |path| && |volStack| == |frames| + 1 && Row(level)
      && forall i :: 0 <= i < |path| ==> FrameFor(path[i], frames[i], i) && volStack[i + 1] == Bounds(path[i].sub)
    }

    ghost predicate FrameFor(at: Spot, fr: Frame, i: nat) {
      && at.sub.tree.Node? && fr.level == i + 1 && fr.nextChild == at.next <= NumChildren(d)
      && (fr.nextChild == 0 && fr.haveFirstLevel ==>
            at.sub.begin < |quads| && fr.firstChildLevel == |quads[at.sub.begin]|)
    }

    /** Splits a range and opens a frame for its children. */
    method Descend(begin: nat, end: nat, frames: seq<Frame>, firstLevel: int, ghost path: seq<Spot>, ghost a: Sub)
      returns (deeper: seq<Frame>)
      requires Fixed() && Traversing(path, frames) && level == |a.quad|
      requires Stored(d, quads, a) && a.tree.Node? && begin == a.begin && end == begin + Count(a.tree)
      requires begin < |quads| && firstLevel == |quads[begin]| && OnPath(d, quads, path + [Spot(a, 0)])
      modifies this`level, this`volStack, this`overrun, cache
      ensures Fixed() && Traversing(path + [Spot(a, 0)], deeper)
      ensures overrun == (old(overrun) || |a.quad| + 1 == maxLevel)
    {
      hide Shape, Holds, Bounds, Count, OnPath;
      FirstLeafLevel(NumChildren(d), quads, a.begin, a.tree, a.quad);
      var rel := cache.Split(NumChildren(d), quads, level, begin, end, a.tree, a.quad);
      ShiftedSplits(d, quads, a, rel);
      overrun := overrun || |volStack| >= maxLevel;
      volStack := volStack + [Shifted(rel, begin)];
      level := level + 1;
      deeper := frames + [Frame(level, 0, true, firstLevel)];
    }

    /** All children of the top frame are done: report the faces between them and pop. */
    method Finish(frames: seq<Frame>, ghost path: seq<Spot>) returns (rest: seq<Frame>)
      requires Fixed() && FaceRows() && |sides| == 2 && Traversing(path, frames)
      requires frames != [] && frames[|frames| - 1].nextChild == NumChildren(d)
      modifies this, cache
      ensures Fixed() && FaceRows() && |sides| == 2 && Traversing(Bumped(path[..|path| - 1]), rest)
      ensures calls + Calls(w, Rest(d, Bumped(path[..|path| - 1]), 0)) == old(calls) + Calls(w, Rest(d, path, 0))
      ensures 0 <= Effort(d, Bumped(path[..|path| - 1]), 0) < Effort(d, path, 0)
      ensures old(calls) <= calls && Flagged(old(overrun), |old(calls)|)
    {
      hide Shape, Holds, Bounds, Calls, FaceRows, Inner, Rest, Effort, Count, OnPath, AnyOnLevel, LocalOnLevel;
      ghost var p, before, restPath := path[|path| - 1].sub, calls, Bumped(path[..|path| - 1]);
      var fr := frames[|frames| - 1];
      FinishStep(d, quads, w, path);
      IterateFaceInner(p);
      volStack := volStack[..|volStack| - 1];
      rest := frames[..|frames| - 1];
      level := fr.level - 1;
      if rest != [] {
        var last := |rest| - 1;
        rest := rest[last := rest[last].(nextChild := rest[last].nextChild + 1)];
      }
      CallsStep(w, before, Calls(w, Inner(d, p, 0)), Calls(w, Rest(d, restPath, 0)));
    }

    /** One child of the top frame: skipped when remote, reported when a leaf, else opened. */
    method VisitChild(frames: seq<Frame>, ghost path: seq<Spot>) returns (next: seq<Frame>, ghost nextPath: seq<Spot>)
      requires Fixed() && Traversing(path, frames)
      requires frames != [] && frames[|frames| - 1].nextChild < NumChildren(d)
      modifies this`calls, this`level, this`volStack, this`overrun, cache
      ensures Fixed() && Traversing(nextPath, next)
      ensures calls + Calls(w, Rest(d, nextPath, 0)) == old(calls) + Calls(w, Rest(d, path, 0))
      ensures 0 <= Effort(d, nextPath, 0) < Effort(d, path, 0)
      ensures old(calls) <= calls && Flagged(old(overrun), |old(calls)|)
    {
      hide *;
      ghost var before := calls;
      TopChild(frames, path);
      VisitStep(d, quads, w, path);
      var last := |frames| - 1;
      var fr := frames[last];
      ghost var a := Kid(d, path[last].sub, fr.nextChild);
      nextPath := Bumped(path);
      var row := volStack[fr.level];
      var begin, end := row[fr.nextChild], row[fr.nextChild + 1];
      IsRemote(w, a);
      if begin >= w.LocalEnd() || end <= w.LocalBegin() {
        RemoteVisit(d, quads, w, a);
        NextFrames(frames, path, fr);
        FlagKept(before);
        next := frames[last := fr.(nextChild := fr.nextChild + 1)];
        return;
      }
      StoredLevel(d, quads, a);
      var levelq: int;
      if fr.nextChild == 0 && fr.haveFirstLevel && begin == row[0] {
        levelq := fr.firstChildLevel;
        fr := fr.(haveFirstLevel := false);
      } else {
        levelq := |quads[begin]|;
      }
      NextFrames(frames, path, fr);
      if levelq == fr.level {
        VisitLeaf(d, w, a);
        calls := calls + [VolumeCall(begin - w.treeBegin, quads[begin])];
        FlagLeaf(before, begin, quads[begin]);
        next := frames[last := fr.(nextChild := fr.nextChild + 1)];
        CallsStep(w, before, Calls(w, Visit(d, a)), Calls(w, Rest(d, nextPath, 0)));
        return;
      }
      DescendStep(d, quads, path, path[last], a);
      nextPath := path + [Spot(a, 0)];
      next := Descend(begin, end, frames[last := fr], levelq, path, a);
      FlagDescended(old(overrun), before, a);
    }

    lemma FlagKept(before: seq<Call>)
      requires calls == before
      ensures Flagged(overrun, |before|)
    {
    }

    lemma FlagLeaf(before: seq<Call>, i: nat, q: Quad)
      requires calls == before + [VolumeCall(i - w.treeBegin, q)] && Row(|q|)
      ensures before <= calls && Flagged(overrun, |before|)
    {
      FlagCalled(before, VolumeCall(i - w.treeBegin, q));
    }

    lemma FlagFace(before: seq<Call>, face0: nat, face1: nat, a: Sub, b: Sub)
      requires calls == before + [FaceCall(face0, face1, SideOf(w, a.begin, a.quad), SideOf(w, b.begin, b.quad))]
      requires Row(|a.quad|) && Row(|b.quad|)
      ensures before <= calls && Flagged(overrun, |before|)
    {
      FlagCalled(before, FaceCall(face0, face1, SideOf(w, a.begin, a.quad), SideOf(w, b.begin, b.quad)));
    }

    lemma FlagCalled(before: seq<Call>, c: Call)
      requires calls == before + [c] && (NamesLevel(c, maxLevel) ==> overrun)
      ensures before <= calls && Flagged(overrun, |before|)
    {
      assert calls[|before|..] == [c];
    }

    lemma FlagDescended(flag: bool, before: seq<Call>, a: Sub)
      requires calls == before && overrun == (flag || |a.quad| + 1 == maxLevel)
      requires Fixed() && Stored(d, quads, a) && a.tree.Node? && !Remote(w, a)
      ensures Flagged(flag, |before|)
    {
      if |a.quad| + 1 == maxLevel {
        SplitAboveLocal(d, quads, w, a, maxLevel);
      }
    }

    /** Where the next child of the top frame is stored. */
    lemma TopChild(frames: seq<Frame>, path: seq<Spot>)
      requires Traversing(path, frames) && frames != [] && frames[|frames| - 1].nextChild < NumChildren(d)
      ensures OnPath(d, quads, path) && |path| == |frames| == level && |volStack| == |frames| + 1 && Row(level)
      ensures var t, fr := path[|path| - 1], frames[|frames| - 1];
              && fr.level == |frames| && fr.nextChild == t.next
              && Stored(d, quads, t.sub) && t.sub.tree.Node? && |t.sub.tree.kids| == NumChildren(d)
              && |t.sub.quad| == |path| - 1
              && var a, row := Kid(d, t.sub, t.next), volStack[fr.level];
                 && |a.quad| == fr.level && |row| == NumChildren(d) + 1
                 && row[fr.nextChild] == a.begin && row[fr.nextChild + 1] == a.begin + Count(a.tree)
                 && (fr.nextChild == 0 && fr.haveFirstLevel && row[fr.nextChild] == row[0] ==>
                       a.begin < |quads| && fr.firstChildLevel == |quads[a.begin]|)
    {
      hide Holds, Bounds, Count, OnPath, Offset;
      var t := path[|path| - 1];
      TopSpot(d, quads, path);
      KidRangeAt(d, quads, seq(|t.sub.quad| + 1, _ => []), t.sub, t.next);
      KidsStart(t.sub);
    }

    /** Going on to the next child, or forgetting the level known for the first one. */
    lemma NextFrames(frames: seq<Frame>, path: seq<Spot>, fr: Frame)
      requires Traversing(path, frames) && frames != [] && frames[|frames| - 1].nextChild < NumChildren(d)
      requires fr.level == frames[|frames| - 1].level && fr.nextChild == frames[|frames| - 1].nextChild
      requires fr == frames[|frames| - 1] || !fr.haveFirstLevel
      ensures Traversing(path, frames[|frames| - 1 := fr])
      ensures Traversing(Bumped(path), frames[|frames| - 1 := fr.(nextChild := fr.nextChild + 1)])
    {
      hide Bounds, OnPath;
      BumpedPath(d, quads, path);
    }

    /** The traversal of one tree with its inner faces (p4est3_iterate_volume_iterative)
        reports the events of the structural specification that concern this rank. It leaves
        the rows of the source's stacks exactly when one of them names a leaf on the
        maximum level. */
    method IterateTree(ghost root: Sub)
      requires Fixed() && FaceRows() && |sides| == 2
      requires Stored(d, quads, root) && root.quad == [] && root.begin == w.treeBegin
      requires w.treeEnd == w.treeBegin + Count(root.tree)
      modifies this, cache
      ensures Fixed() && FaceRows() && |sides| == 2
      ensures calls == old(calls) + Calls(w, Visit(d, root))
      ensures w.HasLocal() ==> (overrun <==> old(overrun) || AnyOnLevel(Calls(w, Visit(d, root)), maxLevel))
    {
      hide Shape, Holds, Bounds, Calls, Visit, Rest, Effort, Count, OnPath, FaceRows;
      level := 0;
      volStack := [[w.treeBegin, w.treeEnd]];
      var begin, end := volStack[0][0], volStack[0][1];
      if !(begin < w.LocalEnd() && end > w.LocalBegin()) {
        RemoteVisit(d, quads, w, root);
        return;
      }
      FirstLeafLevel(NumChildren(d), quads, root.begin, root.tree, root.quad);
      var levelq := |quads[begin]|;
      if levelq == level {
        VisitLeaf(d, w, root);
        calls := calls + [VolumeCall(begin - w.treeBegin, quads[begin])];
        return;
      }
      RootPath(d, quads, root);
      ghost var path, calls0, overrun0 := [Spot(root, 0)], calls, overrun;
      var frames := Descend(begin, end, [], levelq, [], root);
      FlagDescended(overrun0, calls0, root);
      while frames != []
        invariant Fixed() && FaceRows() && |sides| == 2 && Traversing(path, frames)
        invariant calls + Calls(w, Rest(d, path, 0)) == calls0 + Calls(w, Visit(d, root))
        invariant Effort(d, path, 0) >= 0
        invariant calls0 <= calls && Flagged(overrun0, |calls0|)
        decreases Effort(d, path, 0)
      {
        var fr := frames[|frames| - 1];
        ghost var before, flag := calls, overrun;
        if fr.nextChild >= NumChildren(d) {
          frames := Finish(frames, path);
          path := Bumped(path[..|path| - 1]);
        } else {
          frames, path := VisitChild(frames, path);
        }
        FlagStep(overrun0, flag, calls0, before);
      }
      NothingLeft(d, w);
      assert path == [] && calls == calls0 + Calls(w, Visit(d, root));
      assert calls[|calls0|..] == Calls(w, Visit(d, root));
      if LocalOnLevel(quads, w, maxLevel) {
        LocalIsNamed(d, quads, w, root, maxLevel);
      }
    }
  }

  function Popped(stack: seq<seq<int>>): seq<seq<int>>
    requires stack != []
  {
    stack[..|stack| - 1]
  }

  ghost function Pushed(stack: seq<seq<int>>, a: Sub): seq<seq<int>> {
    if a.tree.Node? then stack + [Bounds(a)] else stack
  }

  // ---------------------------------------------------------------- one step of the specification

  lemma PairOfLeaves(d: Dim, quads: seq<Quad>, w: Window, k: nat, a: Sub, b: Sub)
    requires k < d && Stored(d, quads, a) && Stored(d, quads, b) && a.tree.Leaf? && b.tree.Leaf?
    requires !(Remote(w, a) && Remote(w, b))
    ensures Calls(w, Pairs(d, k, a, b)) ==
            [FaceCall(UpperFace(k), LowerFace(k), SideOf(w, a.begin, a.quad), SideOf(w, b.begin, b.quad))]
  {
    var e := Face(UpperFace(k), a.begin, a.quad, b.begin, b.quad);
    assert Pairs(d, k, a, b) == [e];
    assert [e][1..] == [];
    assert Calls(w, [e]) == [CallOf(w, e)] + Calls(w, []);
  }

  lemma PairsUnfold(d: Dim, quads: seq<Quad>, k: nat, a: Sub, b: Sub)
    requires k < d && Stored(d, quads, a) && Stored(d, quads, b) && (a.tree.Node? || b.tree.Node?)
    ensures Pairs(d, k, a, b) == PairsFrom(d, k, a, b, 0)
  {
  }

  lemma PairsStep(d: Dim, quads: seq<Quad>, w: Window, k: nat, a: Sub, b: Sub, i: nat)
    requires k < d && Stored(d, quads, a) && Stored(d, quads, b) && (a.tree.Node? || b.tree.Node?) && i < Half(d)
    ensures var x, y := Down(d, a, UpperFace(k), i), Down(d, b, LowerFace(k), i);
            && Stored(d, quads, x) && Stored(d, quads, y)
            && Count(x.tree) + Count(y.tree) < Count(a.tree) + Count(b.tree)
            && Calls(w, PairsFrom(d, k, a, b, i)) ==
               Calls(w, Pairs(d, k, x, y)) + Calls(w, PairsFrom(d, k, a, b, i + 1))
  {
    FaceCornerFacts(d, k, i);
    StoredDown(d, quads, a, UpperFace(k), i);
    StoredDown(d, quads, b, LowerFace(k), i);
    if a.tree.Node? {
      StoredKid(d, quads, a, FaceCorner(d, UpperFace(k), i));
    }
    if b.tree.Node? {
      StoredKid(d, quads, b, FaceCorner(d, LowerFace(k), i));
    }
    CallsConcat(w, Pairs(d, k, Down(d, a, UpperFace(k), i), Down(d, b, LowerFace(k), i)), PairsFrom(d, k, a, b, i + 1));
  }

  lemma PairsEnd(d: Dim, w: Window, k: nat, a: Sub, b: Sub)
    requires k < d && Shape(NumChildren(d), a.tree) && Shape(NumChildren(d), b.tree) && (a.tree.Node? || b.tree.Node?)
    ensures Calls(w, PairsFrom(d, k, a, b, Half(d))) == []
  {
  }

  lemma CallsStep(w: Window, done: seq<Call>, now: seq<Call>, rest: seq<Call>)
    ensures (done + now) + rest == done + (now + rest)
  {
  }

  // ---------------------------------------------------------------- rows of the face stacks

  function Resized(stack: seq<seq<int>>, n: nat, width: nat): (r: seq<seq<int>>)
    ensures |r| == n && forall l :: 0 <= l < n && l < |stack| ==> r[l] == stack[l]
    ensures forall l :: |stack| <= l < n ==> |r[l]| == width
  {
    seq(n, l requires 0 <= l < n => if l < |stack| then stack[l] else seq(width, _ => 0))
  }

  /** The boundaries of one child, copied from the volume stack into the top row. */
  function Inherit(stack: seq<seq<int>>, row: seq<int>, child: nat): (r: seq<seq<int>>)
    requires stack != [] && child + 1 < |row| && |stack[|stack| - 1]| == |row|
    ensures |r| == |stack| && forall l :: 0 <= l < |r| ==> |r[l]| == |stack[l]|
    ensures r[|r| - 1][child] == row[child] && r[|r| - 1][child + 1] == row[child + 1]
  {
    stack[|stack| - 1 := stack[|stack| - 1][child := row[child]][child + 1 := row[child + 1]]]
  }

  lemma InheritedRange(d: Dim, quads: seq<Quad>, stack: seq<seq<int>>, p: Sub, x: nat, row: seq<int>)
    requires Stored(d, quads, p) && p.tree.Node? && x < NumChildren(d) && row == Bounds(p)
    requires forall l :: 1 <= l < |stack| ==> |stack[l]| == NumChildren(d) + 1
    ensures x + 1 < |row| && |Resized(stack, |p.quad| + 2, NumChildren(d) + 1)[|p.quad| + 1]| == |row|
    ensures Stored(d, quads, Kid(d, p, x))
    ensures var r := Inherit(Resized(stack, |p.quad| + 2, NumChildren(d) + 1), row, x);
            && RangeAt(r, |p.quad| + 1, x, Kid(d, p, x))
            && forall l :: 1 <= l < |r| ==> |r[l]| == NumChildren(d) + 1
  {
    KidRangeAt(d, quads, seq(|p.quad| + 1, _ => []), p, x);
    StoredKid(d, quads, p, x);
  }

  lemma InnerStep(d: Dim, quads: seq<Quad>, w: Window, p: Sub, i: nat)
    requires Stored(d, quads, p) && p.tree.Node? && i < NumInnerFaces(d)
    ensures FaceSequence(d, i) % 2 == 1 && FaceSequence(d, i) / 2 < d
    ensures FaceChild(d, i) + Step(FaceSequence(d, i) / 2) < NumChildren(d)
    ensures var k := FaceSequence(d, i) / 2;
            var x, y := Kid(d, p, FaceChild(d, i)), Kid(d, p, FaceChild(d, i) + Step(k));
            && Stored(d, quads, x) && Stored(d, quads, y) && |x.quad| == |y.quad| == |p.quad| + 1
            && Calls(w, Inner(d, p, i)) == Calls(w, Pairs(d, k, x, y)) + Calls(w, Inner(d, p, i + 1))
  {
    hide *;
    StoredLevel(d, quads, p);
    InnerFaceFacts(d, i);
    UpperStep(d, i);
    var k := FaceSequence(d, i) / 2;
    StoredKid(d, quads, p, FaceChild(d, i));
    StoredKid(d, quads, p, FaceChild(d, i) + Step(k));
    StoredLevel(d, quads, Kid(d, p, FaceChild(d, i)));
    StoredLevel(d, quads, Kid(d, p, FaceChild(d, i) + Step(k)));
    KidLevel(d, p, FaceChild(d, i));
    KidLevel(d, p, FaceChild(d, i) + Step(k));
    InnerUnfolds(d, p, i);
    InnerPairsIs(d, p, i);
    CallsConcat(w, Pairs(d, k, Kid(d, p, FaceChild(d, i)), Kid(d, p, FaceChild(d, i) + Step(k))), Inner(d, p, i + 1));
  }

  lemma KidLevel(d: Dim, p: Sub, x: nat)
    requires p.tree.Node? && |p.tree.kids| == NumChildren(d) && x < NumChildren(d)
    ensures |Kid(d, p, x).quad| == |p.quad| + 1
  {
  }

  lemma InnerPairsIs(d: Dim, p: Sub, i: nat)
    requires Shape(NumChildren(d), p.tree) && p.tree.Node? && i < NumInnerFaces(d)
    ensures FaceSequence(d, i) / 2 < d && FaceChild(d, i) + Step(FaceSequence(d, i) / 2) < NumChildren(d)
    ensures var k := FaceSequence(d, i) / 2;
            InnerPairs(d, p, i) == Pairs(d, k, Kid(d, p, FaceChild(d, i)), Kid(d, p, FaceChild(d, i) + Step(k)))
  {
    InnerFaceFacts(d, i);
  }

  lemma UpperStep(d: Dim, i: nat)
    requires i < NumInnerFaces(d)
    ensures FaceSequence(d, i) / 2 < d <= 3 && FaceChild(d, i) < NumChildren(d)
  {
    InnerFaceFacts(d, i);
  }

  lemma InnerEnd(d: Dim, w: Window, p: Sub)
    requires Shape(NumChildren(d), p.tree) && p.tree.Node?
    ensures Calls(w, Inner(d, p, NumInnerFaces(d))) == []
  {
  }

  lemma RootPath(d: Dim, quads: seq<Quad>, root: Sub)
    requires Stored(d, quads, root) && root.tree.Node? && root.quad == []
    ensures OnPath(d, quads, []) && OnPath(d, quads, [] + [Spot(root, 0)]) && OnPath(d, quads, [Spot(root, 0)])
    ensures Rest(d, [Spot(root, 0)], 0) == Visit(d, root)
    ensures Effort(d, [Spot(root, 0)], 0) >= 0
  {
    var path := [Spot(root, 0)];
    assert OpenAt(d, quads, path, 0) && path[..0] == [] && [] + path == path;
    EffortNatural(d, path, 0);
  }

  lemma NothingLeft(d: Dim, w: Window)
    ensures Calls(w, Rest(d, [], 0)) == []
  {
  }
}
