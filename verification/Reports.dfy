/** What one rank hears from the iterator about one tree: the traversal of Iterate together
    with the meaning of its event list. */
module Reports {
  import opened Quadrants
  import opened Subtrees
  import opened Faces
  import opened FacePairs
  import opened Iterate

  /** A whole tree of the forest as the iterator sees it. */
  ghost predicate WholeTree(d: Dim, quads: seq<Quad>, w: Window, root: Sub) {
    && Stored(d, quads, root) && root.quad == [] && root.begin == w.treeBegin
    && w.treeEnd == w.treeBegin + Count(root.tree)
  }

  /** All calls for one tree. */
  ghost function TreeCalls(d: Dim, w: Window, root: Sub): seq<Call>
    requires Shape(NumChildren(d), root.tree)
  {
    Calls(w, Visit(d, root))
  }

  lemma {:induction false} CallsGive(w: Window, events: seq<Event>, c: Call) returns (e: Event)
    requires c in Calls(w, events)
    ensures e in events && Concerns(w, e) && (e.Face? ==> e.face < 6) && c == CallOf(w, e)
  {
    if c in CallFor(w, events[0]) {
      e := events[0];
    } else {
      e := CallsGive(w, events[1..], c);
    }
  }

  lemma CallOfInjective(w: Window, e: Event, g: Event)
    requires (e.Face? ==> e.face < 6) && (g.Face? ==> g.face < 6) && CallOf(w, e) == CallOf(w, g)
    ensures e == g
  {
  }

  /** No callback is made twice. */
  lemma {:induction false} CallsOnce(w: Window, events: seq<Event>)
    requires NoDuplicates(events)
    ensures forall i, j :: 0 <= i < j < |Calls(w, events)| ==> Calls(w, events)[i] != Calls(w, events)[j]
  {
    if events != [] {
      var e := events[0];
      CallsOnce(w, events[1..]);
      if Concerns(w, e) && (e.Face? ==> e.face < 6) && CallOf(w, e) in Calls(w, events[1..]) {
        var g := CallsGive(w, events[1..], CallOf(w, e));
        CallOfInjective(w, e, g);
        assert false;
      }
    }
  }

  lemma TreeCallsOnce(d: Dim, quads: seq<Quad>, w: Window, root: Sub)
    requires WholeTree(d, quads, w, root)
    ensures forall i, j :: 0 <= i < j < |TreeCalls(d, w, root)| ==> TreeCalls(d, w, root)[i] != TreeCalls(d, w, root)[j]
  {
    VisitOnce(d, quads, root);
    CallsOnce(w, Visit(d, root));
  }

  lemma LeafEvent(d: Dim, quads: seq<Quad>, w: Window, root: Sub, e: Event)
    requires WholeTree(d, quads, w, root) && e.Volume?
    ensures e in Visit(d, root) <==> w.treeBegin <= e.index < w.treeEnd && e.index < |quads| && e.quad == quads[e.index]
  {
    hide Visit, Shape, Holds, Count;
    VisitExactly(d, quads, root, e);
  }

  lemma LeafCallOf(w: Window, i: nat, q: Quad)
    ensures CallOf(w, Volume(i, q)) == VolumeCall(i - w.treeBegin, q)
    ensures w.treeBegin <= i < w.treeEnd ==> (Concerns(w, Volume(i, q)) <==> w.Owns(i))
  {
  }

  /** A leaf of the tree is reported to the rank that owns it and to no other. */
  lemma LeafReported(d: Dim, quads: seq<Quad>, w: Window, root: Sub, i: nat)
    requires WholeTree(d, quads, w, root) && w.treeBegin <= i < w.treeEnd && i < |quads|
    ensures VolumeCall(i - w.treeBegin, quads[i]) in TreeCalls(d, w, root) <==> w.Owns(i)
  {
    hide Visit, Calls, Shape, Holds, Count, CallOf, Concerns;
    var e, c := Volume(i, quads[i]), VolumeCall(i - w.treeBegin, quads[i]);
    LeafEvent(d, quads, w, root, e);
    LeafCallOf(w, i, quads[i]);
    if w.Owns(i) {
      CallsHave(w, Visit(d, root), e);
    }
    if c in TreeCalls(d, w, root) {
      var g := CallsGive(w, Visit(d, root), c);
      CallOfInjective(w, e, g);
    }
  }

  /** One side of a face as the callback must see it. */
  function SideFor(quads: seq<Quad>, w: Window, i: nat): FaceSide
    requires i < |quads|
  {
    FaceSide(i - w.treeBegin, quads[i], !w.Owns(i))
  }

  /** The events of a whole tree that are faces: its pairs of adjacent leaves. */
  lemma FaceEvents(d: Dim, quads: seq<Quad>, w: Window, root: Sub, k: nat, i: nat, j: nat)
    requires WholeTree(d, quads, w, root) && k < d
    requires w.treeBegin <= i < w.treeEnd && i < |quads| && w.treeBegin <= j < w.treeEnd && j < |quads|
    ensures Face(UpperFace(k), i, quads[i], j, quads[j]) in Visit(d, root) <==> Adjacent(k, quads[i], quads[j])
  {
    var e := Face(UpperFace(k), i, quads[i], j, quads[j]);
    hide Visit, Shape, Holds, Count, Adjacent;
    VisitExactly(d, quads, root, e);
    assert quads[i][0..] == quads[i] && quads[j][0..] == quads[j];
    if IsEvent(d, quads, root, e) {
      var m :| 0 <= m < d && UpperFace(k) == UpperFace(m) && Adjacent(m, quads[i][0..], quads[j][0..]);
    }
  }

  lemma FaceEventShape(d: Dim, quads: seq<Quad>, w: Window, root: Sub, e: Event) returns (k: nat)
    requires WholeTree(d, quads, w, root) && e in Visit(d, root) && e.Face?
    ensures k < d && e.face == UpperFace(k)
    ensures w.treeBegin <= e.index0 < w.treeEnd && e.index0 < |quads| && e.quad0 == quads[e.index0]
    ensures w.treeBegin <= e.index1 < w.treeEnd && e.index1 < |quads| && e.quad1 == quads[e.index1]
  {
    hide Visit, Shape, Holds, Count, Adjacent;
    VisitExactly(d, quads, root, e);
    k :| 0 <= k < d && e.face == UpperFace(k) && Adjacent(k, e.quad0[0..], e.quad1[0..]);
  }

  lemma FaceCallOf(quads: seq<Quad>, w: Window, k: nat, i: nat, j: nat)
    requires k < 3 && i < |quads| && j < |quads|
    ensures CallOf(w, Face(UpperFace(k), i, quads[i], j, quads[j])) ==
            FaceCall(UpperFace(k), LowerFace(k), SideFor(quads, w, i), SideFor(quads, w, j))
  {
  }

  /** A face between two leaves of the tree is reported to the ranks that own one of the two,
      with the ghost flag set exactly on the side that is not local. */
  lemma FaceReported(d: Dim, quads: seq<Quad>, w: Window, root: Sub, k: nat, i: nat, j: nat)
    requires WholeTree(d, quads, w, root) && k < d
    requires w.treeBegin <= i < w.treeEnd && i < |quads| && w.treeBegin <= j < w.treeEnd && j < |quads|
    ensures FaceCall(UpperFace(k), LowerFace(k), SideFor(quads, w, i), SideFor(quads, w, j))
            in TreeCalls(d, w, root) <==>
            Adjacent(k, quads[i], quads[j]) && (w.Owns(i) || w.Owns(j))
  {
    hide Visit, Calls, Shape, Holds, Adjacent, SideFor, CallOf, Count;
    var e := Face(UpperFace(k), i, quads[i], j, quads[j]);
    var c := FaceCall(UpperFace(k), LowerFace(k), SideFor(quads, w, i), SideFor(quads, w, j));
    FaceEvents(d, quads, w, root, k, i, j);
    FaceCallOf(quads, w, k, i, j);
    if Adjacent(k, quads[i], quads[j]) && (w.Owns(i) || w.Owns(j)) {
      CallsHave(w, Visit(d, root), e);
    }
    if c in TreeCalls(d, w, root) {
      var g := CallsGive(w, Visit(d, root), c);
      CallOfInjective(w, e, g);
    }
  }

  /** Nothing else is reported. */
  lemma NothingElse(d: Dim, quads: seq<Quad>, w: Window, root: Sub, c: Call) returns (i: nat, j: nat)
    requires WholeTree(d, quads, w, root) && c in TreeCalls(d, w, root)
    ensures w.treeBegin <= i < w.treeEnd && i < |quads| && w.treeBegin <= j < w.treeEnd && j < |quads|
    ensures c.VolumeCall? ==> c == VolumeCall(i - w.treeBegin, quads[i])
    ensures c.FaceCall? ==> c.face0 % 2 == 1 && c.face0 < 2 * d
                            && c == FaceCall(c.face0, c.face0 - 1, SideFor(quads, w, i), SideFor(quads, w, j))
  {
    hide Visit, Calls, Shape, Holds, SideFor, CallOf, Count, Concerns;
    var e := CallsGive(w, Visit(d, root), c);
    if e.Face? {
      var k := FaceEventShape(d, quads, w, root, e);
      i, j := e.index0, e.index1;
      FaceCallOf(quads, w, k, i, j);
    } else {
      LeafEvent(d, quads, w, root, e);
      LeafCallOf(w, e.index, e.quad);
      i, j := e.index, e.index;
    }
  }

  // ---------------------------------------------------------------- when the stacks have a row for every level

  predicate FaceNeighbors(d: Dim, x: Quad, y: Quad) {
    exists k :: 0 <= k < d && (Adjacent(k, x, y) || Adjacent(k, y, x))
  }

  /** The rank owns a leaf on level m, or a leaf with a face neighbour on level m. */
  ghost predicate MeetsLevel(d: Dim, quads: seq<Quad>, w: Window, m: nat) {
    exists i, j :: InTree(quads, w, i) && InTree(quads, w, j) && w.Owns(i)
      && (i == j || FaceNeighbors(d, quads[i], quads[j])) && |quads[j]| == m
  }

  ghost predicate InTree(quads: seq<Quad>, w: Window, i: int) {
    w.treeBegin <= i < w.treeEnd && 0 <= i < |quads|
  }

  lemma MeetsByCall(d: Dim, quads: seq<Quad>, w: Window, root: Sub, m: nat)
    requires WholeTree(d, quads, w, root) && AnyOnLevel(TreeCalls(d, w, root), m)
    ensures MeetsLevel(d, quads, w, m)
  {
    hide Shape, Holds, Visit, Calls, Adjacent, CallOf, Count;
    var c :| c in TreeCalls(d, w, root) && NamesLevel(c, m);
    var e := CallsGive(w, Visit(d, root), c);
    if e.Volume? {
      LeafEvent(d, quads, w, root, e);
      LeafCallOf(w, e.index, e.quad);
      assert InTree(quads, w, e.index);
    } else {
      var k := FaceEventShape(d, quads, w, root, e);
      FaceEvents(d, quads, w, root, k, e.index0, e.index1);
      FaceCallOf(quads, w, k, e.index0, e.index1);
      var i, j := e.index0, e.index1;
      assert InTree(quads, w, i) && InTree(quads, w, j) && FaceNeighbors(d, quads[i], quads[j]) &&
             FaceNeighbors(d, quads[j], quads[i]);
      assert w.Owns(i) || w.Owns(j);
    }
  }

  lemma CallByMeeting(d: Dim, quads: seq<Quad>, w: Window, root: Sub, m: nat, i: nat, j: nat)
    requires WholeTree(d, quads, w, root) && InTree(quads, w, i) && InTree(quads, w, j) && w.Owns(i) && |quads[j]| == m
    requires i == j || FaceNeighbors(d, quads[i], quads[j])
    ensures AnyOnLevel(TreeCalls(d, w, root), m)
  {
    hide Shape, Holds, Visit, Calls, Adjacent, CallOf, Count, TreeCalls;
    if i == j {
      LeafReported(d, quads, w, root, i);
      assert NamesLevel(VolumeCall(i - w.treeBegin, quads[i]), m);
    } else {
      var k :| 0 <= k < d && (Adjacent(k, quads[i], quads[j]) || Adjacent(k, quads[j], quads[i]));
      var x, y := if Adjacent(k, quads[i], quads[j]) then i else j, if Adjacent(k, quads[i], quads[j]) then j else i;
      FaceReported(d, quads, w, root, k, x, y);
      assert NamesLevel(FaceCall(UpperFace(k), LowerFace(k), SideFor(quads, w, x), SideFor(quads, w, y)), m);
    }
  }

  /** What makes SearchArea.IterateTree overrun its stacks, in terms of the leaves. */
  lemma OverrunIff(d: Dim, quads: seq<Quad>, w: Window, root: Sub, m: nat)
    requires WholeTree(d, quads, w, root)
    ensures AnyOnLevel(TreeCalls(d, w, root), m) <==> MeetsLevel(d, quads, w, m)
  {
    if AnyOnLevel(TreeCalls(d, w, root), m) {
      MeetsByCall(d, quads, w, root, m);
    }
    if MeetsLevel(d, quads, w, m) {
      var i, j :| InTree(quads, w, i) && InTree(quads, w, j) && w.Owns(i)
        && (i == j || FaceNeighbors(d, quads[i], quads[j])) && |quads[j]| == m;
      CallByMeeting(d, quads, w, root, m, i, j);
    }
  }

  /** Over all ranks: none overruns exactly when the tree has no leaf on the maximum level. */
  lemma SomeRankOverrunsIff(d: Dim, quads: seq<Quad>, windows: seq<Window>, root: Sub, m: nat)
    requires windows != [] && Stored(d, quads, root)
    requires forall r :: 0 <= r < |windows| ==> WholeTree(d, quads, windows[r], root)
    requires forall i :: InTree(quads, windows[0], i) ==> exists r :: 0 <= r < |windows| && windows[r].Owns(i)
    ensures (exists r :: 0 <= r < |windows| && windows[r].HasLocal()
                         && AnyOnLevel(TreeCalls(d, windows[r], root), m)) <==>
            (exists i :: InTree(quads, windows[0], i) && |quads[i]| == m)
  {
    hide WholeTree, TreeCalls, AnyOnLevel;
    SameTree(d, quads, windows, root);
    forall r | 0 <= r < |windows|
      ensures AnyOnLevel(TreeCalls(d, windows[r], root), m) <==> MeetsLevel(d, quads, windows[r], m)
    {
      OverrunIff(d, quads, windows[r], root, m);
    }
    if i :| InTree(quads, windows[0], i) && |quads[i]| == m {
      var r :| 0 <= r < |windows| && windows[r].Owns(i);
      assert InTree(quads, windows[r], i) && windows[r].HasLocal() && MeetsLevel(d, quads, windows[r], m);
    }
    if r :| 0 <= r < |windows| && windows[r].HasLocal() && AnyOnLevel(TreeCalls(d, windows[r], root), m) {
      var i, j :| InTree(quads, windows[r], i) && InTree(quads, windows[r], j) && windows[r].Owns(i)
        && (i == j || FaceNeighbors(d, quads[i], quads[j])) && |quads[j]| == m;
      assert InTree(quads, windows[0], j);
    }
  }

  lemma SameTree(d: Dim, quads: seq<Quad>, windows: seq<Window>, root: Sub)
    requires windows != [] && forall r :: 0 <= r < |windows| ==> WholeTree(d, quads, windows[r], root)
    ensures forall r :: 0 <= r < |windows| ==>
              WholeTree(d, quads, windows[r], root)
              && windows[r].treeBegin == windows[0].treeBegin && windows[r].treeEnd == windows[0].treeEnd
  {
  }

  /** A tree refined n times towards its first corner. */
  ghost function Spine(c: Arity, n: nat): Tree {
    if n == 0 then Leaf else Node([Spine(c, n - 1)] + seq(c - 1, _ => Leaf))
  }

  lemma {:induction false} SpineLeaves(c: Arity, n: nat, p: Quad)
    ensures Shape(c, Spine(c, n)) && Leaves(Spine(c, n), p) != []
    ensures |Leaves(Spine(c, n), p)[0]| == |p| + n
    ensures forall k :: 0 <= k < |Leaves(Spine(c, n), p)| ==> |Leaves(Spine(c, n), p)[k]| <= |p| + n
  {
    if n > 0 {
      var t := Spine(c, n);
      SpineLeaves(c, n - 1, Child(p, 0));
      assert t.kids[0] == Spine(c, n - 1);
      LeafKids(c, t, p, 1);
      assert Leaves(t, p) == Leaves(t.kids[0], Child(p, 0)) + LeavesFrom(t, p, 1);
    }
  }

  lemma {:induction false} LeafKids(c: Arity, t: Tree, p: Quad, i: nat)
    requires t.Node? && |t.kids| == c && i <= c && forall x :: i <= x < c ==> t.kids[x] == Leaf
    ensures forall k :: 0 <= k < |LeavesFrom(t, p, i)| ==> |LeavesFrom(t, p, i)[k]| == |p| + 1
    decreases c - i
  {
    if i < c {
      LeafKids(c, t, p, i + 1);
    }
  }

  /** For every maximum level there is a forest on one rank that overruns the stacks. */
  lemma SpineOverruns(d: Dim, m: nat)
    requires m >= 1
    ensures var t, quads := Spine(NumChildren(d), m), Leaves(Spine(NumChildren(d), m), []);
            var w, root := Window(0, Count(t), 0, Count(t)), Sub(t, [], 0);
            && WholeTree(d, quads, w, root) && (forall i :: 0 <= i < |quads| ==> |quads[i]| <= m)
            && w.HasLocal() && AnyOnLevel(TreeCalls(d, w, root), m)
  {
    var c := NumChildren(d);
    var t := Spine(c, m);
    var quads := Leaves(t, []);
    var w, root := Window(0, Count(t), 0, Count(t)), Sub(t, [], 0);
    SpineLeaves(c, m, []);
    LeavesCount(c, t, []);
    assert quads[0..Count(t)] == quads;
    assert InTree(quads, w, 0) && w.Owns(0);
    CallByMeeting(d, quads, w, root, m, 0, 0);
  }
}
