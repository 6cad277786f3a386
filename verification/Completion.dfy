/** Filling the gaps between the quadrants of a sorted list (the last part of
    p4est_complete_or_balance_kernel, without first_desc and last_desc). */
module Completion {
  import opened Quadrants
  import opened Morton
  import opened Trees

  datatype Option<T> = None | Some(value: T)

  // ---------------------------------------------------------------- specification

  /** What the kernel asks of its list: sorted, without overlaps, first children strictly
      below dom. */
  ghost predicate Reduced(c: Arity, deep: nat, inlist: seq<Quad>, dom: Quad) {
    && (forall i :: 0 <= i < |inlist| ==> IsQuad(c, inlist[i]) && |inlist[i]| <= deep)
    && (forall i :: 0 <= i < |inlist| ==> dom < inlist[i] && ChildId(inlist[i]) == 0)
    && (forall i, j :: 0 <= i < j < |inlist| ==> Before(inlist[i], inlist[j]))
  }

  /** w is needed: its parent is dom itself or holds a listed quadrant strictly inside. */
  ghost predicate Forced(inlist: seq<Quad>, dom: Quad, w: Quad) {
    w != [] && (Parent(w) == dom || exists q :: q in inlist && Parent(w) < q)
  }

  ghost predicate Completes(c: Arity, inlist: seq<Quad>, dom: Quad, s: seq<Quad>) {
    && Tiles(c, s, Begin(dom), End(c, dom))
    && (forall q :: q in inlist ==> q in s)
    && (forall w :: w in s ==> dom < w)
  }

  /** The completion is the coarsest one: every other completion refines it. */
  lemma ForcedIsCoarsest(c: Arity, deep: nat, inlist: seq<Quad>, dom: Quad, s: seq<Quad>, other: seq<Quad>, t: Quad)
    requires IsQuad(c, dom) && Completes(c, inlist, dom, s) && Levels(s, deep)
    requires forall w :: w in s ==> Forced(inlist, dom, w)
    requires Completes(c, inlist, dom, other) && t in other && |t| <= deep
    ensures exists w :: w in s && w <= t
  {
    var k :| 0 <= k < |other| && other[k] == t;
    assert IsQuad(c, other[k]);
    var i := TilingMeetsDescendant(c, deep, s, dom, t);
    var w := s[i];
    assert w in s;
    if !(w <= t) {
      assert t <= Parent(w);
      if Parent(w) != dom {
        var q :| q in inlist && Parent(w) < q;
        assert q in other;
        var j :| 0 <= j < |other| && other[j] == q;
        OverlapSameSlot(c, other, k, j);
      }
    }
  }

  // ---------------------------------------------------------------- moving along the curve

  /** Where the fill stands: tempq starts where the written part ends, and the next listed
      quadrant is in or after tempq. */
  ghost predicate At(c: Arity, deep: nat, inlist: seq<Quad>, dom: Quad, tempq: Quad, jz: nat) {
    && IsQuad(c, tempq) && dom < tempq && |tempq| <= deep && jz <= |inlist|
    && Forced(inlist, dom, tempq)
    && (jz < |inlist| ==> tempq <= inlist[jz] || Before(tempq, inlist[jz]))
  }

  /** A last child before q has its parent before q. */
  lemma ClimbBefore(c: Arity, t: Quad, q: Quad)
    requires t != [] && ChildId(t) == c - 1 && IsQuad(c, q) && Before(t, q)
    ensures Before(Parent(t), q)
  {
    var n := CommonLength(t, q);
    assert n < |t| - 1;
    BeforeIntro(Parent(t), q, n);
  }

  lemma NextSiblingReaches(c: Arity, t: Quad, q: Quad)
    requires t != [] && Before(t, q)
    ensures var r := Sibling(t, ChildId(t) + 1); r <= q || Before(r, q)
  {
    var n := CommonLength(t, q);
    var r := Sibling(t, ChildId(t) + 1);
    if n < |t| - 1 {
      BeforeIntro(r, q, n);
    } else if q[n] == t[n] + 1 {
      assert r == q[..n + 1];
    } else {
      BeforeIntro(r, q, n);
    }
  }

  lemma ForcedParent(inlist: seq<Quad>, dom: Quad, t: Quad)
    requires Forced(inlist, dom, t) && dom < Parent(t)
    ensures Forced(inlist, dom, Parent(t))
  {
    var q :| q in inlist && Parent(t) < q;
    assert Parent(Parent(t)) < q;
  }

  /** tempq ends where `from` ended and is still before the next listed quadrant. */
  ghost predicate Climbing(c: Arity, inlist: seq<Quad>, dom: Quad, from: Quad, tempq: Quad, jz: nat) {
    && dom <= tempq && IsQuad(c, tempq) && |tempq| <= |from|
    && End(c, tempq) == End(c, from)
    && (|tempq| > |dom| ==> Forced(inlist, dom, tempq))
    && (jz < |inlist| ==> Before(tempq, inlist[jz]))
  }

  lemma ClimbStep(c: Arity, deep: nat, inlist: seq<Quad>, dom: Quad, from: Quad, tempq: Quad, jz: nat)
    requires Reduced(c, deep, inlist, dom) && jz <= |inlist| && Climbing(c, inlist, dom, from, tempq, jz)
    requires |tempq| > |dom| && ChildId(tempq) == c - 1
    ensures Climbing(c, inlist, dom, from, Parent(tempq), jz)
  {
    if jz < |inlist| {
      ClimbBefore(c, tempq, inlist[jz]);
    }
    if |tempq| > |dom| + 1 {
      ForcedParent(inlist, dom, tempq);
    }
  }

  lemma ClimbEnds(c: Arity, deep: nat, inlist: seq<Quad>, dom: Quad, from: Quad, tempq: Quad, jz: nat)
    requires Reduced(c, deep, inlist, dom) && jz <= |inlist| && |from| <= deep
    requires Climbing(c, inlist, dom, from, tempq, jz)
    requires |tempq| > |dom| ==> ChildId(tempq) != c - 1
    ensures |tempq| <= |dom| ==> tempq == dom && jz == |inlist|
    ensures |tempq| > |dom| ==> var r := Sibling(tempq, ChildId(tempq) + 1);
              At(c, deep, inlist, dom, r, jz) && ChildId(r) == ChildId(tempq) + 1 && End(c, from) == Begin(r)
  {
    if jz < |inlist| {
      Trichotomy(dom, inlist[jz]);
    }
    if |tempq| <= |dom| {
      assert tempq == dom;
    } else {
      var r := Sibling(tempq, ChildId(tempq) + 1);
      assert Parent(r) == Parent(tempq);
      if jz < |inlist| {
        NextSiblingReaches(c, tempq, inlist[jz]);
      }
    }
  }

  lemma ClimbStarts(c: Arity, deep: nat, inlist: seq<Quad>, dom: Quad, from: Quad, jz: nat)
    requires At(c, deep, inlist, dom, from, jz) && (jz < |inlist| ==> !(from <= inlist[jz]))
    ensures Climbing(c, inlist, dom, from, from, jz) && |from| > |dom| && |from| <= deep && jz <= |inlist|
  {
  }

  /** Goes up while tempq is a last sibling, then to the next sibling; stops at dom. */
  method Advance(c: Arity, deep: nat, ghost inlist: seq<Quad>, dom: Quad, from: Quad, pidFrom: nat, ghost jz: nat)
    returns (tempq: Quad, pid: nat)
    requires Reduced(c, deep, inlist, dom) && At(c, deep, inlist, dom, from, jz)
    requires pidFrom == ChildId(from)
    requires jz < |inlist| ==> !(from <= inlist[jz])
    ensures |tempq| <= |dom| ==> tempq == dom && End(c, dom) == End(c, from) && jz == |inlist|
    ensures |tempq| > |dom| ==> At(c, deep, inlist, dom, tempq, jz) && pid == ChildId(tempq)
    ensures |tempq| > |dom| ==> End(c, from) == Begin(tempq)
  {
    hide Reduced, At, Begin, End, Forced;
    tempq, pid := from, pidFrom;
    ClimbStarts(c, deep, inlist, dom, from, jz);
    while |tempq| >= |dom| + 1 && pid == c - 1
      invariant Climbing(c, inlist, dom, from, tempq, jz) && pid == ChildId(tempq)
    {
      ClimbStep(c, deep, inlist, dom, from, tempq, jz);
      tempq := Parent(tempq);
      pid := ChildId(tempq);
    }
    ClimbEnds(c, deep, inlist, dom, from, tempq, jz);
    if |tempq| < |dom| + 1 {
      return;
    }
    pid := pid + 1;
    tempq := Sibling(tempq, pid);
  }

  // ---------------------------------------------------------------- the fill

  /** What has been appended so far. */
  ghost predicate Filled(c: Arity, deep: nat, inlist: seq<Quad>, dom: Quad, added: seq<Quad>, upto: Position) {
    && Tiles(c, added, Begin(dom), upto)
    && (forall w :: w in added ==> dom < w && |w| <= deep && Forced(inlist, dom, w))
  }

  /** The listed quadrants before jz are written, the last of them perhaps still pending. */
  ghost predicate Listed(inlist: seq<Quad>, added: seq<Quad>, tempq: Quad, jz: nat) {
    jz <= |inlist| && forall i :: 0 <= i < jz ==> inlist[i] in added || (i == jz - 1 && inlist[i] == tempq)
  }

  lemma FilledPush(c: Arity, deep: nat, inlist: seq<Quad>, dom: Quad, added: seq<Quad>, tempq: Quad, jz: nat)
    requires Filled(c, deep, inlist, dom, added, Begin(tempq)) && At(c, deep, inlist, dom, tempq, jz)
    requires Listed(inlist, added, tempq, jz)
    ensures Filled(c, deep, inlist, dom, added + [tempq], End(c, tempq))
    ensures forall i :: 0 <= i < jz ==> inlist[i] in added + [tempq]
  {
    assert Tiles(c, [tempq], Begin(tempq), End(c, tempq));
    TilesConcat(c, added, [tempq], Begin(dom), Begin(tempq), End(c, tempq));
    forall i | 0 <= i < jz
      ensures inlist[i] in added + [tempq]
    {
      assert tempq in [tempq];
    }
  }

  /** The fill moves forward along the curve. */
  lemma Forward(c: Arity, deep: nat, t: Quad, r: Quad)
    requires Next(c, t, r) && IsQuad(c, t) && IsQuad(c, r) && |t| <= deep && |r| <= deep
    ensures First(c, deep, t) < First(c, deep, r) < Pow(c, deep)
  {
    NextIsAdjacent(c, deep, t, r);
    FirstBelowTop(c, deep, r);
  }

  /** The largest first descendant of tempq that lies before q. */
  function Descend(deep: nat, tempq: Quad, q: Quad): Quad
    requires |tempq| <= deep
  {
    NearestCommonAncestor(tempq + seq(deep - |tempq|, _ => 0), q) + [0]
  }

  lemma DescendStaysBefore(c: Arity, deep: nat, inlist: seq<Quad>, dom: Quad, added: seq<Quad>, tempq: Quad, jz: nat)
    requires Reduced(c, deep, inlist, dom) && At(c, deep, inlist, dom, tempq, jz)
    requires jz < |inlist| && tempq <= inlist[jz] && Begin(tempq) != Begin(inlist[jz])
    requires Listed(inlist, added, tempq, jz) && Filled(c, deep, inlist, dom, added, Begin(tempq))
    ensures Listed(inlist, added, Descend(deep, tempq, inlist[jz]), jz)
    ensures Filled(c, deep, inlist, dom, added, Begin(Descend(deep, tempq, inlist[jz])))
    ensures var d := Descend(deep, tempq, inlist[jz]);
            At(c, deep, inlist, dom, d, jz) && Begin(d) == Begin(tempq) && ChildId(d) == 0 && |d| > |tempq|
    ensures !(Descend(deep, tempq, inlist[jz]) <= inlist[jz])
    ensures var d := Descend(deep, tempq, inlist[jz]);
            |d| <= deep && IsQuad(c, d) && First(c, deep, d) == First(c, deep, tempq)
  {
    var q := inlist[jz];
    var d := Descend(deep, tempq, q);
    assert q in inlist && IsQuad(c, q) && |q| <= deep;
    PendingIsNotAncestor(c, deep, inlist, dom, added, tempq, jz);
    hide Descend, First, Begin, NearestCommonAncestor, CommonLength;
    DescendShape(c, deep, tempq, q);
    BeginValue(c, deep, tempq);
    BeginValue(c, deep, d);
    Trichotomy(d, q);
  }

  /** The quadrant found starts with tempq, lies before q and has a parent that holds q. */
  lemma DescendShape(c: Arity, deep: nat, tempq: Quad, q: Quad)
    requires IsQuad(c, q) && |q| <= deep && tempq <= q && Begin(tempq) != Begin(q)
    ensures var d := Descend(deep, tempq, q);
            && tempq < d && |d| <= deep && IsQuad(c, d) && ChildId(d) == 0 && Begin(d) == Begin(tempq)
            && Parent(d) < q && Before(d, q)
  {
    var low := tempq + seq(deep - |tempq|, _ => 0);
    var n := CommonLength(low, q);
    var d := Descend(deep, tempq, q);
    NearestCommonAncestorIsDeepest(low, q, tempq);
    assert |tempq| <= n;
    assert forall i :: |tempq| <= i < n ==> q[i] == q[..n][i] == low[..n][i] == 0;
    if n == |q| {
      BeginOfZeros(tempq, q);
    }
    assert n < |q| && n < deep;
    assert low[n] == 0 && q[n] > 0;
    hide NearestCommonAncestor, CommonLength, Begin, Before;
    ZerosThen(tempq, q, n);
  }

  lemma ZerosThen(t: Quad, q: Quad, n: nat)
    requires t <= q && |t| <= n < |q| && q[n] > 0 && forall i :: |t| <= i < n ==> q[i] == 0
    ensures var d := q[..n] + [0];
            t < d && ChildId(d) == 0 && Begin(d) == Begin(t) && Parent(d) == q[..n] < q && Before(d, q)
  {
    var d := q[..n] + [0];
    assert d[..n] == q[..n];
    BeforeIntro(d, q, n);
    assert t == d[..|t|];
    BeginOfZeros(t, d);
  }

  lemma PendingIsNotAncestor(c: Arity, deep: nat, inlist: seq<Quad>, dom: Quad, added: seq<Quad>, tempq: Quad, jz: nat)
    requires Reduced(c, deep, inlist, dom) && jz < |inlist| && tempq <= inlist[jz]
    requires Listed(inlist, added, tempq, jz)
    ensures forall i :: 0 <= i < jz ==> inlist[i] in added
  {
    forall i | 0 <= i < jz
      ensures inlist[i] in added
    {
      if i == jz - 1 && inlist[i] == tempq {
        Trichotomy(tempq, inlist[jz]);
      }
    }
  }

  lemma {:induction false} BeginOfZeros(t: Quad, d: Quad)
    requires t <= d && forall i :: |t| <= i < |d| ==> d[i] == 0
    ensures Begin(d) == Begin(t)
    decreases |d|
  {
    if |d| > |t| {
      BeginOfZeros(t, Parent(d));
    } else {
      assert d == t;
    }
  }

  /** The first corner of tempq is a listed quadrant: it becomes the next member. */
  lemma ReachedListed(c: Arity, deep: nat, inlist: seq<Quad>, dom: Quad, added: seq<Quad>, tempq: Quad, jz: nat)
    requires Reduced(c, deep, inlist, dom) && jz < |inlist| && At(c, deep, inlist, dom, tempq, jz)
    requires tempq <= inlist[jz] && Begin(tempq) == Begin(inlist[jz]) && Listed(inlist, added, tempq, jz)
    requires Filled(c, deep, inlist, dom, added, Begin(tempq))
    ensures At(c, deep, inlist, dom, inlist[jz], jz + 1) && Listed(inlist, added, inlist[jz], jz + 1)
    ensures Filled(c, deep, inlist, dom, added, Begin(inlist[jz]))
    ensures ChildId(inlist[jz]) == 0 && |inlist[jz]| <= deep && IsQuad(c, inlist[jz])
    ensures |tempq| == |inlist[jz]| ==> tempq == inlist[jz]
    ensures First(c, deep, inlist[jz]) == First(c, deep, tempq)
  {
    var q := inlist[jz];
    assert q in inlist && Parent(q) < q;
    BeginValue(c, deep, tempq);
    BeginValue(c, deep, q);
    PendingIsNotAncestor(c, deep, inlist, dom, added, tempq, jz);
  }

  lemma StartsFilled(c: Arity, deep: nat, inlist: seq<Quad>, dom: Quad)
    requires IsQuad(c, dom) && |dom| < deep && Reduced(c, deep, inlist, dom)
    ensures At(c, deep, inlist, dom, Child(dom, 0), 0) && ChildId(Child(dom, 0)) == 0
    ensures Filled(c, deep, inlist, dom, [], Begin(Child(dom, 0))) && Listed(inlist, [], Child(dom, 0), 0)
    ensures IsQuad(c, Child(dom, 0)) && First(c, deep, Child(dom, 0)) <= Pow(c, deep)
  {
    var t := Child(dom, 0);
    assert Parent(t) == dom;
    FirstBelowTop(c, deep, t);
    if 0 < |inlist| {
      var q := inlist[0];
      if q[|dom|] == 0 {
        assert t == q[..|dom| + 1];
      } else {
        BeforeIntro(t, q, |dom|);
      }
    }
  }

  lemma Moved(c: Arity, deep: nat, inlist: seq<Quad>, dom: Quad, added: seq<Quad>, last: Quad, tempq: Quad, jz: nat)
    requires At(c, deep, inlist, dom, last, jz) && At(c, deep, inlist, dom, tempq, jz)
    requires Filled(c, deep, inlist, dom, added, End(c, last)) && End(c, last) == Begin(tempq)
    requires forall i :: 0 <= i < jz ==> inlist[i] in added
    ensures Filled(c, deep, inlist, dom, added, Begin(tempq)) && Listed(inlist, added, tempq, jz)
    ensures |last| <= deep && |tempq| <= deep && IsQuad(c, tempq)
    ensures First(c, deep, last) < First(c, deep, tempq) <= Pow(c, deep)
  {
    Forward(c, deep, last, tempq);
  }

  lemma Finished(c: Arity, deep: nat, inlist: seq<Quad>, dom: Quad, added: seq<Quad>, last: Quad)
    requires Filled(c, deep, inlist, dom, added, End(c, last)) && End(c, dom) == End(c, last)
    requires forall i :: 0 <= i < |inlist| ==> inlist[i] in added
    ensures Completes(c, inlist, dom, added) && Levels(added, deep)
    ensures forall w :: w in added ==> Forced(inlist, dom, w)
  {
  }

  /** Writes quadrants until the next listed one is reached, or dom is full. */
  method FillUntil(c: Arity, deep: nat, ghost inlist: seq<Quad>, q: Option<Quad>, dom: Quad, out: QuadArray,
                   from: Quad, pidFrom: nat, ghost jz: nat, ghost was: seq<Quad>, ghost addedFrom: seq<Quad>)
    returns (tempq: Quad, pid: nat, ghost added: seq<Quad>)
    requires Reduced(c, deep, inlist, dom) && At(c, deep, inlist, dom, from, jz) && |from| > |dom|
    requires IsQuad(c, from) && |from| <= deep && pidFrom == ChildId(from)
    requires q == if jz < |inlist| then Some(inlist[jz]) else None
    requires Filled(c, deep, inlist, dom, addedFrom, Begin(from)) && Listed(inlist, addedFrom, from, jz)
    requires out.elems == was + addedFrom && First(c, deep, from) <= Pow(c, deep)
    modifies out
    ensures out.elems == was + added
    ensures |tempq| <= |dom| ==> Completes(c, inlist, dom, added) && Levels(added, deep) &&
                                 forall w :: w in added ==> Forced(inlist, dom, w)
    ensures |tempq| > |dom| ==>
              && At(c, deep, inlist, dom, tempq, jz) && pid == ChildId(tempq) && q.Some? && tempq <= q.value
              && Filled(c, deep, inlist, dom, added, Begin(tempq)) && Listed(inlist, added, tempq, jz)
              && |tempq| <= deep && IsQuad(c, tempq)
              && First(c, deep, from) <= First(c, deep, tempq) <= Pow(c, deep)
              && (First(c, deep, tempq) == First(c, deep, from) ==> tempq == from)
  {
    hide Tiles, At, Filled, Listed, Reduced, Forced, Begin, End, Completes, Levels;
    tempq, pid, added := from, pidFrom, addedFrom;
    while q.None? || !(tempq <= q.value)
      invariant out.elems == was + added
      invariant |tempq| > |dom| && At(c, deep, inlist, dom, tempq, jz) && pid == ChildId(tempq)
      invariant Filled(c, deep, inlist, dom, added, Begin(tempq)) && Listed(inlist, added, tempq, jz)
      invariant |tempq| <= deep && IsQuad(c, tempq)
      invariant First(c, deep, from) <= First(c, deep, tempq) <= Pow(c, deep)
      invariant First(c, deep, tempq) == First(c, deep, from) ==> tempq == from
      decreases Pow(c, deep) - First(c, deep, tempq)
    {
      out.Push(tempq);
      FilledPush(c, deep, inlist, dom, added, tempq, jz);
      added := added + [tempq];
      ghost var last := tempq;
      tempq, pid := Advance(c, deep, inlist, dom, tempq, pid, jz);
      if |tempq| < |dom| + 1 {
        Finished(c, deep, inlist, dom, added, last);
        break;
      }
      Moved(c, deep, inlist, dom, added, last, tempq, jz);
    }
  }

  /** Appends to `out` the coarsest tiling of dom, finer than dom, that has every listed
      quadrant as a leaf. */
  method Complete(c: Arity, deep: nat, inlist: seq<Quad>, dom: Quad, out: QuadArray)
    requires IsQuad(c, dom) && |dom| < deep && Reduced(c, deep, inlist, dom)
    modifies out
    ensures |old(out.elems)| <= |out.elems| && out.elems[..|old(out.elems)|] == old(out.elems)
    ensures var added := out.elems[|old(out.elems)|..];
            && Completes(c, inlist, dom, added) && Levels(added, deep)
            && forall w :: w in added ==> Forced(inlist, dom, w)
  {
    hide Tiles, At, Filled, Listed, Reduced, Forced, Begin, End, Completes, Levels;
    ghost var was := out.elems;
    ghost var added: seq<Quad> := [];
    var minlevel := |dom| + 1;
    var tempq, pid, jz := Child(dom, 0), 0, 0;
    var q := if jz < |inlist| then Some(inlist[jz]) else None;
    StartsFilled(c, deep, inlist, dom);
    while true
      invariant out.elems == was + added && 0 <= jz
      invariant |tempq| >= minlevel && At(c, deep, inlist, dom, tempq, jz) && pid == ChildId(tempq)
      invariant q == if jz < |inlist| then Some(inlist[jz]) else None
      invariant Filled(c, deep, inlist, dom, added, Begin(tempq)) && Listed(inlist, added, tempq, jz)
      invariant |tempq| <= deep && IsQuad(c, tempq) && First(c, deep, tempq) <= Pow(c, deep)
      decreases Pow(c, deep) - First(c, deep, tempq), |inlist| - jz, deep - |tempq|
    {
      tempq, pid, added := FillUntil(c, deep, inlist, q, dom, out, tempq, pid, jz, was, added);
      if |tempq| < minlevel {
        break;
      }
      if Begin(tempq) == Begin(q.value) {
        ReachedListed(c, deep, inlist, dom, added, tempq, jz);
        pid := if |q.value| > |tempq| then 0 else pid;
        tempq := q.value;
        jz := jz + 1;
        q := if jz < |inlist| then Some(inlist[jz]) else None;
      } else {
        DescendStaysBefore(c, deep, inlist, dom, added, tempq, jz);
        tempq := Descend(deep, tempq, q.value);
        pid := 0;
      }
    }
  }
}
