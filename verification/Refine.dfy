/** In-place refinement of one tree (p4est_refine_ext): a work list of quadrants, a write
    cursor and a read cursor over the array that is being overwritten. */
module Refine {
  import opened Quadrants
  import opened Trees

  /** The arguments that stay fixed during a call. */
  datatype Rule = Rule(c: Arity, refine: Quad -> bool, allowed: nat, recursive: bool)

  /** A work list entry; `refined` is the mark that the quadrant came out of a split. */
  datatype Item = Item(quad: Quad, refined: bool)

  const NUMBER_TO_READ := 32

  // ---------------------------------------------------------------- specification

  predicate Splits(r: Rule, it: Item) {
    (r.recursive || !it.refined) && r.refine(it.quad) && |it.quad| < r.allowed
  }

  /** The leaves that one quadrant turns into. */
  ghost function Expand(r: Rule, it: Item): (s: seq<Quad>)
    ensures |s| > 0
    decreases if |it.quad| < r.allowed then r.allowed - |it.quad| else 0, r.c + 1
  {
    if Splits(r, it) then ExpandChildren(r, it.quad, 0) else [it.quad]
  }

  /** The leaves that the children i, i + 1, ... of q turn into. */
  ghost function ExpandChildren(r: Rule, q: Quad, i: nat): (s: seq<Quad>)
    requires |q| < r.allowed && i <= r.c
    ensures i < r.c ==> |s| > 0
    decreases r.allowed - |q|, r.c - i
  {
    if i == r.c then [] else Expand(r, Item(Child(q, i), true)) + ExpandChildren(r, q, i + 1)
  }

  ghost function ExpandAll(r: Rule, items: seq<Item>): (s: seq<Quad>)
    ensures |s| >= |items|
  {
    if items == [] then [] else Expand(r, items[0]) + ExpandAll(r, items[1..])
  }

  function Unrefined(s: seq<Quad>): (items: seq<Item>)
    ensures |items| == |s|
    ensures forall i :: 0 <= i < |s| ==> items[i].quad == s[i]
  {
    seq(|s|, i requires 0 <= i < |s| => Item(s[i], false))
  }

  function ChildItems(c: Arity, q: Quad, i: nat): seq<Item>
    requires i <= c
  {
    seq(c - i, j requires 0 <= j < c - i => Item(Child(q, i + j), true))
  }

  // ---------------------------------------------------------------- lemmas for the work list

  lemma {:induction false} ExpandAllConcat(r: Rule, a: seq<Item>, b: seq<Item>)
    ensures ExpandAll(r, a + b) == ExpandAll(r, a) + ExpandAll(r, b)
  {
    hide Expand;
    if a == [] {
      assert a + b == b;
    } else {
      ExpandAllConcat(r, a[1..], b);
      assert (a + b)[1..] == a[1..] + b && (a + b)[0] == a[0];
      var x, y, z := Expand(r, a[0]), ExpandAll(r, a[1..]), ExpandAll(r, b);
      assert ExpandAll(r, a + b) == x + (y + z);
      assert x + (y + z) == (x + y) + z;
    }
  }

  lemma {:induction false} ExpandChildItems(r: Rule, q: Quad, i: nat)
    requires |q| < r.allowed && i <= r.c
    ensures ExpandAll(r, ChildItems(r.c, q, i)) == ExpandChildren(r, q, i)
    decreases r.c - i
  {
    if i < r.c {
      ExpandChildItems(r, q, i + 1);
      assert ChildItems(r.c, q, i)[1..] == ChildItems(r.c, q, i + 1);
    }
  }

  lemma SplitKeepsMeaning(r: Rule, list: seq<Item>)
    requires list != [] && Splits(r, list[0])
    ensures ExpandAll(r, ChildItems(r.c, list[0].quad, 0) + list[1..]) == ExpandAll(r, list)
  {
    ExpandChildItems(r, list[0].quad, 0);
    ExpandAllConcat(r, ChildItems(r.c, list[0].quad, 0), list[1..]);
  }

  lemma {:induction false} ExpandUnsplit(r: Rule, s: seq<Quad>)
    requires forall i :: 0 <= i < |s| ==> !Splits(r, Item(s[i], false))
    ensures ExpandAll(r, Unrefined(s)) == s
  {
    if s != [] {
      assert Unrefined(s)[1..] == Unrefined(s[1..]);
      ExpandUnsplit(r, s[1..]);
    }
  }

  // ---------------------------------------------------------------- the array algorithm

  /** Written prefix, work list and unread members together are always the answer. */
  ghost predicate Meaning(r: Rule, arr: seq<Quad>, current: nat, list: seq<Item>, unread: seq<Quad>, answer: seq<Quad>)
  {
    current <= |arr| && answer == arr[..current] + ExpandAll(r, list) + ExpandAll(r, Unrefined(unread))
  }

  lemma MeaningFirst(r: Rule, s: seq<Quad>, current: nat)
    requires current < |s| && forall i :: 0 <= i < current ==> !Splits(r, Item(s[i], false))
    ensures Meaning(r, s, current, [Item(s[current], false)], s[current + 1..], ExpandAll(r, Unrefined(s)))
  {
    var u := Unrefined(s);
    ExpandUnsplit(r, s[..current]);
    assert u == Unrefined(s[..current]) + ([Item(s[current], false)] + Unrefined(s[current + 1..]));
    ExpandAllConcat(r, Unrefined(s[..current]), [Item(s[current], false)] + Unrefined(s[current + 1..]));
    ExpandAllConcat(r, [Item(s[current], false)], Unrefined(s[current + 1..]));
  }

  lemma MeaningSplit(r: Rule, arr: seq<Quad>, fill: seq<Quad>, current: nat, list: seq<Item>, unread: seq<Quad>,
                     answer: seq<Quad>)
    requires Meaning(r, arr, current, list, unread, answer) && list != [] && Splits(r, list[0])
    ensures Meaning(r, arr + fill, current, ChildItems(r.c, list[0].quad, 0) + list[1..], unread, answer)
  {
    SplitKeepsMeaning(r, list);
    assert (arr + fill)[..current] == arr[..current];
  }

  lemma MeaningRead(r: Rule, arr: seq<Quad>, current: nat, list: seq<Item>, unread: seq<Quad>, k: nat,
                    answer: seq<Quad>)
    requires Meaning(r, arr, current, list, unread, answer) && k <= |unread|
    ensures Meaning(r, arr, current, list + Unrefined(unread[..k]), unread[k..], answer)
  {
    hide ExpandAll;
    ExpandAllConcat(r, list, Unrefined(unread[..k]));
    ExpandAllConcat(r, Unrefined(unread[..k]), Unrefined(unread[k..]));
    assert Unrefined(unread) == Unrefined(unread[..k]) + Unrefined(unread[k..]);
  }

  lemma MeaningWrite(r: Rule, arr: seq<Quad>, current: nat, list: seq<Item>, unread: seq<Quad>, answer: seq<Quad>)
    requires Meaning(r, arr, current, list, unread, answer) && list != [] && !Splits(r, list[0]) && current < |arr|
    ensures Meaning(r, arr[current := list[0].quad], current + 1, list[1..], unread, answer)
  {
    assert arr[current := list[0].quad][..current + 1] == arr[..current] + [list[0].quad];
  }

  /** At least one slot of the answer is still unwritten for every entry that is left. */
  lemma MeaningRoom(r: Rule, arr: seq<Quad>, current: nat, list: seq<Item>, unread: seq<Quad>, answer: seq<Quad>)
    requires Meaning(r, arr, current, list, unread, answer)
    ensures current + |list| + |unread| <= |answer|
    ensures list != [] && Splits(r, list[0]) ==> current + |list| + |unread| + r.c - 1 <= |answer|
    ensures list == [] && unread == [] ==> answer == arr[..current]
  {
    if list != [] && Splits(r, list[0]) {
      SplitKeepsMeaning(r, list);
    }
  }

  // ---------------------------------------------------------------- level statistics

  /** Resets the counters, then counts the leading quadrants that stay as they are. */
  method CountUnrefined(tree: Tree, refine: Quad -> bool, allowed: nat)
    returns (maxlevel: nat, current: nat)
    requires |tree.perLevel| > 0 && BoundedLevels(tree.quads, |tree.perLevel| - 1) && allowed < |tree.perLevel|
    modifies tree`perLevel
    ensures |tree.perLevel| == |old(tree.perLevel)| && current <= |tree.quads|
    ensures IsMaxLevel(tree.quads[..current], maxlevel) && Tally(tree.perLevel, tree.quads[..current])
    ensures forall i :: 0 <= i < current ==> !(refine(tree.quads[i]) && |tree.quads[i]| < allowed)
    ensures current < |tree.quads| ==> refine(tree.quads[current]) && |tree.quads[current]| < allowed
  {
    maxlevel, current := 0, 0;
    tree.perLevel := seq(|tree.perLevel|, _ => 0);
    while current < |tree.quads|
      invariant |tree.perLevel| == |old(tree.perLevel)| && current <= |tree.quads|
      invariant IsMaxLevel(tree.quads[..current], maxlevel) && Tally(tree.perLevel, tree.quads[..current])
      invariant forall i :: 0 <= i < current ==> !(refine(tree.quads[i]) && |tree.quads[i]| < allowed)
    {
      var q := tree.quads[current];
      if refine(q) && |q| < allowed {
        break;
      }
      Record(tree.perLevel, tree.quads, current, maxlevel, q);
      maxlevel := if maxlevel < |q| then |q| else maxlevel;
      tree.perLevel := tree.perLevel[|q| := tree.perLevel[|q|] + 1];
      current := current + 1;
    }
  }

  /** Writing q at the write cursor extends both statistics by q. */
  lemma Record(perLevel: seq<int>, arr: seq<Quad>, current: nat, m: nat, q: Quad)
    requires current < |arr| && |q| < |perLevel|
    requires IsMaxLevel(arr[..current], m) && Tally(perLevel, arr[..current])
    ensures IsMaxLevel(arr[current := q][..current + 1], if m < |q| then |q| else m)
    ensures Tally(perLevel[|q| := perLevel[|q|] + 1], arr[current := q][..current + 1])
    ensures arr[current] == q ==> arr[current := q] == arr
  {
    assert arr[current := q][..current + 1] == arr[..current] + [q];
    MaxLevelAppend(arr[..current], m, q);
    TallyAppend(perLevel, arr[..current], q);
  }

  // ---------------------------------------------------------------- the method

  lemma NothingSplits(r: Rule, s: seq<Quad>)
    requires forall i :: 0 <= i < |s| ==> !(r.refine(s[i]) && |s[i]| < r.allowed)
    ensures ExpandAll(r, Unrefined(s)) == s
  {
    ExpandUnsplit(r, s);
  }

  /** Bounded look-ahead: unread members join the work list before their slots are needed. */
  method ReadAhead(tree: Tree, list: seq<Item>, restpos: nat, incount: nat)
    returns (list': seq<Item>, restpos': nat)
    requires restpos < incount <= |tree.quads|
    ensures restpos < restpos' <= incount
    ensures restpos' == restpos + NUMBER_TO_READ || (restpos' == incount && incount - restpos < NUMBER_TO_READ)
    ensures list' == list + Unrefined(tree.quads[restpos..restpos'])
  {
    list', restpos' := list, restpos;
    var movecount := if incount - restpos < NUMBER_TO_READ then incount - restpos else NUMBER_TO_READ;
    while movecount > 0
      invariant 0 <= movecount <= NUMBER_TO_READ && restpos <= restpos' <= incount
      invariant movecount + restpos' ==
                restpos + if incount - restpos < NUMBER_TO_READ then incount - restpos else NUMBER_TO_READ
      invariant list' == list + Unrefined(tree.quads[restpos..restpos'])
    {
      var q := tree.quads[restpos'];
      ghost var part := tree.quads[restpos..restpos'];
      assert tree.quads[restpos..restpos' + 1] == part + [q];
      assert Unrefined(part + [q]) == Unrefined(part) + [Item(q, false)];
      list' := list' + [Item(q, false)];
      movecount := movecount - 1;
      restpos' := restpos' + 1;
    }
  }

  /** The members from `restpos` on are still those of the input. */
  ghost predicate StillUnread(arr: seq<Quad>, s0: seq<Quad>, restpos: nat) {
    restpos <= |s0| <= |arr| && arr[restpos..|s0|] == s0[restpos..]
  }

  ghost predicate ItemLevels(list: seq<Item>, bound: nat) {
    forall i :: 0 <= i < |list| ==> |list[i].quad| < bound
  }

  lemma ReadKeepsMeaning(r: Rule, arr: seq<Quad>, current: nat, work: seq<Item>, list: seq<Item>,
                         s0: seq<Quad>, was: nat, restpos: nat, bound: nat, answer: seq<Quad>)
    requires was <= restpos <= |s0| && work != [] && StillUnread(arr, s0, was)
    requires Meaning(r, arr, current, work, s0[was..], answer)
    requires list == work[1..] + Unrefined(arr[was..restpos])
    requires ItemLevels(work, bound) && forall i :: 0 <= i < |s0| ==> |s0[i]| < bound
    ensures |list| == |work| - 1 + restpos - was
    ensures Meaning(r, arr, current, [work[0]] + list, s0[restpos..], answer)
    ensures StillUnread(arr, s0, restpos) && ItemLevels([work[0]] + list, bound)
  {
    hide Meaning;
    assert forall i :: was <= i < restpos ==> arr[i] == arr[was..|s0|][i - was] == s0[i];
    MeaningRead(r, arr, current, work, s0[was..], restpos - was, answer);
    assert s0[was..][..restpos - was] == arr[was..restpos];
    assert s0[was..][restpos - was..] == s0[restpos..];
    assert work + Unrefined(arr[was..restpos]) == [work[0]] + list;
    assert arr[restpos..|s0|] == arr[was..|s0|][restpos - was..];
  }

  lemma ItemLevelsAfterSplit(c: Arity, work: seq<Item>, bound: nat)
    requires work != [] && ItemLevels(work, bound) && |work[0].quad| + 1 < bound
    ensures ItemLevels(ChildItems(c, work[0].quad, 0) + work[1..], bound)
    ensures |ChildItems(c, work[0].quad, 0)| == c
  {
    var kids := ChildItems(c, work[0].quad, 0);
    var list := kids + work[1..];
    forall i | 0 <= i < |list|
      ensures |list[i].quad| < bound
    {
      if i < c {
        assert list[i] == kids[i];
      } else {
        assert list[i] == work[i - c + 1];
      }
    }
  }

  lemma SplitStep(r: Rule, arr: seq<Quad>, fill: seq<Quad>, current: nat, work: seq<Item>,
                  s0: seq<Quad>, restpos: nat, bound: nat, answer: seq<Quad>)
    requires restpos <= |s0| && work != [] && Splits(r, work[0]) && r.allowed < bound
    requires Meaning(r, arr, current, work, s0[restpos..], answer)
    requires StillUnread(arr, s0, restpos) && ItemLevels(work, bound)
    ensures var list := ChildItems(r.c, work[0].quad, 0) + work[1..];
            && Meaning(r, arr + fill, current, list, s0[restpos..], answer)
            && ItemLevels(list, bound) && |list| == |work| - 1 + r.c
    ensures StillUnread(arr + fill, s0, restpos) && current <= |arr| && (arr + fill)[..current] == arr[..current]
  {
    MeaningSplit(r, arr, fill, current, work, s0[restpos..], answer);
    ItemLevelsAfterSplit(r.c, work, bound);
    assert (arr + fill)[restpos..|s0|] == arr[restpos..|s0|];
  }

  lemma WriteStep(r: Rule, arr: seq<Quad>, current: nat, work: seq<Item>, s0: seq<Quad>, restpos: nat,
                  answer: seq<Quad>)
    requires restpos <= |s0| && work != [] && !Splits(r, work[0])
    requires Meaning(r, arr, current, work, s0[restpos..], answer)
    requires StillUnread(arr, s0, restpos) && current < |arr| && (current < restpos || restpos == |s0|)
    ensures Meaning(r, arr[current := work[0].quad], current + 1, work[1..], s0[restpos..], answer)
    ensures StillUnread(arr[current := work[0].quad], s0, restpos)
  {
    MeaningWrite(r, arr, current, work, s0[restpos..], answer);
    assert arr[current := work[0].quad][restpos..|s0|] == arr[restpos..|s0|];
  }

  lemma ItemLevelsPop(work: seq<Item>, bound: nat)
    requires work != [] && ItemLevels(work, bound)
    ensures ItemLevels(work[1..], bound) && |work[0].quad| < bound
  {
  }

  lemma FirstItem(s0: seq<Quad>, current: nat, bound: nat)
    requires current < |s0| && |s0[current]| < bound
    ensures ItemLevels([Item(s0[current], false)], bound) && StillUnread(s0, s0, current + 1)
  {
  }

  /** Writes one finished quadrant and counts it. */
  method Store(tree: Tree, current: nat, maxlevel: nat, q: Quad) returns (maxlevel': nat)
    requires current < |tree.quads| && |q| < |tree.perLevel|
    requires IsMaxLevel(tree.quads[..current], maxlevel) && Tally(tree.perLevel, tree.quads[..current])
    modifies tree`quads, tree`perLevel
    ensures tree.quads == old(tree.quads)[current := q] && |tree.perLevel| == |old(tree.perLevel)|
    ensures IsMaxLevel(tree.quads[..current + 1], maxlevel') && Tally(tree.perLevel, tree.quads[..current + 1])
  {
    Record(tree.perLevel, tree.quads, current, maxlevel, q);
    tree.quads := tree.quads[current := q];
    maxlevel' := if maxlevel < |q| then |q| else maxlevel;
    tree.perLevel := tree.perLevel[|q| := tree.perLevel[|q|] + 1];
  }

  method Refine(tree: Tree, c: Arity, recursive: bool, allowedLevel: int, refine: Quad -> bool)
    requires tree.Counted() && allowedLevel < |tree.perLevel|
    modifies tree
    ensures tree.Counted() && |tree.perLevel| == |old(tree.perLevel)|
    ensures var allowed := if allowedLevel < 0 then |tree.perLevel| - 1 else allowedLevel;
            tree.quads == ExpandAll(Rule(c, refine, allowed, recursive), Unrefined(old(tree.quads)))
    ensures tree.quads == old(tree.quads) ==> tree.maxLevel == old(tree.maxLevel)
    ensures tree.quads != old(tree.quads) ==> 0 <= tree.maxLevel && IsMaxLevel(tree.quads, tree.maxLevel)
  {
    hide ExpandAll, Meaning, Tally, IsMaxLevel, Unrefined, ChildItems, StillUnread, ItemLevels, CountLevel;
    var allowed := if allowedLevel < 0 then |tree.perLevel| - 1 else allowedLevel;
    ghost var bound := |tree.perLevel|;
    ghost var r := Rule(c, refine, allowed, recursive);
    ghost var s0 := tree.quads;
    ghost var answer := ExpandAll(r, Unrefined(s0));
    var maxlevel: nat, current: nat := CountUnrefined(tree, refine, allowed);
    var incount := |tree.quads|;
    if current == incount {
      assert s0[..current] == s0;
      NothingSplits(r, s0);
      TallyIsCounted(tree);
      return;
    }
    var list := [Item(tree.quads[current], false)];
    var restpos := current + 1;
    var firsttime := true;
    MeaningFirst(r, s0, current);
    FirstItem(s0, current, bound);
    while |list| > 0
      invariant current <= restpos || restpos == incount
      invariant restpos <= incount <= |tree.quads| && |tree.perLevel| == bound
      invariant Meaning(r, tree.quads, current, list, s0[restpos..], answer)
      invariant StillUnread(tree.quads, s0, restpos) && ItemLevels(list, bound)
      invariant current + |list| + (incount - restpos) == |tree.quads|
      invariant if firsttime then |list| > 0 && Splits(r, list[0]) else |tree.quads| > incount
      invariant current <= |tree.quads|
      invariant IsMaxLevel(tree.quads[..current], maxlevel) && Tally(tree.perLevel, tree.quads[..current])
      decreases |answer| - current, |answer| - |tree.quads|
    {
      MeaningRoom(r, tree.quads, current, list, s0[restpos..], answer);
      ItemLevelsPop(list, bound);
      ghost var work, arr := list, tree.quads;
      var qpop := list[0];
      list := list[1..];
      if firsttime || ((recursive || !qpop.refined) && refine(qpop.quad) && |qpop.quad| < allowed) {
        firsttime := false;
        var fill := seq(c - 1, _ => []);
        tree.quads := tree.quads + fill;
        list := ChildItems(c, qpop.quad, 0) + list;
        SplitStep(r, arr, fill, current, work, s0, restpos, bound, answer);
      } else {
        if restpos < incount && current == restpos {
          ghost var was := restpos;
          list, restpos := ReadAhead(tree, list, restpos, incount);
          ReadKeepsMeaning(r, arr, current, work, list, s0, was, restpos, bound, answer);
          work := [qpop] + list;
          ItemLevelsPop(work, bound);
          assert work[1..] == list;
        }
        WriteStep(r, arr, current, work, s0, restpos, answer);
        maxlevel := Store(tree, current, maxlevel, qpop.quad);
        current := current + 1;
      }
    }
    MeaningRoom(r, tree.quads, current, list, s0[restpos..], answer);
    assert tree.quads[..current] == tree.quads;
    tree.maxLevel := maxlevel;
    TallyIsCounted(tree);
  }
}
