/** The exchange that gives every rank the number of leaves before each tree
    (p4est3_tree_offsets_communication, p4est3_internal_mpi.c). */
module TreeOffsets {

  /** The shared partition arrays of one forest, with the leaf counts they stand for:
      `before[t]` is the number of leaves in all trees before t. */
  datatype Partition = Partition(goffset: seq<int>, gftree: seq<int>, ghost before: seq<int>) {
    predicate Filled(r: int)
      requires 0 <= r < |goffset| - 1
    {
      goffset[r] < goffset[r + 1]
    }
  }

  function NumRanks(part: Partition): int {
    |part.goffset| - 1
  }

  ghost function NumTrees(part: Partition): int {
    |part.before| - 1
  }

  /** First trees never decrease, are right for every rank that has leaves and end with the
      number of trees; the entry of an empty rank may be any value in between. */
  ghost predicate Valid(part: Partition) {
    && |part.goffset| == |part.gftree| >= 2 && |part.before| >= 2
    && part.goffset[0] == 0 == part.before[0] && part.goffset[NumRanks(part)] == part.before[NumTrees(part)]
    && (forall r, s :: 0 <= r <= s < |part.goffset| ==> part.goffset[r] <= part.goffset[s])
    && (forall r, s :: 0 <= r <= s < |part.gftree| ==> part.gftree[r] <= part.gftree[s])
    && (forall t, u :: 0 <= t < u < |part.before| ==> part.before[t] < part.before[u])
    && part.gftree[0] >= 0 && part.gftree[NumRanks(part)] == NumTrees(part)
    && (forall r :: 0 <= r < NumRanks(part) && part.Filled(r) ==> StartsIn(part, r, part.gftree[r]))
  }

  ghost predicate StartsIn(part: Partition, r: int, t: int)
    requires 0 <= r < |part.goffset|
  {
    0 <= t < NumTrees(part) && part.before[t] <= part.goffset[r] < part.before[t + 1]
  }

  ghost predicate EndsIn(part: Partition, r: int, t: int)
    requires 0 <= r < NumRanks(part)
  {
    0 <= t < NumTrees(part) && part.before[t] < part.goffset[r + 1] <= part.before[t + 1]
  }

  ghost predicate OwnsFirst(part: Partition, r: int, t: int) {
    0 <= r < NumRanks(part) && 0 <= t < NumTrees(part) && part.goffset[r] <= part.before[t] < part.goffset[r + 1]
  }

  ghost predicate OwnsLast(part: Partition, r: int, t: int) {
    0 <= r < NumRanks(part) && 0 <= t < NumTrees(part) && part.goffset[r] < part.before[t + 1] <= part.goffset[r + 1]
  }

  /** Rank s holds the last leaf of a tree whose first leaf is p's. */
  ghost predicate Sends(part: Partition, s: int, p: int) {
    s != p && exists t :: OwnsLast(part, s, t) && OwnsFirst(part, p, t)
  }

  /** What rank r knows of itself: its trees and how many leaves it has in each. */
  datatype Local = Local(rank: nat, fltree: int, lltree: int, nltrees: int, counts: seq<int>, atOrigin: bool)

  function TreeCount(me: Local, t: int): int
    requires me.fltree <= t < me.fltree + |me.counts|
  {
    me.counts[t - me.fltree]
  }

  ghost predicate Knows(part: Partition, me: Local) {
    && Valid(part) && me.rank < NumRanks(part)
    && if part.Filled(me.rank) then
         && me.fltree == part.gftree[me.rank] && EndsIn(part, me.rank, me.lltree)
         && me.nltrees == |me.counts| == me.lltree - me.fltree + 1
         && (me.atOrigin <==> part.goffset[me.rank] == part.before[me.fltree])
         && forall t :: me.fltree <= t <= me.lltree ==> TreeCount(me, t) == HeldOf(part, me.rank, t)
       else
         me.fltree == -1 && me.lltree == -2 && me.nltrees == 0 && me.counts == []
  }

  ghost function HeldOf(part: Partition, r: int, t: int): int
    requires 0 <= r < NumRanks(part) && 0 <= t < NumTrees(part)
  {
    var from := if part.before[t] < part.goffset[r] then part.goffset[r] else part.before[t];
    var to := if part.before[t + 1] < part.goffset[r + 1] then part.before[t + 1] else part.goffset[r + 1];
    to - from
  }

  // ---------------------------------------------------------------- scans over ranks

  lemma {:induction false} EmptyRun(part: Partition, a: int, b: int)
    requires Valid(part) && 0 <= a <= b <= NumRanks(part)
    requires forall i :: a <= i < b ==> !part.Filled(i)
    ensures part.goffset[a] == part.goffset[b]
    decreases b - a
  {
    if a < b {
      EmptyRun(part, a + 1, b);
      assert !part.Filled(a);
    }
  }

  /** A rank whose first tree is beyond t starts after all leaves of t. */
  lemma {:induction false} StartsBeyond(part: Partition, p: int, t: int)
    requires Valid(part) && 0 <= p <= NumRanks(part) && 0 <= t < part.gftree[p]
    ensures t < NumTrees(part) && part.goffset[p] >= part.before[t + 1]
    decreases NumRanks(part) - p
  {
    if p < NumRanks(part) && !part.Filled(p) {
      StartsBeyond(part, p + 1, t);
    }
  }

  method NextFilled(part: Partition, from: int) returns (q: int)
    requires Valid(part) && 0 <= from <= NumRanks(part)
    ensures from <= q <= NumRanks(part) && (q < NumRanks(part) ==> part.Filled(q))
    ensures forall i :: from <= i < q ==> !part.Filled(i)
  {
    q := from;
    while q < NumRanks(part) && part.goffset[q] == part.goffset[q + 1]
      invariant from <= q <= NumRanks(part)
      invariant forall i :: from <= i < q ==> !part.Filled(i)
    {
      q := q + 1;
    }
  }

  method PreviousFilled(part: Partition, from: int) returns (p: int)
    requires Valid(part) && -1 <= from < NumRanks(part)
    ensures -1 <= p <= from && (p >= 0 ==> part.Filled(p))
    ensures forall i :: p < i <= from ==> !part.Filled(i)
  {
    p := from;
    while p >= 0 && part.goffset[p + 1] == part.goffset[p]
      invariant -1 <= p <= from
      invariant forall i :: p < i <= from ==> !part.Filled(i)
    {
      p := p - 1;
    }
  }

  /** The last rank with leaves among those that start in the tree of q. */
  method LastInTree(part: Partition, q: int, tree: int) returns (r: int)
    requires Valid(part) && 0 <= q < NumRanks(part) && part.Filled(q) && part.gftree[q] == tree
    ensures OwnsLast(part, r, tree) && r >= q
  {
    var p := q;
    r := q;
    while p < NumRanks(part) && part.gftree[p] == tree
      invariant q <= r <= p <= NumRanks(part) && r < NumRanks(part)
      invariant part.Filled(r) && part.gftree[r] == tree
      invariant p > q ==> r < p
      invariant forall i :: r < i < p ==> !part.Filled(i)
    {
      if part.goffset[p + 1] > part.goffset[p] {
        r := p;
      }
      p := p + 1;
    }
    EmptyRun(part, r + 1, p);
    if p < NumRanks(part) {
      StartsBeyond(part, p, tree);
    }
  }

  /** The first rank with leaves among those that start in the tree of `rank`. */
  method FirstInTree(part: Partition, rank: int, tree: int) returns (r: int)
    requires Valid(part) && 0 <= rank < NumRanks(part) && part.Filled(rank) && part.gftree[rank] == tree
    ensures 0 <= r <= rank && part.Filled(r) && part.gftree[r] == tree
    ensures forall i :: 0 <= i < r && part.Filled(i) ==> part.gftree[i] < tree
  {
    var p := rank;
    r := p;
    while p >= 0 && part.gftree[p] == tree
      invariant -1 <= p <= rank && 0 <= r <= rank && p <= r
      invariant part.Filled(r) && part.gftree[r] == tree
      invariant forall i :: p < i < r ==> !part.Filled(i)
    {
      if part.goffset[p + 1] > part.goffset[p] {
        r := p;
      }
      p := p - 1;
    }
  }

  // ---------------------------------------------------------------- who talks to whom

  lemma RanksOrdered(part: Partition, r: int, s: int)
    requires Valid(part)
    ensures 0 <= r <= s <= NumRanks(part) ==> part.goffset[r] <= part.goffset[s]
  {
  }

  lemma TreesOrdered(part: Partition, t: int, u: int)
    requires Valid(part)
    ensures 0 <= t <= u <= NumTrees(part) ==> part.before[t] <= part.before[u]
  {
  }

  lemma OneFirst(part: Partition, p: int, q: int, t: int)
    requires Valid(part) && OwnsFirst(part, p, t) && OwnsFirst(part, q, t)
    ensures p == q
  {
    RanksOrdered(part, p + 1, q);
    RanksOrdered(part, q + 1, p);
  }

  lemma OneLast(part: Partition, p: int, q: int, t: int)
    requires Valid(part) && OwnsLast(part, p, t) && OwnsLast(part, q, t)
    ensures p == q
  {
    RanksOrdered(part, p + 1, q);
    RanksOrdered(part, q + 1, p);
  }

  /** A rank that receives does so for its last tree. */
  lemma ReceivesForLast(part: Partition, me: Local, s: int)
    requires Knows(part, me) && Sends(part, s, me.rank)
    ensures part.Filled(me.rank) && OwnsFirst(part, me.rank, me.lltree) && OwnsLast(part, s, me.lltree) && s > me.rank
  {
    var p := me.rank;
    var t :| OwnsLast(part, s, t) && OwnsFirst(part, p, t);
    RanksOrdered(part, s + 1, p);
    RanksOrdered(part, p + 1, s);
    SameTree(part, t, me.lltree, part.goffset[p + 1]);
  }

  lemma SameTree(part: Partition, t: int, u: int, end: int)
    requires Valid(part) && 0 <= t < NumTrees(part) && 0 <= u < NumTrees(part)
    requires part.before[t] < end <= part.before[t + 1] && part.before[u] < end <= part.before[u + 1]
    ensures t == u
  {
    TreesOrdered(part, t + 1, u);
    TreesOrdered(part, u + 1, t);
  }

  /** A rank that sends does so for its first tree. */
  lemma SendsForFirst(part: Partition, me: Local, p: int)
    requires Knows(part, me) && Sends(part, me.rank, p)
    ensures part.Filled(me.rank) && OwnsLast(part, me.rank, me.fltree) && OwnsFirst(part, p, me.fltree) && p < me.rank
  {
    var s := me.rank;
    var t :| OwnsLast(part, s, t) && OwnsFirst(part, p, t);
    RanksOrdered(part, s + 1, p);
    RanksOrdered(part, p + 1, s);
    SameTree(part, t, me.fltree, part.goffset[s] + 1);
  }

  /** Decides whether to wait for a message and from whom; `own` tells whether this rank
      answers for its last tree. */
  method PlanReceive(part: Partition, me: Local) returns (from: int, own: bool)
    requires Knows(part, me)
    ensures forall s :: 0 <= s < NumRanks(part) ==> (from == s <==> Sends(part, s, me.rank))
    ensures -1 <= from < NumRanks(part)
    ensures part.Filled(me.rank) ==> (own <==> OwnsFirst(part, me.rank, me.lltree))
    ensures !part.Filled(me.rank) ==> own
  {
    from := -1;
    own := !(me.nltrees == 1) || me.atOrigin;
    if part.Filled(me.rank) {
      FirstOfLast(part, me);
    }
    if own {
      var q := NextFilled(part, me.rank + 1);
      EmptyRun(part, me.rank + 1, q);
      if me.lltree == part.gftree[q] {
        from := LastInTree(part, q, me.lltree);
      } else if part.Filled(me.rank) {
        TreeEndsHere(part, me, q);
      }
    }
    forall s | 0 <= s < NumRanks(part)
      ensures from == s <==> Sends(part, s, me.rank)
    {
      if Sends(part, s, me.rank) {
        ReceivesForLast(part, me, s);
        if from >= 0 {
          OneLast(part, from, s, me.lltree);
        } else {
          OneLast(part, me.rank, s, me.lltree);
        }
      }
    }
  }

  lemma FirstOfLast(part: Partition, me: Local)
    requires Knows(part, me) && part.Filled(me.rank)
    ensures me.nltrees >= 1 && me.fltree <= me.lltree && |me.counts| == me.lltree - me.fltree + 1
    ensures OwnsFirst(part, me.rank, me.lltree) <==> me.nltrees != 1 || me.atOrigin
  {
    TreesOrdered(part, me.lltree + 1, me.fltree);
    TreesOrdered(part, me.fltree + 1, me.lltree);
  }

  lemma TreeEndsHere(part: Partition, me: Local, q: int)
    requires Knows(part, me) && part.Filled(me.rank) && me.rank < q <= NumRanks(part)
    requires part.goffset[me.rank + 1] == part.goffset[q] && (q < NumRanks(part) ==> part.Filled(q))
    requires part.gftree[q] != me.lltree
    ensures OwnsLast(part, me.rank, me.lltree)
  {
    var t := me.lltree;
    TreesOrdered(part, t + 1, NumTrees(part));
    if q < NumRanks(part) {
      TreesOrdered(part, part.gftree[q] + 1, t);
      TreesOrdered(part, t + 1, part.gftree[q]);
    }
    TreesOrdered(part, part.gftree[me.rank] + 1, t);
    FirstOfLast(part, me);
  }

  /** What rank s must report to the rank p that owns the first leaf of its first tree: all
      leaves of that tree beyond p. */
  ghost function Message(part: Partition, s: int, p: int): int
    requires Valid(part) && 0 <= s < NumRanks(part) && 0 <= p < NumRanks(part)
  {
    if 0 <= part.gftree[s] < NumTrees(part) then part.before[part.gftree[s] + 1] - part.goffset[p + 1] else 0
  }

  /** The rank that owns the first leaf of this rank's first tree. */
  method FindOwner(part: Partition, me: Local, origin: seq<bool>) returns (p: int)
    requires Knows(part, me) && part.Filled(me.rank) && OriginsRight(part, origin)
    ensures OwnsFirst(part, p, me.fltree) && p <= me.rank
  {
    var r := FirstInTree(part, me.rank, me.fltree);
    p := r;
    if !origin[p] {
      p := PreviousFilled(part, r - 1);
      EmptyRun(part, p + 1, r);
      OwnerBefore(part, me.fltree, p, r);
    }
  }

  ghost predicate OriginsRight(part: Partition, origin: seq<bool>)
    requires Valid(part)
  {
    && |origin| == NumRanks(part)
    && forall r :: 0 <= r < NumRanks(part) && part.Filled(r) ==>
         (origin[r] <==> part.goffset[r] == part.before[part.gftree[r]])
  }

  lemma OwnerBefore(part: Partition, t: int, p: int, r: int)
    requires Valid(part) && -1 <= p < r < NumRanks(part) && part.goffset[p + 1] == part.goffset[r]
    requires StartsIn(part, r, t) && part.goffset[r] != part.before[t]
    requires p >= 0 ==> part.Filled(p) && part.gftree[p] < t
    ensures OwnsFirst(part, p, t)
  {
    TreesOrdered(part, 0, t);
    if p >= 0 {
      assert StartsIn(part, p, part.gftree[p]);
      TreesOrdered(part, part.gftree[p] + 1, t);
    }
  }

  /** Decides whether to send and to whom; `own` tells whether this rank holds all of its
      first tree. */
  method PlanSend(part: Partition, me: Local, origin: seq<bool>) returns (to: int, value: int, own: bool)
    requires Knows(part, me) && OriginsRight(part, origin)
    ensures -1 <= to < NumRanks(part)
    ensures forall p :: 0 <= p < NumRanks(part) ==> (to == p <==> Sends(part, me.rank, p))
    ensures to >= 0 ==> value == Message(part, me.rank, to) >= 0
    ensures part.Filled(me.rank) ==>
              (own <==> OwnsFirst(part, me.rank, me.fltree) && OwnsLast(part, me.rank, me.fltree))
    ensures !part.Filled(me.rank) ==> !own
  {
    hide OwnsFirst, OwnsLast, Sends, Message, OriginsRight, StartsIn, EndsIn, HeldOf;
    to, value, own := -1, -1, false;
    var q := NextFilled(part, me.rank + 1);
    EmptyRun(part, me.rank + 1, q);
    if part.gftree[q] > part.gftree[me.rank] && part.goffset[me.rank + 1] > part.goffset[me.rank] {
      FirstOfLast(part, me);
      StartsBeyond(part, q, me.fltree);
      TreeReachesEnd(part, me, q);
      var p := FindOwner(part, me, origin);
      if p < me.rank {
        to := p;
        value := part.goffset[me.rank] - part.goffset[p + 1] + TreeCount(me, me.fltree);
        MessageIs(part, me, p);
      } else {
        own := true;
      }
    } else if part.Filled(me.rank) {
      NotLast(part, me, q);
    }
    OneReceiver(part, me, to, own);
  }

  lemma TreeReachesEnd(part: Partition, me: Local, q: int)
    requires Knows(part, me) && part.Filled(me.rank) && 0 <= q <= NumRanks(part)
    requires part.goffset[me.rank + 1] == part.goffset[q] >= part.before[me.fltree + 1]
    ensures OwnsLast(part, me.rank, me.fltree)
  {
    assert StartsIn(part, me.rank, me.fltree);
  }

  lemma MessageIs(part: Partition, me: Local, p: int)
    requires Knows(part, me) && part.Filled(me.rank) && 0 <= p < me.rank
    requires OwnsLast(part, me.rank, me.fltree) && OwnsFirst(part, p, me.fltree)
    ensures part.goffset[me.rank] - part.goffset[p + 1] + TreeCount(me, me.fltree) == Message(part, me.rank, p) >= 0
  {
    RanksOrdered(part, p + 1, me.rank);
    FirstOfLast(part, me);
    assert TreeCount(me, me.fltree) == HeldOf(part, me.rank, me.fltree);
  }

  lemma NotLast(part: Partition, me: Local, q: int)
    requires Knows(part, me) && part.Filled(me.rank) && me.rank < q <= NumRanks(part)
    requires part.goffset[me.rank + 1] == part.goffset[q] && (q < NumRanks(part) ==> part.Filled(q))
    requires part.gftree[q] <= part.gftree[me.rank]
    ensures !OwnsLast(part, me.rank, me.fltree)
  {
  }

  lemma OneReceiver(part: Partition, me: Local, to: int, own: bool)
    requires Knows(part, me) && -1 <= to < NumRanks(part)
    requires to >= 0 ==> to != me.rank && OwnsFirst(part, to, me.fltree) && OwnsLast(part, me.rank, me.fltree)
    requires own ==> to < 0 && part.Filled(me.rank) && OwnsFirst(part, me.rank, me.fltree)
                     && OwnsLast(part, me.rank, me.fltree)
    requires to < 0 && !own && part.Filled(me.rank) ==> !OwnsLast(part, me.rank, me.fltree)
    ensures part.Filled(me.rank) ==>
              (own <==> OwnsFirst(part, me.rank, me.fltree) && OwnsLast(part, me.rank, me.fltree))
    ensures forall p :: 0 <= p < NumRanks(part) ==> (to == p <==> Sends(part, me.rank, p))
  {
    if to >= 0 && OwnsFirst(part, me.rank, me.fltree) {
      OneFirst(part, to, me.rank, me.fltree);
    }
    forall p | 0 <= p < NumRanks(part)
      ensures to == p <==> Sends(part, me.rank, p)
    {
      if Sends(part, me.rank, p) {
        SendsForFirst(part, me, p);
        OneFirst(part, p, if to >= 0 then to else me.rank, me.fltree);
      }
    }
  }

  // ---------------------------------------------------------------- the shared array

  ghost function Size(part: Partition, t: int): int
    requires 0 <= t < NumTrees(part)
  {
    part.before[t + 1] - part.before[t]
  }

  /** Who answers for a tree: the inner trees are whole, the ends depend on the neighbors. */
  lemma OwnedTrees(part: Partition, me: Local, t: int)
    requires Knows(part, me) && part.Filled(me.rank) && 0 <= t < NumTrees(part)
    ensures me.fltree < t < me.lltree ==> OwnsFirst(part, me.rank, t) && OwnsLast(part, me.rank, t)
    ensures OwnsFirst(part, me.rank, t) ==> me.fltree <= t <= me.lltree
    ensures me.fltree < me.lltree ==> OwnsLast(part, me.rank, me.fltree) && OwnsFirst(part, me.rank, me.lltree)
    ensures me.fltree <= t <= me.lltree && OwnsFirst(part, me.rank, t) && OwnsLast(part, me.rank, t) ==>
              TreeCount(me, t) == Size(part, t)
  {
    FirstOfLast(part, me);
    TreesOrdered(part, me.fltree + 1, t);
    TreesOrdered(part, t + 1, me.lltree);
    TreesOrdered(part, me.lltree + 1, t);
    TreesOrdered(part, me.fltree + 1, me.lltree);
    TreesOrdered(part, t + 1, me.fltree);
    assert StartsIn(part, me.rank, me.fltree) && EndsIn(part, me.rank, me.lltree);
    assert me.fltree <= t <= me.lltree ==> TreeCount(me, t) == HeldOf(part, me.rank, t);
  }

  /** The local count and the message together are the whole tree. */
  lemma LastTreeSize(part: Partition, me: Local, from: int)
    requires Knows(part, me) && Sends(part, from, me.rank)
    ensures part.Filled(me.rank) && 0 <= me.lltree < NumTrees(part) && 0 <= from < NumRanks(part)
    ensures me.fltree <= me.lltree < me.fltree + |me.counts|
    ensures TreeCount(me, me.lltree) + Message(part, from, me.rank) == Size(part, me.lltree)
    ensures OwnsFirst(part, me.rank, me.lltree)
  {
    ReceivesForLast(part, me, from);
    OwnedTrees(part, me, me.lltree);
    FirstOfLast(part, me);
    assert StartsIn(part, from, part.gftree[from]);
    RanksOrdered(part, me.rank + 1, from);
    SameTree(part, me.lltree, part.gftree[from], part.goffset[from] + 1);
    assert TreeCount(me, me.lltree) == HeldOf(part, me.rank, me.lltree);
    TreesOrdered(part, me.lltree, me.lltree);
  }

  ghost predicate SlotRight(part: Partition, slots: seq<int>, t: int) {
    0 <= t < NumTrees(part) && t + 1 < |slots| && slots[t + 1] == Size(part, t)
  }

  /** One rank writes the slots of the trees it answers for and leaves all others alone. */
  method Contribute(part: Partition, me: Local, ownFirst: bool, ownLast: bool, from: int, received: int,
                    slots: array<int>)
    requires Knows(part, me) && slots.Length == NumTrees(part) + 1
    requires part.Filled(me.rank) ==> (ownLast <==> OwnsFirst(part, me.rank, me.lltree))
    requires part.Filled(me.rank) ==>
               (ownFirst <==> OwnsFirst(part, me.rank, me.fltree) && OwnsLast(part, me.rank, me.fltree))
    requires !part.Filled(me.rank) ==> ownLast && !ownFirst
    requires from < NumRanks(part)
    requires from >= 0 ==> Sends(part, from, me.rank) && received == Message(part, from, me.rank)
    requires from < 0 ==> forall s :: !Sends(part, s, me.rank)
    modifies slots
    ensures forall t :: 0 <= t < NumTrees(part) && OwnsFirst(part, me.rank, t) ==> SlotRight(part, slots[..], t)
    ensures forall i :: 0 <= i < slots.Length && (i > 0 ==> !OwnsFirst(part, me.rank, i - 1)) ==>
              slots[i] == old(slots[i])
  {
    hide OwnsFirst, OwnsLast, Sends, Knows, Valid, Message, Size;
    var first, last := me.fltree + 1, me.lltree - 1;
    if ownLast {
      last := last + 1;
    }
    if ownFirst {
      first := first - 1;
    }
    ResponsibleFor(part, me, ownFirst, ownLast, first, last, from);
    var t := first;
    while t <= last
      invariant first <= t && (t <= last + 1 || t == first)
      invariant forall u :: first <= u < t && u <= last ==> slots[u + 1] == TreeCount(me, u)
      invariant forall i :: 0 <= i < slots.Length && !(first + 1 <= i <= last + 1) ==> slots[i] == old(slots[i])
    {
      slots[t + 1] := TreeCount(me, t);
      t := t + 1;
    }
    if from >= 0 {
      LastTreeSize(part, me, from);
      slots[me.lltree + 1] := TreeCount(me, me.lltree) + received;
    }
  }

  lemma ResponsibleFor(part: Partition, me: Local, ownFirst: bool, ownLast: bool, first: int, last: int, from: int)
    requires Knows(part, me)
    requires part.Filled(me.rank) ==> (ownLast <==> OwnsFirst(part, me.rank, me.lltree))
    requires part.Filled(me.rank) ==>
               (ownFirst <==> OwnsFirst(part, me.rank, me.fltree) && OwnsLast(part, me.rank, me.fltree))
    requires !part.Filled(me.rank) ==> ownLast && !ownFirst
    requires first == me.fltree + (if ownFirst then 0 else 1) && last == me.lltree - (if ownLast then 0 else 1)
    requires from < NumRanks(part)
    requires if from >= 0 then Sends(part, from, me.rank) else forall s :: !Sends(part, s, me.rank)
    ensures !part.Filled(me.rank) ==> first > last && from < 0
    ensures me.rank < NumRanks(part)
    ensures part.Filled(me.rank) ==> 0 <= me.fltree <= first && last <= me.lltree < NumTrees(part)
    ensures part.Filled(me.rank) ==> |me.counts| == me.lltree - me.fltree + 1
    ensures part.Filled(me.rank) && from >= 0 ==> OwnsFirst(part, me.rank, me.lltree)
    ensures forall t :: first <= t <= last ==> 0 <= t < NumTrees(part) && OwnsFirst(part, me.rank, t)
    ensures forall t :: first <= t <= last && !(from >= 0 && t == me.lltree) ==> TreeCount(me, t) == Size(part, t)
    ensures forall t :: 0 <= t < NumTrees(part) && OwnsFirst(part, me.rank, t) ==>
              first <= t <= last || (from >= 0 && t == me.lltree)
  {
    if from >= 0 {
      LastTreeSize(part, me, from);
    }
    if part.Filled(me.rank) {
      FirstOfLast(part, me);
      if from < 0 && ownLast {
        var s := LastHolder(part, me.lltree);
        assert !Sends(part, s, me.rank);
      }
      forall t | 0 <= t < NumTrees(part)
        ensures first <= t <= last ==> OwnsFirst(part, me.rank, t)
        ensures first <= t <= last && !(from >= 0 && t == me.lltree) ==> TreeCount(me, t) == Size(part, t)
        ensures OwnsFirst(part, me.rank, t) ==> first <= t <= last || (from >= 0 && t == me.lltree)
      {
        OwnedTrees(part, me, t);
      }
    }
  }

  lemma FirstHolder(part: Partition, t: int) returns (r: int)
    requires Valid(part) && 0 <= t < NumTrees(part)
    ensures OwnsFirst(part, r, t)
  {
    TreesOrdered(part, 0, t);
    r := HolderOf(part, part.before[t], NumRanks(part));
  }

  lemma LastHolder(part: Partition, t: int) returns (r: int)
    requires Valid(part) && 0 <= t < NumTrees(part)
    ensures OwnsLast(part, r, t)
  {
    TreesOrdered(part, 0, t);
    TreesOrdered(part, t + 1, NumTrees(part));
    r := HolderOf(part, part.before[t + 1] - 1, NumRanks(part));
  }

  lemma {:induction false} HolderOf(part: Partition, i: int, n: int) returns (r: int)
    requires Valid(part) && 0 <= n <= NumRanks(part) && 0 <= i < part.goffset[n]
    ensures 0 <= r < n && part.goffset[r] <= i < part.goffset[r + 1]
    decreases n
  {
    if part.goffset[n - 1] <= i {
      r := n - 1;
    } else {
      r := HolderOf(part, i, n - 1);
    }
  }

  /** The whole exchange: plans of all ranks, the writes in any order, the prefix sum on one
      rank.  In the end slot t holds the number of leaves in all trees before t. */
  method Exchange(part: Partition, ranks: seq<Local>, origin: seq<bool>, order: seq<nat>, slots: array<int>)
    requires Valid(part) && |ranks| == NumRanks(part) && OriginsRight(part, origin)
    requires forall r :: 0 <= r < |ranks| ==> ranks[r].rank == r && Knows(part, ranks[r])
    requires (forall k :: 0 <= k < |order| ==> order[k] < |ranks|) && forall r :: 0 <= r < |ranks| ==> r in order
    requires slots.Length == NumTrees(part) + 1
    modifies slots
    ensures slots[..] == part.before
  {
    var from, to, sent, ownFirst, ownLast := PlanAll(part, ranks, origin);
    WriteShares(part, ranks, order, from, to, sent, ownFirst, ownLast, slots);
    PrefixSums(part, slots);
  }

  method PlanAll(part: Partition, ranks: seq<Local>, origin: seq<bool>)
    returns (from: seq<int>, to: seq<int>, sent: seq<int>, ownFirst: seq<bool>, ownLast: seq<bool>)
    requires Valid(part) && |ranks| == NumRanks(part) && OriginsRight(part, origin)
    requires forall r :: 0 <= r < |ranks| ==> ranks[r].rank == r && Knows(part, ranks[r])
    ensures |from| == |to| == |sent| == |ownFirst| == |ownLast| == |ranks|
    ensures forall p :: 0 <= p < |ranks| ==> Planned(part, ranks[p], from[p], ownLast[p], to[p], sent[p], ownFirst[p])
  {
    hide Knows, Planned, Valid, OriginsRight;
    from, to, sent, ownFirst, ownLast := [], [], [], [], [];
    var r := 0;
    while r < |ranks|
      invariant 0 <= r <= |ranks| && |from| == |to| == |sent| == |ownFirst| == |ownLast| == r
      invariant forall p :: 0 <= p < r ==> Planned(part, ranks[p], from[p], ownLast[p], to[p], sent[p], ownFirst[p])
    {
      var f, ol, t, v, of := Plan(part, ranks[r], origin);
      from, to, sent, ownFirst, ownLast := from + [f], to + [t], sent + [v], ownFirst + [of], ownLast + [ol];
      r := r + 1;
    }
  }

  method Plan(part: Partition, me: Local, origin: seq<bool>)
    returns (from: int, ownLast: bool, to: int, sent: int, ownFirst: bool)
    requires Knows(part, me) && OriginsRight(part, origin)
    ensures Planned(part, me, from, ownLast, to, sent, ownFirst)
  {
    hide Sends, OwnsFirst, OwnsLast, OriginsRight;
    from, ownLast := PlanReceive(part, me);
    to, sent, ownFirst := PlanSend(part, me, origin);
  }

  method PrefixSums(part: Partition, slots: array<int>)
    requires Valid(part) && slots.Length == NumTrees(part) + 1
    requires forall t :: 0 <= t < NumTrees(part) ==> SlotRight(part, slots[..], t)
    modifies slots
    ensures slots[..] == part.before
  {
    ghost var sizes := slots[..];
    slots[0] := 0;
    var i := 1;
    while i < slots.Length
      invariant 1 <= i <= slots.Length
      invariant forall j :: 0 <= j < i ==> slots[j] == part.before[j]
      invariant forall j :: i <= j < slots.Length ==> slots[j] == sizes[j]
    {
      assert SlotRight(part, sizes, i - 1);
      slots[i] := slots[i] + slots[i - 1];
      i := i + 1;
    }
  }

  ghost predicate Planned(part: Partition, me: Local, from: int, ownLast: bool, to: int, sent: int, ownFirst: bool)
    requires Knows(part, me)
  {
    && (forall s :: 0 <= s < NumRanks(part) ==> (from == s <==> Sends(part, s, me.rank)))
    && -1 <= from < NumRanks(part) && -1 <= to < NumRanks(part)
    && (part.Filled(me.rank) ==> (ownLast <==> OwnsFirst(part, me.rank, me.lltree)))
    && (!part.Filled(me.rank) ==> ownLast && !ownFirst)
    && (forall p :: 0 <= p < NumRanks(part) ==> (to == p <==> Sends(part, me.rank, p)))
    && (to >= 0 ==> sent == Message(part, me.rank, to))
    && (part.Filled(me.rank) ==>
          (ownFirst <==> OwnsFirst(part, me.rank, me.fltree) && OwnsLast(part, me.rank, me.fltree)))
  }

  /** A message is received exactly where it is sent. */
  lemma MessagesMatch(part: Partition, s: Local, p: Local,
                      fromS: int, lastS: bool, toS: int, sentS: int, firstS: bool,
                      fromP: int, lastP: bool, toP: int, sentP: int, firstP: bool)
    requires Knows(part, s) && Planned(part, s, fromS, lastS, toS, sentS, firstS)
    requires Knows(part, p) && Planned(part, p, fromP, lastP, toP, sentP, firstP)
    ensures toS == p.rank <==> fromP == s.rank
  {
    assert toS == p.rank <==> Sends(part, s.rank, p.rank);
  }

  method WriteShares(part: Partition, ranks: seq<Local>, order: seq<nat>, from: seq<int>, to: seq<int>, sent: seq<int>,
                     ownFirst: seq<bool>, ownLast: seq<bool>, slots: array<int>)
    requires Valid(part) && |ranks| == NumRanks(part) == |from| == |to| == |sent| == |ownFirst| == |ownLast|
    requires forall r :: 0 <= r < |ranks| ==> ranks[r].rank == r && Knows(part, ranks[r])
    requires forall r :: 0 <= r < |ranks| ==> Planned(part, ranks[r], from[r], ownLast[r], to[r], sent[r], ownFirst[r])
    requires (forall k :: 0 <= k < |order| ==> order[k] < |ranks|) && forall r :: 0 <= r < |ranks| ==> r in order
    requires slots.Length == NumTrees(part) + 1
    modifies slots
    ensures forall t :: 0 <= t < NumTrees(part) ==> SlotRight(part, slots[..], t)
  {
    hide OwnsFirst, OwnsLast, Sends, Knows, Valid, Message, Size;
    var k := 0;
    while k < |order|
      invariant 0 <= k <= |order|
      invariant forall m, t :: 0 <= m < k && 0 <= t < NumTrees(part) && OwnsFirst(part, order[m], t) ==>
                  SlotRight(part, slots[..], t)
    {
      var r := order[k];
      var received := if from[r] >= 0 then sent[from[r]] else -1;
      if from[r] >= 0 {
        MessagesMatch(part, ranks[from[r]], ranks[r], from[from[r]], ownLast[from[r]], to[from[r]], sent[from[r]],
                      ownFirst[from[r]],
                      from[r], ownLast[r], to[r], sent[r], ownFirst[r]);
      }
      NoOtherSender(part, r, from[r]);
      ghost var before := slots[..];
      Contribute(part, ranks[r], ownFirst[r], ownLast[r], from[r], received, slots);
      forall m, t | 0 <= m < k + 1 && 0 <= t < NumTrees(part) && OwnsFirst(part, order[m], t)
        ensures SlotRight(part, slots[..], t)
      {
        if !OwnsFirst(part, r, t) {
          assert SlotRight(part, before, t);
        }
      }
      k := k + 1;
    }
    forall t | 0 <= t < NumTrees(part)
      ensures SlotRight(part, slots[..], t)
    {
      var r := FirstHolder(part, t);
      assert r in order;
      var m :| 0 <= m < |order| && order[m] == r;
    }
  }

  lemma NoOtherSender(part: Partition, r: int, from: int)
    requires Valid(part) && 0 <= r < NumRanks(part)
    requires forall s :: 0 <= s < NumRanks(part) ==> (from == s <==> Sends(part, s, r))
    ensures from < 0 ==> forall s :: !Sends(part, s, r)
  {
  }
}
