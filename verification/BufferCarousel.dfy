/** Reference counted shared buffers that successive forests hand on to each other: every
    forest has a main buffer and may keep a spin buffer that a later forest can write to
    (p4est3_internal_setup_from_source, p4est3_refine_coarsen_copy, p4est3_partition,
    p4est3_destroy and the *_ref and *_unref functions). */
module BufferCarousel {

  datatype Spin = NoSpin | Spin(buffer: nat)

  /** One forest and one kind of buffer; `value` is what the forest has stored in its main
      buffer when it was set up. */
  datatype Slot<D> = Gone | Live(main: nat, spin: Spin, value: D)

  function HeldCount<D>(s: Slot<D>, b: nat): nat {
    match s
    case Gone => 0
    case Live(main, spin, _) => (if main == b then 1 else 0) + (if spin == Spin(b) then 1 else 0)
  }

  /** How often the live forests hold buffer b, as main or as spin. */
  function Holders<D>(slots: seq<Slot<D>>, b: nat): nat {
    if slots == [] then 0 else Holders(slots[..|slots| - 1], b) + HeldCount(slots[|slots| - 1], b)
  }

  lemma {:induction false} HoldersReplaced<D>(slots: seq<Slot<D>>, i: nat, s: Slot<D>, b: nat)
    requires i < |slots|
    ensures Holders(slots[i := s], b) + HeldCount(slots[i], b) == Holders(slots, b) + HeldCount(s, b)
  {
    var n := |slots| - 1;
    if i < n {
      HoldersReplaced(slots[..n], i, s, b);
      assert slots[i := s][..n] == slots[..n][i := s];
    } else {
      assert slots[i := s][..n] == slots[..n];
    }
  }

  lemma {:induction false} HeldIsCounted<D>(slots: seq<Slot<D>>, i: nat, b: nat)
    requires i < |slots|
    ensures HeldCount(slots[i], b) <= Holders(slots, b)
  {
    if i < |slots| - 1 {
      HeldIsCounted(slots[..|slots| - 1], i, b);
    }
  }

  lemma {:induction false} TwoHolders<D>(slots: seq<Slot<D>>, i: nat, j: nat, b: nat)
    requires i < |slots| && j < |slots| && i != j
    ensures HeldCount(slots[i], b) + HeldCount(slots[j], b) <= Holders(slots, b)
  {
    var n := |slots| - 1;
    if i < n && j < n {
      TwoHolders(slots[..n], i, j, b);
    } else {
      HeldIsCounted(slots[..n], if i < n then i else j, b);
    }
  }

  lemma HoldersAppended<D>(slots: seq<Slot<D>>, s: Slot<D>, b: nat)
    ensures Holders(slots + [s], b) == Holders(slots, b) + HeldCount(s, b)
  {
    assert (slots + [s])[..|slots|] == slots;
  }

  /** Holds taken by an operation that is still under way. */
  function Pending(list: seq<nat>, b: nat): nat {
    if list == [] then 0 else Pending(list[..|list| - 1], b) + if list[|list| - 1] == b then 1 else 0
  }

  lemma PendingAppended(list: seq<nat>, x: nat, b: nat)
    ensures Pending(list + [x], b) == Pending(list, b) + if x == b then 1 else 0
  {
    assert (list + [x])[..|list|] == list;
  }

  function Total<D>(slots: seq<Slot<D>>, list: seq<nat>, b: nat): nat {
    Holders(slots, b) + Pending(list, b)
  }

  /** All forests' buffers of one kind. */
  class Carousel<D> {
    var refs: map<nat, nat>
    var data: map<nat, D>
    var slots: seq<Slot<D>>
    var nextBuffer: nat

    constructor ()
      ensures Valid() && slots == []
    {
      refs, data, slots, nextBuffer := map[], map[], [], 0;
    }

    /** A buffer exists exactly as long as it is held, and its count is the number of holds,
        those of an operation under way included. */
    ghost predicate Counted(list: seq<nat>)
      reads this`refs, this`slots, this`nextBuffer
    {
      forall b: nat :: CountedAt(list, b)
    }

    ghost predicate CountedAt(list: seq<nat>, b: nat)
      reads this`refs, this`slots, this`nextBuffer
    {
      && (b in refs <==> Total(slots, list, b) > 0)
      && (b in refs ==> refs[b] == Total(slots, list, b) && b < nextBuffer)
    }

    /** Every live forest still finds in its main buffer what it has stored there. */
    ghost predicate Intact()
      reads this`data, this`slots
    {
      forall f :: 0 <= f < |slots| && slots[f].Live? ==> IntactAt(data, slots[f])
    }

    ghost predicate Valid()
      reads this
    {
      Counted([]) && refs.Keys == data.Keys && Intact()
    }

    method Ref(b: nat, ghost list: seq<nat>)
      requires Counted(list) && b in refs
      modifies this`refs
      ensures Counted(list + [b]) && refs.Keys == old(refs.Keys)
    {
      assert CountedAt(list, b);
      refs := refs[b := refs[b] + 1];
      forall x: nat
        ensures CountedAt(list + [b], x)
      {
        assert old(CountedAt(list, x));
        PendingAppended(list, b, x);
      }
    }

    /** Gives up the last hold taken; the last one of all frees the buffer. */
    method Unref(ghost list: seq<nat>, b: nat)
      requires Counted(list + [b]) && refs.Keys == data.Keys
      modifies this`refs, this`data
      ensures Counted(list) && refs.Keys == data.Keys && data.Keys <= old(data.Keys)
      ensures forall x :: x in data ==> data[x] == old(data)[x]
      ensures b !in refs <==> old(Total(slots, list, b)) == 0
    {
      PendingAppended(list, b, b);
      assert CountedAt(list + [b], b);
      if refs[b] == 1 {
        refs, data := refs - {b}, data - {b};
      } else {
        refs := refs[b := refs[b] - 1];
      }
      forall x: nat
        ensures CountedAt(list, x)
      {
        assert old(CountedAt(list + [b], x));
        PendingAppended(list, b, x);
      }
      assert CountedAt(list, b);
    }

    /** A new buffer with one hold. */
    method Alloc(value: D, ghost list: seq<nat>) returns (b: nat)
      requires Counted(list) && refs.Keys == data.Keys
      modifies this`refs, this`data, this`nextBuffer
      ensures b !in old(data) && data == old(data)[b := value]
      ensures Counted(list + [b]) && refs.Keys == data.Keys
    {
      b := nextBuffer;
      assert CountedAt(list, b);
      refs, data, nextBuffer := refs[b := 1], data[b := value], nextBuffer + 1;
      forall x: nat
        ensures CountedAt(list + [b], x)
      {
        assert old(CountedAt(list, x));
        PendingAppended(list, b, x);
      }
    }

    /** Enters a new forest whose holds have been taken. */
    method Enter(s: Slot<D>)
      requires s.Live? && refs.Keys == data.Keys && Intact() && IntactAt(data, s)
      requires Counted(if s.spin.Spin? then [s.main, s.spin.buffer] else [s.main])
        || (s.spin.Spin? && Counted([s.spin.buffer, s.main]))
      modifies this`slots
      ensures Valid() && slots == old(slots) + [s]
    {
      ghost var list := if !s.spin.Spin? then [s.main]
                        else if Counted([s.main, s.spin.buffer]) then [s.main, s.spin.buffer]
                        else [s.spin.buffer, s.main];
      slots := slots + [s];
      forall x: nat
        ensures CountedAt([], x)
      {
        assert old(CountedAt(list, x));
        HoldersAppended(old(slots), s, x);
        PendingOfSlot(s, list, x);
      }
    }

    /** A forest without a source. */
    method New(value: D)
      requires Valid()
      modifies this
      ensures Valid() && NewForest(old(slots), slots, value)
      ensures slots[|slots| - 1].spin == NoSpin && slots[|slots| - 1].main !in old(data)
    {
      hide Counted, Holders;
      var b := Alloc(value, []);
      assert [] + [b] == [b];
      KeptIntact(slots, old(data), data, b);
      Enter(Live(b, NoSpin, value));
    }

    /** The new forest uses the buffers of its source, unchanged.  The code asserts that the
        source alone holds the spin buffer it passes on; `alone` tells whether that is so. */
    method Share(src: nat) returns (alone: bool)
      requires Valid() && src < |slots| && slots[src].Live?
      modifies this
      ensures Valid() && slots == old(slots) + [old(slots)[src]]
      ensures alone <==> old(slots)[src].spin.NoSpin? || old(Holders(slots, slots[src].spin.buffer)) == 1
    {
      hide Counted, Holders;
      var s := slots[src];
      HeldCounted(src, []);
      Ref(s.main, []);
      assert [] + [s.main] == [s.main];
      alone := true;
      if s.spin.Spin? {
        var b := s.spin.buffer;
        PendingAppended([], s.main, b);
        HeldCounted(src, [s.main]);
        alone := refs[b] == 1;
        Ref(b, [s.main]);
        assert [s.main] + [b] == [s.main, b];
      }
      Enter(s);
    }

    /** Takes a buffer to write to: the spin buffer of the source if nobody else holds it and
        it is suitable, else a new one. */
    method TakeBuffer(src: nat, suitable: bool, value: D, ghost list: seq<nat>) returns (main: nat, reused: bool)
      requires Counted(list) && refs.Keys == data.Keys && Intact() && src < |slots| && slots[src].Live?
      requires list == [] || list == [slots[src].main]
      modifies this`refs, this`data, this`nextBuffer
      ensures Counted(list + [main]) && refs.Keys == data.Keys && Intact()
      ensures main in data && data[main] == value && main != slots[src].main
      ensures reused <==> suitable && slots[src].spin.Spin? && old(Holders(slots, slots[src].spin.buffer)) == 1
      ensures reused ==> main == slots[src].spin.buffer && NoMain(slots, main)
      ensures !reused ==> main !in old(data)
      ensures forall b :: b in old(data) ==> b in data
    {
      var s := slots[src];
      HeldCounted(src, list);
      if s.spin.Spin? && list != [] {
        PendingAppended([], s.main, s.spin.buffer);
        assert [] + [s.main] == list;
      }
      reused := s.spin.Spin? && refs[s.spin.buffer] == 1 && suitable;
      hide Counted, Holders;
      if reused {
        main := s.spin.buffer;
        OnlySpin(slots, src);
        Ref(main, list);
        data := data[main := value];
      } else {
        main := Alloc(value, list);
      }
      KeptIntact(slots, old(data), data, main);
    }

    /** The buffers of a live forest exist; with no hold of the spin buffer pending, its count
        is that of the live forests. */
    lemma HeldCounted(src: nat, list: seq<nat>)
      requires Counted(list) && src < |slots| && slots[src].Live?
      ensures slots[src].main in refs
      ensures slots[src].spin.Spin? ==> slots[src].spin.buffer in refs
      ensures slots[src].spin.Spin? && Pending(list, slots[src].spin.buffer) == 0 ==>
                refs[slots[src].spin.buffer] == Holders(slots, slots[src].spin.buffer)
    {
      var s := slots[src];
      HeldIsCounted(slots, src, s.main);
      assert CountedAt(list, s.main);
      if s.spin.Spin? {
        HeldIsCounted(slots, src, s.spin.buffer);
        assert CountedAt(list, s.spin.buffer);
      }
    }

    /** The new forest writes to a buffer of its own and keeps the source's main buffer as
        its spin. */
    method Rotate(src: nat, suitable: bool, value: D) returns (reused: bool)
      requires Valid() && src < |slots| && slots[src].Live?
      modifies this
      ensures Valid() && NewForest(old(slots), slots, value)
      ensures slots[|slots| - 1].spin == Spin(old(slots)[src].main)
      ensures reused <==> suitable && old(slots)[src].spin.Spin? && old(Holders(slots, slots[src].spin.buffer)) == 1
      ensures if reused then
                slots[|slots| - 1].main == old(slots)[src].spin.buffer && NoMain(old(slots), slots[|slots| - 1].main)
              else slots[|slots| - 1].main !in old(data)
    {
      hide Counted, Holders;
      var s := slots[src];
      HeldCounted(src, []);
      var main: nat;
      main, reused := TakeBuffer(src, suitable, value, []);
      assert [] + [main] == [main];
      Ref(s.main, [main]);
      assert [main] + [s.main] == [main, s.main];
      Enter(Live(main, Spin(s.main), value));
    }

    /** The rule for quadrants: when the source's spin buffer is too small for the new leaves
        but large enough for the old ones, it stays the spin instead of the source's main. */
    method RotateQuadrants(src: nat, fits: bool, fitsOld: bool, value: D) returns (reused: bool)
      requires Valid() && src < |slots| && slots[src].Live?
      modifies this
      ensures Valid() && NewForest(old(slots), slots, value)
      ensures reused <==> fits && old(slots)[src].spin.Spin? && old(Holders(slots, slots[src].spin.buffer)) == 1
      ensures if reused then
                slots[|slots| - 1].main == old(slots)[src].spin.buffer && NoMain(old(slots), slots[|slots| - 1].main)
              else slots[|slots| - 1].main !in old(data)
      ensures slots[|slots| - 1].spin ==
                if !reused && fitsOld && old(slots)[src].spin.Spin? && old(Holders(slots, slots[src].spin.buffer)) == 1
                then old(slots)[src].spin else Spin(old(slots)[src].main)
    {
      hide Counted, Holders;
      var s := slots[src];
      HeldCounted(src, []);
      var spin := s.main;
      Ref(spin, []);
      assert [] + [spin] == [spin];
      if s.spin.Spin? {
        PendingAppended([], s.main, s.spin.buffer);
      }
      HeldCounted(src, [spin]);
      var alone := s.spin.Spin? && refs[s.spin.buffer] == 1;
      var main: nat;
      main, reused := TakeBuffer(src, fits, value, [spin]);
      assert [spin] + [main] == [spin, main];
      if !reused && alone && fitsOld {
        Swap(spin, main);
        assert [main, spin] == [main] + [spin];
        ghost var before := data;
        Unref([main], spin);
        StillIntact(before, [main]);
        spin := s.spin.buffer;
        Ref(spin, [main]);
        assert [main] + [spin] == [main, spin];
      }
      Enter(Live(main, Spin(spin), value));
    }

    lemma Swap(a: nat, b: nat)
      requires Counted([a, b])
      ensures Counted([b, a])
    {
      forall x: nat
        ensures CountedAt([b, a], x)
      {
        assert CountedAt([a, b], x);
        PendingTwo(a, b, x);
        PendingTwo(b, a, x);
      }
    }

    /** Destroys a forest: the other live forests keep what they have. */
    method Destroy(f: nat)
      requires Valid() && f < |slots| && slots[f].Live?
      modifies this
      ensures Valid() && slots == old(slots)[f := Gone]
    {
      hide Counted, Holders, Pending;
      var main, spin := slots[f].main, slots[f].spin;
      ghost var before := data;
      TakeOut(f);
      if spin.Spin? {
        assert [spin.buffer, main] == [spin.buffer] + [main];
        Unref([spin.buffer], main);
        assert [spin.buffer] == [] + [spin.buffer];
        Unref([], spin.buffer);
      } else {
        assert [main] == [] + [main];
        Unref([], main);
      }
      StillIntact(before, []);
    }

    /** Removes a forest from the table; its holds are pending then. */
    method TakeOut(f: nat)
      requires Valid() && f < |slots| && slots[f].Live?
      modifies this`slots
      ensures slots == old(slots)[f := Gone] && Intact()
      ensures Counted(if old(slots)[f].spin.Spin? then [old(slots)[f].spin.buffer, old(slots)[f].main]
                      else [old(slots)[f].main])
    {
      ghost var s := slots[f];
      ghost var list := if s.spin.Spin? then [s.spin.buffer, s.main] else [s.main];
      assert IntactAt(data, s);
      slots := slots[f := Gone];
      forall x: nat
        ensures CountedAt(list, x)
      {
        assert old(CountedAt([], x));
        HoldersReplaced(old(slots), f, Gone, x);
        PendingOfSlot(s, list, x);
      }
    }

    /** Freeing what nobody holds takes nothing from the live forests. */
    lemma StillIntact(before: map<nat, D>, list: seq<nat>)
      requires Counted(list) && refs.Keys == data.Keys
      requires forall f :: 0 <= f < |slots| && slots[f].Live? ==> IntactAt(before, slots[f])
      requires forall x :: x in data ==> x in before && data[x] == before[x]
      ensures Intact()
      ensures forall i :: 0 <= i < |list| ==> list[i] in data
      ensures forall f :: 0 <= f < |slots| && slots[f].Live? && slots[f].spin.Spin? ==> slots[f].spin.buffer in refs
    {
      forall f | 0 <= f < |slots| && slots[f].Live?
        ensures IntactAt(data, slots[f]) && (slots[f].spin.Spin? ==> slots[f].spin.buffer in refs)
      {
        HeldCounted(f, list);
        assert IntactAt(before, slots[f]);
      }
      forall i | 0 <= i < |list|
        ensures list[i] in data
      {
        PendingMember(list, i);
        assert CountedAt(list, list[i]);
      }
    }
  }

  ghost predicate IntactAt<D>(data: map<nat, D>, s: Slot<D>)
    requires s.Live?
  {
    s.main in data && data[s.main] == s.value && s.spin != Spin(s.main)
  }

  /** The other forests are as before, the last one is new and has its value. */
  ghost predicate NewForest<D>(before: seq<Slot<D>>, after: seq<Slot<D>>, value: D) {
    |after| == |before| + 1 && after[..|before|] == before && after[|before|].Live? && after[|before|].value == value
  }

  ghost predicate NoMain<D>(slots: seq<Slot<D>>, b: nat) {
    forall f :: 0 <= f < |slots| && slots[f].Live? ==> slots[f].main != b
  }

  lemma PendingOfSlot<D>(s: Slot<D>, list: seq<nat>, b: nat)
    requires s.Live? && s.spin != Spin(s.main)
    requires list == (if s.spin.Spin? then [s.main, s.spin.buffer] else [s.main]) ||
             (s.spin.Spin? && list == [s.spin.buffer, s.main])
    ensures Pending(list, b) == HeldCount(s, b)
  {
    PendingOne(s.main, b);
    if s.spin.Spin? {
      PendingTwo(s.main, s.spin.buffer, b);
      PendingTwo(s.spin.buffer, s.main, b);
    }
  }

  lemma {:induction false} PendingMember(list: seq<nat>, i: nat)
    requires i < |list|
    ensures Pending(list, list[i]) > 0
  {
    if i < |list| - 1 {
      PendingMember(list[..|list| - 1], i);
    }
  }

  lemma PendingTwo(x: nat, y: nat, b: nat)
    ensures Pending([x, y], b) == (if x == b then 1 else 0) + if y == b then 1 else 0
  {
    PendingOne(x, b);
    PendingAppended([x], y, b);
    assert [x] + [y] == [x, y];
  }

  lemma PendingOne(x: nat, b: nat)
    ensures Pending([x], b) == if x == b then 1 else 0
  {
    PendingAppended([], x, b);
    assert [] + [x] == [x];
  }

  lemma KeptIntact<D>(slots: seq<Slot<D>>, before: map<nat, D>, after: map<nat, D>, b: nat)
    requires forall f :: 0 <= f < |slots| && slots[f].Live? ==> IntactAt(before, slots[f])
    requires NoMain(slots, b) || b !in before
    requires forall x :: x in before ==> x in after && (x != b ==> after[x] == before[x])
    ensures forall f :: 0 <= f < |slots| && slots[f].Live? ==> IntactAt(after, slots[f])
  {
    forall f | 0 <= f < |slots| && slots[f].Live?
      ensures IntactAt(after, slots[f])
    {
      assert IntactAt(before, slots[f]);
    }
  }

  /** Whoever is alone on a buffer and holds it as spin shares it with no main holder. */
  lemma OnlySpin<D>(slots: seq<Slot<D>>, src: nat)
    requires src < |slots| && slots[src].Live? && slots[src].spin.Spin? && slots[src].spin != Spin(slots[src].main)
    requires Holders(slots, slots[src].spin.buffer) == 1
    ensures NoMain(slots, slots[src].spin.buffer)
  {
    var b := slots[src].spin.buffer;
    forall f | 0 <= f < |slots| && slots[f].Live?
      ensures slots[f].main != b
    {
      if f != src {
        TwoHolders(slots, src, f, b);
      }
    }
  }

  // ---------------------------------------------------------------- runs

  /** Steps of a program that uses forests. */
  datatype Step<D> =
    | DoNew(value: D)
    | DoShare(src: nat)
    | DoRotate(src: nat, suitable: bool, value: D)
    | DoRotateQuadrants(src: nat, fits: bool, fitsOld: bool, value: D)
    | DoDestroy(f: nat)

  ghost predicate Possible<D>(slots: seq<Slot<D>>, step: Step<D>) {
    match step
    case DoNew(_) => true
    case DoShare(src) => src < |slots| && slots[src].Live?
    case DoRotate(src, _, _) => src < |slots| && slots[src].Live?
    case DoRotateQuadrants(src, _, _, _) => src < |slots| && slots[src].Live?
    case DoDestroy(f) => f < |slots| && slots[f].Live?
  }

  /** Any step keeps the counts right, and every forest that stays alive keeps its value. */
  method Take<D>(c: Carousel<D>, step: Step<D>)
    requires c.Valid() && Possible(c.slots, step)
    modifies c
    ensures c.Valid() && |c.slots| >= |old(c.slots)|
    ensures forall f :: 0 <= f < |old(c.slots)| && step != DoDestroy(f) ==> c.slots[f] == old(c.slots)[f]
    ensures forall f :: 0 <= f < |old(c.slots)| && c.slots[f].Live? ==>
              old(c.slots)[f].Live? && c.slots[f].main in c.data && c.data[c.slots[f].main] == old(c.slots)[f].value
  {
    match step {
      case DoNew(value) => c.New(value);
      case DoShare(src) => var alone := c.Share(src);
      case DoRotate(src, suitable, value) => var reused := c.Rotate(src, suitable, value);
      case DoRotateQuadrants(src, fits, fitsOld, value) => var reused := c.RotateQuadrants(src, fits, fitsOld, value);
      case DoDestroy(f) => c.Destroy(f);
    }
    forall f | 0 <= f < |old(c.slots)| && c.slots[f].Live?
      ensures IntactAt(c.data, c.slots[f])
    {
    }
    assert forall f :: 0 <= f < |old(c.slots)| && step != DoDestroy(f) ==> c.slots[f] == c.slots[..|old(c.slots)|][f];
  }

  // ---------------------------------------------------------------- the five kinds

  datatype Kind = FirstTrees | FirstPositions | RankOffsets | TreeOffsets | Quadrants

  /** How a forest is derived: refined, coarsened or copied, or partitioned. */
  datatype Derivation =
    | Adapted(sameFormat: bool, fits: bool, fitsOld: bool)
    | Partitioned(sameFormat: bool, contiguous: bool)

  /** What p4est3_internal_setup_from_source and the functions it calls do with each kind. */
  function StepFor<D>(kind: Kind, how: Derivation, src: nat, value: D): Step<D> {
    match how
    case Adapted(sameFormat, fits, fitsOld) => (
      match kind
      case FirstTrees => DoShare(src)
      case FirstPositions => if sameFormat then DoShare(src) else DoNew(value)
      case RankOffsets => DoRotate(src, true, value)
      case TreeOffsets => DoRotate(src, true, value)
      case Quadrants => DoRotateQuadrants(src, fits, fitsOld, value))
    case Partitioned(sameFormat, contiguous) => (
      match kind
      case FirstTrees => DoRotate(src, true, value)
      case FirstPositions => if sameFormat then DoRotate(src, true, value) else DoNew(value)
      case RankOffsets => DoRotate(src, true, value)
      case TreeOffsets => DoShare(src)
      case Quadrants => if contiguous && sameFormat then DoShare(src) else DoNew(value))
  }

  /** The arrays a derivation writes. */
  predicate Writes(kind: Kind, how: Derivation) {
    match how
    case Adapted(sameFormat, _, _) => kind != FirstTrees && (kind == FirstPositions ==> !sameFormat)
    case Partitioned(sameFormat, contiguous) =>
      kind != TreeOffsets && (kind == Quadrants ==> !(contiguous && sameFormat))
  }

  ghost predicate HeldOnce<D>(slots: seq<Slot<D>>, spin: Spin) {
    spin.Spin? && Holders(slots, spin.buffer) == 1
  }

  /** A derived forest writes only to a buffer that no live forest has as its main buffer,
      and shares the buffers it does not write.  It writes to the source's spin buffer exactly
      when the source alone holds it, the format stays and, for quadrants, it is large enough,
      else to a new one; it keeps as spin what the next derivation may write to. */
  method Derive<D>(c: Carousel<D>, kind: Kind, how: Derivation, src: nat, value: D)
    requires c.Valid() && src < |c.slots| && c.slots[src].Live?
    modifies c
    ensures c.Valid() && |c.slots| == |old(c.slots)| + 1 && c.slots[..|old(c.slots)|] == old(c.slots)
    ensures var made := c.slots[|old(c.slots)|];
            && made.Live?
            && if Writes(kind, how) then made.value == value && NoMain(old(c.slots), made.main)
               else made == old(c.slots)[src]
    ensures Writes(kind, how) ==>
              var source, made := old(c.slots)[src], c.slots[|old(c.slots)|];
              if HeldOnce(old(c.slots), source.spin)
                 && (kind == FirstPositions ==> how.sameFormat) && (kind == Quadrants ==> how.Adapted? && how.fits)
              then made.main == source.spin.buffer
              else made.main !in old(c.data)
    ensures Writes(kind, how) ==>
              var source, made := old(c.slots)[src], c.slots[|old(c.slots)|];
              made.spin ==
                if (kind == FirstPositions && !how.sameFormat) || (kind == Quadrants && how.Partitioned?) then NoSpin
                else if kind == Quadrants && !how.fits && how.fitsOld && HeldOnce(old(c.slots), source.spin)
                then source.spin
                else Spin(source.main)
  {
    match StepFor(kind, how, src, value) {
      case DoShare(s) =>
        var alone := c.Share(s);
      case DoRotate(s, suitable, v) =>
        var reused := c.Rotate(s, suitable, v);
        if !reused {
          NewIsNobodysMain(old(c.data), old(c.slots), c.slots[|c.slots| - 1].main);
        }
      case DoRotateQuadrants(s, fits, fitsOld, v) =>
        var reused := c.RotateQuadrants(s, fits, fitsOld, v);
        if !reused {
          NewIsNobodysMain(old(c.data), old(c.slots), c.slots[|c.slots| - 1].main);
        }
      case DoNew(v) =>
        c.New(v);
        NewIsNobodysMain(old(c.data), old(c.slots), c.slots[|c.slots| - 1].main);
    }
  }

  lemma NewIsNobodysMain<D>(data: map<nat, D>, slots: seq<Slot<D>>, b: nat)
    requires b !in data && forall f :: 0 <= f < |slots| && slots[f].Live? ==> IntactAt(data, slots[f])
    ensures NoMain(slots, b)
  {
    forall f | 0 <= f < |slots| && slots[f].Live?
      ensures slots[f].main != b
    {
      assert IntactAt(data, slots[f]);
    }
  }

  // ---------------------------------------------------------------- two runs

  /** A run in which the code's assertion that a forest is alone on the spin buffer it passes
      on does not hold: the forest it came from is still alive. */
  method SpinOfLiveSource() returns (alone: bool)
    ensures !alone
  {
    var c := new Carousel<int>();
    c.New(0);
    var reused := c.Rotate(0, true, 1);
    ghost var slots := c.slots;
    HoldersOfPair(slots);
    alone := c.Share(1);
  }

  lemma HoldersOfPair<D>(slots: seq<Slot<D>>)
    requires |slots| == 2 && slots[0].Live? && slots[1].Live? && slots[1].spin == Spin(slots[0].main)
    ensures Holders(slots, slots[0].main) >= 2
  {
    TwoHolders(slots, 0, 1, slots[0].main);
  }

  /** The buffer of a destroyed source is the one a second derivation writes to: three
      forests in a row need two buffers. */
  method TwoBuffersSuffice() returns (reused: bool)
    ensures reused
  {
    var c := new Carousel<int>();
    c.New(0);
    var first := c.Rotate(0, true, 1);
    ghost var source := c.slots[0];
    c.Destroy(0);
    HoldersOfSpin(c.slots);
    reused := c.Rotate(1, true, 2);
  }

  lemma HoldersOfSpin<D>(slots: seq<Slot<D>>)
    requires |slots| == 2 && slots[0].Gone? && slots[1].Live? && slots[1].spin.Spin?
    requires slots[1].spin != Spin(slots[1].main)
    ensures Holders(slots, slots[1].spin.buffer) == 1
  {
    var b := slots[1].spin.buffer;
    assert slots[..1] == [slots[0]] && slots[..1][..0] == [];
    assert Holders(slots[..1], b) == HeldCount(slots[0], b);
  }
}
