/** Partition for coarsening as a whole (p4est_partition_for_coarsening, p4est.c): messages,
    corrections and the new counts of all ranks. */
module PartitionForCoarsening {
  import opened Quadrants
  import opened TwoPass
  import opened FamilyCorrection
  import opened FamilyMessages

  /** The messages about one cut, one from every rank below n that is concerned. */
  ghost predicate Heard(c: Arity, s: seq<Leaf>, now: seq<int>, cut: int, msgs: seq<Msg>, n: nat)
    requires n < |now|
  {
    Messages(c, s, now, cut, Senders(c, now, cut, n), msgs)
  }

  lemma {:induction false} SendersAscend(c: Arity, now: seq<int>, cut: int, n: nat)
    requires n < |now|
    ensures Rising(Senders(c, now, cut, n))
  {
    if n > 0 {
      SendersAscend(c, now, cut, n - 1);
      SendersInRange(c, now, cut, n - 1);
    }
  }

  /** The limits of the siblings around a cut from the messages about it. */
  method HearCut(c: Arity, ghost s: seq<Leaf>, now: seq<int>, cut: nat, msgs: seq<Msg>, stray: int)
    returns (lo: int, hi: int)
    requires Divides(c, s, now) && cut < |s| && |now| >= 2 && Heard(c, s, now, cut, msgs, |now| - 1)
    requires stray >= 0 || !StartsBefore(c, |s|, cut)
    ensures lo == CutLow(c, s, cut) && hi == CutHigh(c, s, cut) + if s[cut].quad == [] then 1 else 0
  {
    hide CutLow, CutHigh, Divides, IsMessage, Senders, Messages, Rising, StartsBefore, StrayRank;
    InOrder(c, s, now);
    var procs, withCut, id := FindSenders(c, now, cut, stray);
    NoStray(c, now, cut, stray);
    SendersAscend(c, now, cut, |now| - 1);
    lo, hi := Receive(c, s, now, cut, procs, withCut, id, msgs);
  }

  /** The local correction of one rank.  The receives are posted for the right ranks unless
      the window of ranks starts before the first one and what is found there, `stray`, looks
      like a rank with leaves. */
  method CorrectRank(c: Arity, ghost s: seq<Leaf>, now: seq<int>, part: seq<int>, rank: int, msgs: seq<Msg>, stray: int)
    returns (corr: int)
    requires c > 2 && Divides(c, s, now) && Divides(c, s, part) && 0 <= rank < |part| - 1
    requires rank != 0 && part[rank] < part[rank + 1] ==> Heard(c, s, now, part[rank], msgs, |now| - 1)
    requires stray >= 0 || rank == 0 || !StartsBefore(c, |s|, part[rank])
    ensures part[rank] < part[rank + 1] ==> MovesTo(c, s, part, rank, part[rank] - corr)
  {
    hide CutLow, CutHigh, Divides, IsMessage, Senders, MovesTo, Recognized, Corrects, Heard, StartsBefore, StrayRank;
    InOrder(c, s, part);
    InOrder(c, s, now);
    if !(rank != 0 && part[rank] < part[rank + 1]) {
      FirstCut(c, s, part);
      return 0;
    }
    var cut := part[rank];
    assert 0 <= part[rank] < part[rank + 1] <= part[|part| - 1];
    var lo, hi := HearCut(c, s, now, cut, msgs, stray);
    RecognizedLimits(c, s, part, cut, lo, hi);
    corr := Correction(c, part, rank, lo, hi);
    CorrectionMoves(c, s, part, rank, lo, hi, corr);
  }

  lemma NoStray(c: Arity, now: seq<int>, cut: int, stray: int)
    requires Offsets(now) && (stray >= 0 || !StartsBefore(c, now[|now| - 1], cut))
    ensures StrayRank(c, now, cut, stray) == []
    ensures [] + Senders(c, now, cut, |now| - 1) == Senders(c, now, cut, |now| - 1)
  {
  }

  lemma InOrder(c: Arity, s: seq<Leaf>, part: seq<int>)
    requires Divides(c, s, part)
    ensures Offsets(part) && part[|part| - 1] == |s|
  {
  }

  lemma FirstCut(c: Arity, s: seq<Leaf>, part: seq<int>)
    requires Divides(c, s, part)
    ensures MovesTo(c, s, part, 0, part[0])
  {
  }

  lemma RecognizedLimits(c: Arity, s: seq<Leaf>, part: seq<int>, cut: nat, lo: int, hi: int)
    requires c > 2 && Divides(c, s, part) && cut < |s|
    requires lo == CutLow(c, s, cut) && hi == CutHigh(c, s, cut) + if s[cut].quad == [] then 1 else 0
    ensures Offsets(part) && Recognized(c, s, cut, lo, hi) && (hi - lo + 1 == c ==> hi < part[|part| - 1])
  {
    DecodedIsRecognized(c, s, cut, lo, hi);
  }

  // ---------------------------------------------------------------- all ranks together

  /** The local trees of a rank: the first one and where each starts. */
  datatype LocalTrees = LocalTrees(first: int, starts: seq<int>)

  ghost predicate TreesKnown(s: seq<Leaf>, now: seq<int>, trees: seq<LocalTrees>) {
    && |trees| == |now| - 1
    && forall r :: 0 <= r < |trees| && now[r] < now[r + 1] ==> TreesOf(s, now[r], now[r + 1], trees[r])
  }

  ghost predicate TreesOf(s: seq<Leaf>, b: int, e: int, t: LocalTrees) {
    TreeStarts(s, b, e, t.first, t.starts) && forall i :: b <= i < e ==> s[i].tree < t.first + |t.starts|
  }

  lemma HeardStep(c: Arity, s: seq<Leaf>, now: seq<int>, cut: int, msgs: seq<Msg>, n: nat)
    requires n + 1 < |now| && Heard(c, s, now, cut, msgs, n) && !Concerned(c, now, cut, n)
    ensures Heard(c, s, now, cut, msgs, n + 1)
  {
    hide IsMessage, Messages, Concerned;
    assert Senders(c, now, cut, n + 1) == Senders(c, now, cut, n) + [] == Senders(c, now, cut, n);
  }

  lemma HeardFrom(c: Arity, s: seq<Leaf>, now: seq<int>, cut: int, msgs: seq<Msg>, n: nat, m: Msg)
    requires n + 1 < |now| && Heard(c, s, now, cut, msgs, n) && Concerned(c, now, cut, n)
    requires IsMessage(c, s, now[n], now[n + 1], cut, m)
    ensures Heard(c, s, now, cut, msgs + [m], n + 1)
  {
    hide IsMessage, Messages, Concerned;
    OneMoreMessage(c, s, now, cut, Senders(c, now, cut, n), msgs, n, m);
  }

  lemma OneMoreMessage(c: Arity, s: seq<Leaf>, now: seq<int>, cut: int, procs: seq<int>, msgs: seq<Msg>, n: nat, m: Msg)
    requires Messages(c, s, now, cut, procs, msgs) && n + 1 < |now| && IsMessage(c, s, now[n], now[n + 1], cut, m)
    ensures Messages(c, s, now, cut, procs + [n], msgs + [m])
  {
    hide IsMessage;
  }

  /** Whom a rank sends to. */
  lemma {:induction false} ReceiversAre(c: Arity, now: seq<int>, part: seq<int>, rank: int, n: nat)
    requires n < |part| && 0 <= rank < |now| - 1
    ensures var procs := Receivers(c, now, part, rank, n);
            && (forall k :: 0 <= k < |procs| ==> 1 <= procs[k] < n && Due(c, now, part, rank, procs[k]))
            && (forall i :: 1 <= i < n && Due(c, now, part, rank, i) ==> i in procs)
            && forall j, k :: 0 <= j < k < |procs| ==> procs[j] < procs[k]
  {
    hide Due;
    if n > 1 {
      ReceiversAre(c, now, part, rank, n - 1);
      var t := Receivers(c, now, part, rank, n - 1);
      forall i | 1 <= i < n && Due(c, now, part, rank, i)
        ensures i in Receivers(c, now, part, rank, n)
      {
        if i < n - 1 {
          assert i in t;
        }
      }
    }
  }

  /** Every rank with leaves in the new partition has heard from the ranks below n. */
  ghost predicate AllHeard(c: Arity, s: seq<Leaf>, now: seq<int>, part: seq<int>, msgs: seq<seq<Msg>>, n: nat)
    requires n < |now|
  {
    |msgs| == |part| - 1 && forall i :: 1 <= i < |msgs| && part[i] < part[i + 1] ==>
      Heard(c, s, now, part[i], msgs[i], n)
  }

  /** One rank sends all its messages. */
  method SendFrom(c: Arity, s: seq<Leaf>, now: seq<int>, part: seq<int>, rank: nat, trees: LocalTrees,
                  msgs: seq<seq<Msg>>)
    returns (sent: seq<seq<Msg>>)
    requires Divides(c, s, now) && Divides(c, s, part) && rank + 1 < |now| && AllHeard(c, s, now, part, msgs, rank)
    requires now[rank] < now[rank + 1] ==> TreesOf(s, now[rank], now[rank + 1], trees)
    ensures AllHeard(c, s, now, part, sent, rank + 1)
  {
    hide Heard, IsMessage, Divides, TreeStarts, Senders, Receivers;
    InOrder(c, s, now);
    InOrder(c, s, part);
    var procs := FindReceivers(c, now, part, rank);
    ReceiversAre(c, now, part, rank, |part| - 1);
    sent := msgs;
    var k := 0;
    while k < |procs|
      invariant 0 <= k <= |procs| && |sent| == |msgs|
      invariant forall i :: 1 <= i < |sent| && part[i] < part[i + 1] ==>
                  if i in procs[..k] then Heard(c, s, now, part[i], sent[i], rank + 1)
                  else Heard(c, s, now, part[i], sent[i], rank)
    {
      var i := procs[k];
      var m := Send(c, s, now[rank], now[rank + 1], trees.first, trees.starts, part[i]);
      HeardFrom(c, s, now, part[i], sent[i], rank, m);
      sent := sent[i := sent[i] + [m]];
      k := k + 1;
    }
    assert procs[..k] == procs;
    forall i | 1 <= i < |sent| && part[i] < part[i + 1]
      ensures Heard(c, s, now, part[i], sent[i], rank + 1)
    {
      if i !in procs {
        HeardStep(c, s, now, part[i], sent[i], rank);
      }
    }
  }

  /** All ranks send: every rank that is to have leaves gets its messages, in rank order. */
  method SendAll(c: Arity, s: seq<Leaf>, now: seq<int>, part: seq<int>, trees: seq<LocalTrees>)
    returns (msgs: seq<seq<Msg>>)
    requires Divides(c, s, now) && Divides(c, s, part) && TreesKnown(s, now, trees)
    ensures |msgs| == |part| - 1
    ensures forall i :: 1 <= i < |msgs| && part[i] < part[i + 1] ==> Heard(c, s, now, part[i], msgs[i], |now| - 1)
  {
    hide Divides, TreesOf;
    InOrder(c, s, now);
    InOrder(c, s, part);
    msgs := seq(|part| - 1, _ => []);
    var r := 0;
    while r < |now| - 1
      invariant 0 <= r <= |now| - 1 && AllHeard(c, s, now, part, msgs, r)
    {
      msgs := SendFrom(c, s, now, part, r, trees[r], msgs);
      r := r + 1;
    }
  }

  lemma SumOfNone(num: seq<int>)
    ensures Sum(num[..0]) == 0
  {
  }

  lemma SumStep(num: seq<int>, r: nat)
    requires r < |num|
    ensures Sum(num[..r + 1]) == Sum(num[..r]) + num[r]
  {
    assert num[..r + 1][..r] == num[..r];
  }

  /** The first leaves of the ranks from their requested counts. */
  method RequestedPartition(num: seq<int>, total: int) returns (part: seq<int>)
    requires num != [] && (forall r :: 0 <= r < |num| ==> num[r] >= 0) && Sum(num) == total
    ensures Offsets(part) && |part| == |num| + 1 && part[|num|] == total
    ensures forall r :: 0 <= r < |num| ==> num[r] == CountOf(part, r)
    ensures forall r :: 0 <= r <= |num| ==> part[r] == Sum(num[..r])
  {
    hide Sum, Offsets;
    SumOfNone(num);
    part := [0];
    var i := 1;
    while i < |num|
      invariant 1 <= i <= |num| && |part| == i && part[0] == 0
      invariant forall r :: 0 <= r < i ==> part[r] == Sum(num[..r])
    {
      SumStep(num, i - 1);
      part := part + [part[i - 1] + num[i - 1]];
      i := i + 1;
    }
    part := part + [total];
    assert num[..|num|] == num;
    forall r | 0 <= r < |num|
      ensures num[r] == CountOf(part, r)
    {
      SumStep(num, r);
    }
    OffsetsByCounts(part);
  }

  /** A cut that splits no family stays, and none moves by a whole family. */
  ghost predicate Stays(c: Arity, s: seq<Leaf>, cut: int, moved: int) {
    moved - cut < c && cut - moved < c && ((forall f :: !CutsFamily(c, s, cut, f)) ==> moved == cut)
  }

  lemma AllCuts(c: Arity, s: seq<Leaf>, part: seq<int>, corr: seq<int>, num: seq<int>)
    requires Divides(c, s, part) && AllMove(c, s, part, corr) && |num| == |corr|
    requires forall j :: 0 <= j < |num| ==> num[j] == Final(part, corr, j)
    ensures forall r :: 0 <= r < |num| && part[r] < part[r + 1] ==> MovesTo(c, s, part, r, Sum(num[..r]))
    ensures forall r :: 0 <= r < |num| && part[r] == part[r + 1] ==> num[r] == 0
    ensures forall r :: 0 <= r <= |num| ==> Stays(c, s, part[r], Sum(num[..r]))
    ensures forall f, w :: f >= 0 && FamilyAt(c, s, f) && WinnerOf(c, part, f, w) ==>
              0 <= w < |num| && Sum(num[..w]) <= f && f + c <= Sum(num[..w + 1])
  {
    assert |part| == |num| + 1;
    hide Divides, AllMove, MovesTo, CutsFamily, Final, FamilyAt, Sum;
    forall r | 0 <= r <= |num|
      ensures r < |num| && part[r] < part[r + 1] ==> MovesTo(c, s, part, r, Sum(num[..r]))
      ensures r < |num| && part[r] == part[r + 1] ==> num[r] == 0
      ensures Stays(c, s, part[r], Sum(num[..r]))
    {
      CorrectedCuts(c, s, part, corr, num, r);
    }
    forall f, w | f >= 0 && FamilyAt(c, s, f) && WinnerOf(c, part, f, w)
      ensures 0 <= w < |num| && Sum(num[..w]) <= f && f + c <= Sum(num[..w + 1])
    {
      WinnerGetsFamily(c, s, part, corr, num, f, w);
    }
  }

  /** All ranks correct their counts by the messages. */
  method CorrectCounts(c: Arity, ghost s: seq<Leaf>, now: seq<int>, part: seq<int>, msgs: seq<seq<Msg>>, stray: int,
                       num: array<int>)
    returns (moved: int)
    requires c > 2 && Divides(c, s, now) && Divides(c, s, part) && num.Length == |part| - 1 == |msgs|
    requires forall r :: 1 <= r < |msgs| && part[r] < part[r + 1] ==> Heard(c, s, now, part[r], msgs[r], |now| - 1)
    requires forall r :: 1 <= r < |msgs| && part[r] < part[r + 1] ==> stray >= 0 || !StartsBefore(c, |s|, part[r])
    requires forall r :: 0 <= r < num.Length ==> num[..][r] == CountOf(part, r)
    modifies num
    ensures forall r :: 0 <= r < num.Length ==> num[r] >= 0
    ensures Sum(num[..]) == |s|
    ensures forall r, f :: 0 <= r <= num.Length ==> !CutsFamily(c, s, Sum(num[..][..r]), f)
    ensures moved == Travel(part, num[..], num.Length)
    ensures forall r :: 0 <= r < num.Length && part[r] < part[r + 1] ==> MovesTo(c, s, part, r, Sum(num[..][..r]))
    ensures forall r :: 0 <= r < num.Length && part[r] == part[r + 1] ==> num[r] == 0
    ensures forall r :: 0 <= r <= num.Length ==> Stays(c, s, part[r], Sum(num[..][..r]))
    ensures forall f, w :: f >= 0 && FamilyAt(c, s, f) && WinnerOf(c, part, f, w) ==>
              0 <= w < num.Length && Sum(num[..][..w]) <= f && f + c <= Sum(num[..][..w + 1])
  {
    hide Divides, Heard, MovesTo, CutsFamily, CountOf, StartsBefore, Stays, FamilyAt, WinnerOf;
    var corr := [];
    var r := 0;
    while r < |msgs|
      invariant 0 <= r <= |msgs| && |corr| == r && num[..] == old(num[..])
      invariant forall q :: 0 <= q < r && part[q] < part[q + 1] ==> MovesTo(c, s, part, q, part[q] - corr[q])
    {
      var x := 0;
      if part[r] < part[r + 1] {
        x := CorrectRank(c, s, now, part, r, msgs[r], stray);
      }
      corr := corr + [x];
      r := r + 1;
    }
    moved := ApplyCorrections(c, s, part, corr, num);
    forall q | 0 <= q < num.Length
      ensures num[q] >= 0
    {
      CorrectedPartition(c, s, part, corr, num[..], q, 0);
    }
    forall q, f | 0 <= q <= num.Length
      ensures !CutsFamily(c, s, Sum(num[..][..q]), f)
    {
      CorrectedPartition(c, s, part, corr, num[..], q, f);
    }
    CorrectedPartition(c, s, part, corr, num[..], 0, 0);
    AllCuts(c, s, part, corr, num[..]);
    FirstStays(c, s, part, corr);
    TravelIsCorrectionSum(part, corr, num[..], num.Length);
  }

  /** p4est_partition_for_coarsening on all ranks: the requested counts become counts that
      split no family. */
  method PartitionForCoarsening(c: Arity, s: seq<Leaf>, now: seq<int>, trees: seq<LocalTrees>, stray: int,
                                num: array<int>)
    returns (part: seq<int>, moved: int)
    requires c > 2 && Divides(c, s, now) && TreesKnown(s, now, trees) && num.Length == |now| - 1
    requires (forall r :: 0 <= r < num.Length ==> num[r] >= 0) && Sum(num[..]) == |s|
    requires stray >= 0 || forall r :: 1 <= r < num.Length && num[r] > 0 ==> !StartsBefore(c, |s|, Sum(num[..][..r]))
    modifies num
    ensures forall r :: 0 <= r < num.Length ==> num[r] >= 0
    ensures Sum(num[..]) == |s|
    ensures forall r, f :: 0 <= r <= num.Length ==> !CutsFamily(c, s, Sum(num[..][..r]), f)
    ensures |part| == num.Length + 1 && forall r :: 0 <= r <= num.Length ==> part[r] == Sum(old(num[..])[..r])
    ensures moved == Travel(part, num[..], num.Length)
    ensures Divides(c, s, part)
    ensures forall r :: 0 <= r < num.Length && part[r] < part[r + 1] ==> MovesTo(c, s, part, r, Sum(num[..][..r]))
    ensures forall r :: 0 <= r < num.Length && part[r] == part[r + 1] ==> num[r] == 0
    ensures forall r :: 0 <= r <= num.Length ==> Stays(c, s, part[r], Sum(num[..][..r]))
    ensures forall f, w :: f >= 0 && FamilyAt(c, s, f) && WinnerOf(c, part, f, w) ==>
              0 <= w < num.Length && Sum(num[..][..w]) <= f && f + c <= Sum(num[..][..w + 1])
  {
    hide CutsFamily, TreesKnown, StartsBefore, Travel, IsMessage, MovesTo, Stays, FamilyAt, WinnerOf;
    assert num[..] != [];
    part := RequestedPartition(num[..], |s|);
    var msgs := SendAll(c, s, now, part, trees);
    moved := CorrectCounts(c, s, now, part, msgs, stray, num);
  }
}
