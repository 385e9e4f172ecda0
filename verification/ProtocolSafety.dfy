/** What holds in every state of every run, whatever the network does to the packets. */
module ProtocolSafety {
  import opened Words
  import opened WireHeader
  import opened Stamps
  import opened Sender
  import opened Receiver
  import opened Protocol
  import opened ProtocolInv

  // ----- soundness of the tables -----

  /** A run that has not crashed, and where it ends. */
  ghost predicate Reaches(w: World, net: Net, n: nat, evs: seq<Event>, s: State)
  {
    1 <= n <= 0x8000_0000 && Run(w, net, n, evs) == Some(s) && !s.crashed
  }

  /** Both packets of measurement `k` have been consumed in this direction. */
  ghost predicate Complete(w: World, kind: Kind, l: Link, k: u32)
  {
    First(w, kind, k) in l.log && FollowUp(w, kind, k) in l.log
  }

  /**
    On any network, a slot holds the NIC receive stamp and the NIC transmit stamp of the first packet with the slot's
    number, each exactly when the packet that brings it has been consumed, and zero otherwise. Every consumed number
    has a slot.
   */
  lemma SlotsAreSound(w: World, net: Net, n: nat, evs: seq<Event>, s: State)
    requires Reaches(w, net, n, evs, s)
    ensures |s.slave.slots| == n && |s.collector.slots| == MASTER_SLOTS
    ensures forall k: u32 :: k < n ==> s.slave.slots[k] == SlotOf(w, Req, s.req.log, k)
    ensures forall k: u32 :: k < MASTER_SLOTS ==> s.collector.slots[k] == SlotOf(w, Resp, s.resp.log, k)
    ensures InRange(s.req.log, n) && InRange(s.resp.log, MASTER_SLOTS) && InRange(s.resp.log, n)
  {
    RunInv(w, net, n, evs);
    AnsweredOnce(w, s);
    Responses(w, s);
    forall h | h in s.resp.log
      ensures h.pktseq < n
    {
      InLink(s.resp, h);
    }
  }

  /** So the row of a complete slot is the one-way delay of one particular packet, never a mix of two. */
  lemma CompleteRow(w: World, net: Net, n: nat, evs: seq<Event>, s: State, k: u32)
    requires Reaches(w, net, n, evs, s)
    ensures |s.slave.slots| == n && |s.collector.slots| == MASTER_SLOTS
    ensures k < n && Complete(w, Req, s.req, k) ==>
      Row(s.slave, k) == Sub64(ReceivedNanos(w, Req, k), SentNanos(w, Req, k))
    ensures k < MASTER_SLOTS && Complete(w, Resp, s.resp, k) ==>
      Row(s.collector, k) == Sub64(ReceivedNanos(w, Resp, k), SentNanos(w, Resp, k))
  {
    SlotsAreSound(w, net, n, evs, s);
  }

  /** No packet is sent, consumed, in flight or lost twice; each cell of the tables is therefore written at most once. */
  lemma NoPacketTwice(w: World, net: Net, n: nat, evs: seq<Event>, s: State)
    requires Reaches(w, net, n, evs, s)
    ensures Distinct(s.req.log + s.req.wire + s.req.lost)
    ensures Distinct(s.resp.log + s.resp.wire + s.resp.lost)
  {
    RunInv(w, net, n, evs);
    Requests(w, s);
    AnsweredOnce(w, s);
    Responses(w, s);
    DistinctLink(s.req);
    DistinctLink(s.resp);
  }

  lemma RunStep(w: World, net: Net, s: State, evs: seq<Event>, ev: Event)
    ensures RunFrom(w, net, s, evs + [ev]) ==
      match RunFrom(w, net, s, evs) case None => None case Some(mid) => Step(w, net, mid, ev)
  {
    assert (evs + [ev])[..|evs|] == evs;
  }

  lemma {:induction false} RunSplits(w: World, net: Net, s: State, evs: seq<Event>, more: seq<Event>)
    ensures RunFrom(w, net, s, evs + more) ==
      match RunFrom(w, net, s, evs) case None => None case Some(mid) => RunFrom(w, net, mid, more)
  {
    if more == [] {
      assert evs + more == evs;
    } else {
      var front, last := more[..|more| - 1], more[|more| - 1];
      RunSplits(w, net, s, evs, front);
      assert evs + more == (evs + front) + [last];
      RunStep(w, net, s, evs + front, last);
    }
  }

  lemma {:induction false} LogsOnlyGrow(w: World, net: Net, s: State, more: seq<Event>)
    requires RunFrom(w, net, s, more).Some?
    ensures var s' := RunFrom(w, net, s, more).value; s.req.log <= s'.req.log && s.resp.log <= s'.resp.log
  {
    if more != [] {
      LogsOnlyGrow(w, net, s, more[..|more| - 1]);
    }
  }

  /** Between two states of a table, the count has not gone down and no cell written by `log` has changed. */
  ghost predicate CellsKept(w: World, kind: Kind, log: seq<Header>, t: Table, t': Table)
  {
    && t.total <= t'.total && |t.slots| == |t'.slots|
    && forall k: u32 :: k < |t.slots| ==>
         && (First(w, kind, k) in log ==> t'.slots[k].recv == t.slots[k].recv)
         && (FollowUp(w, kind, k) in log ==> t'.slots[k].sent == t.slots[k].sent)
  }

  lemma LongerLogKeepsCells(w: World, kind: Kind, n: nat, size: nat, t: Table, t': Table, log: seq<Header>, log': seq<Header>)
    requires TableInv(w, kind, n, size, t, log) && TableInv(w, kind, n, size, t', log') && log <= log'
    ensures CellsKept(w, kind, log, t, t')
  {
    assert log' == log + log'[|log|..];
    FollowSeqsConcat(kind, log, log'[|log|..]);
    forall k: u32 | k < size
      ensures First(w, kind, k) in log ==> t'.slots[k].recv == t.slots[k].recv
      ensures FollowUp(w, kind, k) in log ==> t'.slots[k].sent == t.slots[k].sent
    {
      assert t.slots[k] == SlotOf(w, kind, log, k) && t'.slots[k] == SlotOf(w, kind, log', k);
    }
  }

  /** Once written, a stamp stays: whatever happens later, the written cells of the tables keep their values. */
  lemma WrittenStays(w: World, net: Net, n: nat, evs: seq<Event>, more: seq<Event>, s: State, s': State)
    requires Reaches(w, net, n, evs, s) && Reaches(w, net, n, evs + more, s')
    ensures CellsKept(w, Req, s.req.log, s.slave, s'.slave)
    ensures CellsKept(w, Resp, s.resp.log, s.collector, s'.collector)
  {
    RunSplits(w, net, Init(n), evs, more);
    LogsOnlyGrow(w, net, s, more);
    RunInv(w, net, n, evs);
    RunInv(w, net, n, evs + more);
    LongerLogKeepsCells(w, Req, n, n, s.slave, s'.slave, s.req.log, s'.req.log);
    LongerLogKeepsCells(w, Resp, n, MASTER_SLOTS, s.collector, s'.collector, s.resp.log, s'.resp.log);
  }

  // ----- conservation -----

  /** The numbers whose follow-up has been consumed. */
  ghost function FollowedSet(kind: Kind, l: Link): (r: set<u32>)
  {
    set q | q in FollowSeqs(kind, l.log)
  }

  /**
    Each total is the number of distinct measurements whose follow-up was consumed; in each direction the follow-ups
    sent are those consumed, in flight and lost; and the counts are ordered along the path of a measurement.
   */
  lemma Conservation(w: World, net: Net, n: nat, evs: seq<Event>, s: State)
    requires Reaches(w, net, n, evs, s)
    ensures s.slave.total == |FollowedSet(Req, s.req)|
    ensures s.collector.total == |FollowedSet(Resp, s.resp)|
    ensures forall kind, l | (kind, l) == (Req, s.req) || (kind, l) == (Resp, s.resp) ::
      |FollowSeqs(kind, l.sent)| == |FollowSeqs(kind, l.log)| + |FollowSeqs(kind, l.wire)| + |FollowSeqs(kind, l.lost)|
    ensures s.collector.total <= |FollowSeqs(Resp, s.resp.sent)| <= s.slave.total <= |FollowSeqs(Req, s.req.sent)| <= n
  {
    RunInv(w, net, n, evs);
    NoPacketTwice(w, net, n, evs, s);
    Requests(w, s);
    AnsweredOnce(w, s);
    Responses(w, s);
    DistinctLink(s.resp);
    DistinctCardinality(Answered(s));
    forall h | h in s.resp.log ensures Genuine(w, Resp, h) { InLink(s.resp, h); }
    FollowSeqsDistinct(w, Resp, s.resp.log);
    DistinctCardinality(FollowSeqs(Resp, s.resp.log));
    FollowUpsConserved(Req, s.req);
    FollowUpsConserved(Resp, s.resp);
    FollowSeqsOfTrace(w, Req, Range(0, n), EmittedCount(s.master));
    FollowSeqsOfTrace(w, Resp, Answered(s), RespCount(s.reply, Answered(s)));
  }

  // ----- causality -----

  /**
    A response packet exists only if the slave has consumed the request follow-up of the same number; and the slave
    answers each follow-up it has consumed with exactly one pair, in the order of consumption: what it has sent is a
    prefix of those pairs, and all of them whenever it is ready to receive.
   */
  lemma Causality(w: World, net: Net, n: nat, evs: seq<Event>, s: State)
    requires Reaches(w, net, n, evs, s)
    ensures forall h :: h in s.resp.wire || h in s.resp.log || h in s.resp.lost ==> FollowUp(w, Req, h.pktseq) in s.req.log
    ensures Distinct(Answered(s)) && s.resp.sent <= Pairs(w, Resp, Answered(s))
    ensures |Pairs(w, Resp, Answered(s))| - |s.resp.sent| <= 2
    ensures s.reply.pc.Done? ==> s.resp.sent == Pairs(w, Resp, Answered(s))
  {
    RunInv(w, net, n, evs);
    AnsweredOnce(w, s);
    Requests(w, s);
    Responses(w, s);
    forall h | h in s.resp.wire || h in s.resp.log || h in s.resp.lost
      ensures FollowUp(w, Req, h.pktseq) in s.req.log
    {
      InLink(s.resp, h);
      forall r | r in s.req.log ensures Genuine(w, Req, r) { InLink(s.req, r); }
      InFollowSeqs(w, Req, s.req.log, h.pktseq);
    }
    if s.reply.pc.Done? {
      ReplyAfterKeeps(w, s.reply, Answered(s), s.resp.sent, 0);
    }
  }

  // ----- when is a finished table sound? -----

  /** With a full trace sent and as many follow-ups consumed as measurements, only a lost or late packet spoils a slot. */
  lemma AllCompleteIff(w: World, kind: Kind, l: Link, qs: seq<u32>)
    requires Conserved(l) && Distinct(qs) && l.sent == Pairs(w, kind, qs)
    ensures (forall q :: q in qs ==> Complete(w, kind, l, q)) <==> l.wire == [] && l.lost == []
  {
    TraceIsDistinct(w, kind, qs);
    DistinctLink(l);
    var all := l.log + l.wire + l.lost;
    if l.wire == [] && l.lost == [] {
      forall q | q in qs
        ensures Complete(w, kind, l, q)
      {
        var i :| 0 <= i < |qs| && qs[i] == q;
        assert l.sent[2 * i] == First(w, kind, q) && l.sent[2 * i + 1] == FollowUp(w, kind, q);
        InLink(l, First(w, kind, q));
        InLink(l, FollowUp(w, kind, q));
      }
    } else {
      var h := all[|l.log|];
      assert h in l.wire || h in l.lost;
      InLink(l, h);
      TraceIsGenuine(w, kind, qs, h);
      assert h !in l.log by {
        assert forall i :: 0 <= i < |l.log| ==> l.log[i] == all[i] != h;
      }
      assert !Complete(w, kind, l, h.pktseq);
    }
  }

  /**
    A slave that has reached its count has every slot complete exactly when no request packet was lost and none is
    still on its way; likewise for the master and the responses.
   */
  lemma FinishedTableIff(w: World, net: Net, n: nat, evs: seq<Event>, s: State)
    requires Reaches(w, net, n, evs, s)
    ensures s.slave.total == n ==>
      ((forall k: u32 :: k < n ==> Complete(w, Req, s.req, k)) <==> s.req.wire == [] && s.req.lost == [])
    ensures s.collector.total == n ==>
      ((forall k: u32 :: k < n ==> Complete(w, Resp, s.resp, k)) <==> s.resp.wire == [] && s.resp.lost == [])
  {
    RunInv(w, net, n, evs);
    FullTraces(w, net, n, evs, s);
    if s.slave.total == n {
      RangeIsDistinct(n);
      AllCompleteIff(w, Req, s.req, Range(0, n));
    }
    if s.collector.total == n {
      AnsweredOnce(w, s);
      AllCompleteIff(w, Resp, s.resp, Answered(s));
      AllNumbersAnswered(Answered(s), n);
    }
  }

  /** Reaching the count takes the whole trace, since totals never exceed the follow-ups sent. */
  lemma FullTraces(w: World, net: Net, n: nat, evs: seq<Event>, s: State)
    requires Reaches(w, net, n, evs, s)
    ensures s.slave.total == n ==> s.req.sent == Pairs(w, Req, Range(0, n))
    ensures s.collector.total == n ==> s.slave.total == n && |Answered(s)| == n && s.resp.sent == Pairs(w, Resp, Answered(s))
  {
    RunInv(w, net, n, evs);
    Conservation(w, net, n, evs, s);
    FollowSeqsOfTrace(w, Req, Range(0, n), EmittedCount(s.master));
    FollowSeqsOfTrace(w, Resp, Answered(s), RespCount(s.reply, Answered(s)));
    if s.slave.total == n {
      assert EmittedCount(s.master) == 2 * n;
    }
    if s.collector.total == n {
      assert RespCount(s.reply, Answered(s)) == 2 * n;
    }
  }

  /** n distinct numbers below n are all of them. */
  lemma AllNumbersAnswered(qs: seq<u32>, n: nat)
    requires Distinct(qs) && |qs| == n <= 0x8000_0000 && forall q :: q in qs ==> q < n
    ensures forall q: u32 :: q in qs <==> q < n
  {
    var members: set<u32> := set q | q in qs;
    var below: set<u32> := set q | q in Range(0, n);
    DistinctCardinality(qs);
    RangeIsDistinct(n);
    DistinctCardinality(Range(0, n));
    assert members <= below;
    SubsetOfSameSize(members, below);
    forall q: u32 | q < n
      ensures q in qs
    {
      assert q in Range(0, n);
      assert q in members;
    }
  }

  lemma SubsetOfSameSize<T>(a: set<T>, b: set<T>)
    requires a <= b && |a| == |b|
    ensures a == b
  {
    assert |b - a| == |b| - |a|;
  }

  // ----- a lost request -----

  lemma RunFront(w: World, net: Net, s: State, ev: Event, rest: seq<Event>)
    ensures RunFrom(w, net, s, [ev] + rest) ==
      match Step(w, net, s, ev) case None => None case Some(mid) => RunFrom(w, net, mid, rest)
  {
    RunSplits(w, net, s, [ev], rest);
    assert [ev][..0] == [];
    assert RunFrom(w, net, s, [ev]) == Step(w, net, s, ev);
  }

  lemma NextOf(w: World, net: Net, s: State, ev: Event, rest: seq<Event>) returns (s': State)
    requires Ready(net, s, ev)
    ensures s' == Next(w, s, net, ev)
    ensures RunFrom(w, net, s, [ev] + rest) == RunFrom(w, net, s', rest)
  {
    RunFront(w, net, s, ev, rest);
    s' := Next(w, s, net, ev);
  }

  /** The request is sent, lost on the way, and its two transmit stamps are queued. */
  lemma LoseRequest(w: World, rest: seq<Event>) returns (s: State)
    ensures var events := [MasterStep(Program), LoseReq(0), MasterStep(Kernel(0)), MasterStep(Kernel(0))];
      Run(w, Lossy, 1, events + rest) == RunFrom(w, Lossy, s, rest)
    ensures var h := First(w, Req, 0);
      var messages := [StampMessage(w, StampsOf(h)[0]), StampMessage(w, StampsOf(h)[1])];
      s == Init(1).(master := Call(Req, 0, 1, 0, AwaitSw, h, Sock([], messages)), req := Link([h], [], [], [h]))
  {
    var act, kernel := MasterStep(Program), MasterStep(Kernel(0));
    var t3 := [kernel] + rest;
    var t2 := [kernel] + t3;
    var t1 := [LoseReq(0)] + t2;
    assert [act, LoseReq(0), kernel, kernel] + rest == [act] + t1;
    s := NextOf(w, Lossy, Init(1), act, t1);
    s := NextOf(w, Lossy, s, LoseReq(0), t2);
    s := NextOf(w, Lossy, s, kernel, t3);
    s := NextOf(w, Lossy, s, kernel, rest);
  }

  /**
    The claim that every slot below the total is complete is false on a network that loses packets: in a session of
    one measurement whose request is lost, the slave still counts one, with no receive stamp in its slot.
   */
  lemma LostRequestLeavesGap(w: World) returns (evs: seq<Event>, s: State)
    ensures Reaches(w, Lossy, 1, evs, s)
    ensures s.slave.total == 1 && |s.slave.slots| == 1 && !s.slave.running
    ensures !Complete(w, Req, s.req, 0) && s.slave.slots[0] == Slot(SentNanos(w, Req, 0), 0)
  {
    var act, kernel := MasterStep(Program), MasterStep(Kernel(0));
    var t3 := [SlaveRecv(0)] + [];
    var t2 := [act] + t3;
    var t1 := [act] + t2;
    var rest := [act] + t1;
    evs := [act, LoseReq(0), kernel, kernel] + rest;
    s := LoseRequest(w, rest);
    s := NextOf(w, Lossy, s, act, t1);
    s := NextOf(w, Lossy, s, act, t2);
    s := NextOf(w, Lossy, s, act, t3);
    assert s.req.wire == [FollowUp(w, Req, 0)];
    s := NextOf(w, Lossy, s, SlaveRecv(0), []);
    assert s.req.log == [FollowUp(w, Req, 0)];
  }

  // ----- the error queues -----

  /**
    At each loop head, and after each call, no transmit stamp is pending or queued on either side; and every
    follow-up ever sent carries the NIC stamp of the first packet with its own number.
   */
  lemma ErrorQueuesAligned(w: World, net: Net, n: nat, evs: seq<Event>, s: State)
    requires Reaches(w, net, n, evs, s)
    ensures s.master.pc.Head? || s.master.pc.Done? ==> s.master.sock == QUIET
    ensures s.reply.pc.Head? || s.reply.pc.Done? ==> s.reply.sock == QUIET
    ensures forall h :: h in s.req.sent && h.typ == DELAY_REQ_FOLLOW_UP ==> h.t2 == SentNanos(w, Req, h.pktseq)
    ensures forall h :: h in s.resp.sent && h.typ == DELAY_RESP_FOLLOW_UP ==> h.t4 == SentNanos(w, Resp, h.pktseq)
  {
    RunInv(w, net, n, evs);
    Requests(w, s);
    Responses(w, s);
  }
}
