/**
  Which steps are possible: the actors wait for nothing but their own input, so the runs of the session are all
  interleavings, and on a lossy network all losses and all orders of arrival.
 */
module ProtocolEnabled {
  import opened Words
  import opened WireHeader
  import opened Sender
  import opened Receiver
  import opened Protocol
  import opened ProtocolInv
  import opened ProtocolSafety
  import opened ProtocolFifo

  // ----- exactly when each step is possible -----

  /** The master's receive loop takes a packet whenever it wants one and one has arrived, whatever its sender does. */
  lemma MasterReceivesIff(w: World, net: Net, n: nat, evs: seq<Event>, s: State, j: nat)
    requires Reaches(w, net, n, evs, s)
    ensures Step(w, net, s, MasterRecv(j)).Some? <==>
      s.collector.total < n && j < |s.resp.wire| && (net == Lossy || j == 0)
  {
    RunInv(w, net, n, evs);
  }

  /** The slave takes a packet whenever it wants one, has finished its last reply, and one has arrived. */
  lemma SlaveReceivesIff(w: World, net: Net, n: nat, evs: seq<Event>, s: State, j: nat)
    requires Reaches(w, net, n, evs, s)
    ensures Step(w, net, s, SlaveRecv(j)).Some? <==>
      s.slave.total < n && s.reply.pc.Done? && j < |s.req.wire| && (net == Lossy || j == 0)
  {
    RunInv(w, net, n, evs);
  }

  /** Any packet in flight, of any type, can be lost at any time on a lossy network, and none on the other. */
  lemma LossIff(w: World, net: Net, n: nat, evs: seq<Event>, s: State, j: nat)
    requires Reaches(w, net, n, evs, s)
    ensures Step(w, net, s, LoseReq(j)).Some? <==> net == Lossy && j < |s.req.wire|
    ensures Step(w, net, s, LoseResp(j)).Some? <==> net == Lossy && j < |s.resp.wire|
  {
  }

  /** Both sender routines go on whenever they are not waiting for a stamp that is still to come. */
  lemma SendersGoOnIff(w: World, net: Net, n: nat, evs: seq<Event>, s: State)
    requires Reaches(w, net, n, evs, s)
    ensures Step(w, net, s, MasterStep(Program)).Some? <==>
      s.master.pc.Head? || s.master.pc.SendFollow? || s.master.sock.errq != []
    ensures Step(w, net, s, SlaveStep(Program)).Some? <==>
      s.reply.pc.Head? || s.reply.pc.SendFollow? || s.reply.sock.errq != []
  {
    RunInv(w, net, n, evs);
  }

  /** Both kernels can queue the next stamp they owe at any time. */
  lemma KernelsGoOnIff(w: World, net: Net, n: nat, evs: seq<Event>, s: State, j: nat)
    requires Reaches(w, net, n, evs, s)
    ensures Step(w, net, s, MasterStep(Kernel(j))).Some? <==> j == 0 && s.master.sock.pending != []
    ensures Step(w, net, s, SlaveStep(Kernel(j))).Some? <==> j == 0 && s.reply.sock.pending != []
  {
    RunInv(w, net, n, evs);
    KernelIff(w, s.master, j);
    KernelIff(w, s.reply, j);
  }

  lemma KernelIff(w: World, c: Call, j: nat)
    requires Aligned(w, c)
    ensures KernelReady(c.sock, j) <==> j == 0 && c.sock.pending != []
  {
    if KernelReady(c.sock, j) {
      KernelOwes(w, c.sock, OwedBy(c), j);
    }
  }

  // ----- receiving beside a sender that has not finished -----

  /** The sender thread has sent at most `m` pairs, and no more than `m` measurements are counted. */
  ghost predicate HeldBack(s: State, m: nat)
  {
    EmittedCount(s.master) <= 2 * m && s.collector.total <= m
  }

  /** The next event of an unfinished call that is not about to begin pair `m`. */
  lemma CallEventBefore(w: World, c: Call, m: nat) returns (e: CallEvent)
    requires Aligned(w, c) && !c.pc.Done? && EmittedCount(c) <= 2 * m && (c.pc.Head? ==> c.i < m)
    ensures CallReady(c, e) && EmittedCount(CallStep(w, c, e).0) <= 2 * m
  {
    CallNotStuck(w, c);
    e := if CallReady(c, Program) then Program else Kernel(0);
    StepAdvances(w, c, e);
  }

  /** With the sender held back and both senders at rest, an uncounted measurement is on one of the channels. */
  lemma SomethingArrives(w: World, n: nat, m: nat, evs: seq<Event>, s: State)
    requires Reaches(w, Fifo, n, evs, s) && s.reply.pc.Done?
    requires s.collector.total < m <= n && EmittedCount(s.master) == 2 * m
    ensures s.req.wire == [] || s.slave.total >= n ==> s.resp.wire != []
  {
    FifoLogs(w, n, evs, s);
    FifoInOrder(w, n, evs);
    Causality(w, Fifo, n, evs, s);
    RunInv(w, Fifo, n, evs);
    assert |s.req.sent| == 2 * m;
    assert |s.resp.sent| == 2 * s.slave.total;
  }

  lemma HeldBackEvent(w: World, n: nat, m: nat, evs: seq<Event>, s: State) returns (ev: Event)
    requires Reaches(w, Fifo, n, evs, s) && HeldBack(s, m) && 1 <= m <= n && s.collector.total < m
    ensures Ready(Fifo, s, ev)
    ensures ev.MasterStep? ==> EmittedCount(CallStep(w, s.master, ev.e).0) <= 2 * m
  {
    RunInv(w, Fifo, n, evs);
    if !s.master.pc.Done? && (s.master.pc.Head? ==> s.master.i < m) {
      var e := CallEventBefore(w, s.master, m);
      ev := MasterStep(e);
    } else if !s.reply.pc.Done? {
      Bounds(w, s.reply);
      var e := CallEventBefore(w, s.reply, s.reply.count + 1);
      ev := SlaveStep(e);
    } else {
      Bounds(w, s.master);
      SomethingArrives(w, n, m, evs, s);
      ev := if s.req.wire != [] && s.slave.total < n then SlaveRecv(0) else MasterRecv(0);
    }
  }

  /** While the sender has sent no more pairs than there are slots, the master's table is not overrun. */
  lemma HeldBackIsSafe(w: World, n: nat, m: nat, evs: seq<Event>, s: State)
    requires Reaches(w, Fifo, n, evs, s) && HeldBack(s, m) && m <= MASTER_SLOTS
    requires s.resp.wire != []
    ensures s.resp.wire[0].pktseq < MASTER_SLOTS
  {
    RunInv(w, Fifo, n, evs);
    FifoLogs(w, n, evs, s);
    FollowUpsConserved(Req, s.req);
    FollowSeqsOfTrace(w, Req, Range(0, n), EmittedCount(s.master));
    assert s.slave.total <= m;
    InLink(s.resp, s.resp.wire[0]);
    Responses(w, s);
    RangeIsDistinct(s.slave.total);
  }

  lemma HeldBackStep(w: World, n: nat, m: nat, evs: seq<Event>, s: State) returns (ev: Event, next: State)
    requires Reaches(w, Fifo, n, evs, s) && HeldBack(s, m) && 1 <= m <= n && m <= MASTER_SLOTS && s.collector.total < m
    ensures Reaches(w, Fifo, n, evs + [ev], next) && HeldBack(next, m)
  {
    ev := HeldBackEvent(w, n, m, evs, s);
    next := Next(w, s, Fifo, ev);
    RunStep(w, Fifo, Init(n), evs, ev);
    RunInv(w, Fifo, n, evs);
    match ev {
      case MasterStep(e) => MasterStepKeeps(w, Fifo, s, e);
      case SlaveStep(e) => SlaveStepKeeps(w, Fifo, s, e);
      case SlaveRecv(j) => SlaveRecvKeeps(w, Fifo, s, j);
      case MasterRecv(j) =>
        HeldBackIsSafe(w, n, m, evs, s);
        MasterRecvKeeps(w, Fifo, s, j);
        AppendFollow(Resp, s.resp.log, s.resp.wire[j]);
    }
  }

  lemma {:induction false} HeldBackRun(w: World, n: nat, m: nat, evs: seq<Event>, s: State)
    returns (more: seq<Event>, s': State)
    requires Reaches(w, Fifo, n, evs, s) && HeldBack(s, m) && 1 <= m <= n && m <= MASTER_SLOTS
    ensures Reaches(w, Fifo, n, evs + more, s') && HeldBack(s', m) && s'.collector.total == m
    decreases SessionEvents(n) - |evs|
  {
    if s.collector.total == m {
      more, s' := [], s;
      assert evs + [] == evs;
    } else {
      var ev, next := HeldBackStep(w, n, m, evs, s);
      assert |evs + [ev]| <= SessionEvents(n) by { RunProgress(w, Fifo, n, evs + [ev], next); }
      var rest;
      rest, s' := HeldBackRun(w, n, m, evs + [ev], next);
      more := [ev] + rest;
      assert evs + more == (evs + [ev]) + rest;
    }
  }

  /**
    For every m there is a run in which the master has counted m measurements while its sender thread has sent no
    more than m pairs: the two threads work beside each other.
   */
  lemma MasterCountsWhileSending(w: World, n: nat, m: nat) returns (evs: seq<Event>, s: State)
    requires 1 <= m <= n <= 0x8000_0000 && m <= MASTER_SLOTS
    ensures Run(w, Fifo, n, evs) == Some(s) && !s.crashed
    ensures s.collector.total == m && s.req.sent == Pairs(w, Req, Range(0, n))[..2 * m]
  {
    evs, s := HeldBackRun(w, n, m, [], Init(n));
    assert [] + evs == evs;
    RunInv(w, Fifo, n, evs);
    FifoLogs(w, n, evs, s);
    FifoInOrder(w, n, evs);
  }

  /** In particular, with two or more measurements, one is counted before the last request is sent. */
  lemma CountsBeforeLastRequest(w: World, n: nat) returns (evs: seq<Event>, s: State)
    requires 2 <= n <= 0x8000_0000
    ensures Run(w, Fifo, n, evs) == Some(s) && !s.crashed
    ensures s.collector.total >= 1 && First(w, Req, n - 1) !in s.req.sent
  {
    evs, s := MasterCountsWhileSending(w, n, 1);
    forall h | h in s.req.sent
      ensures h != First(w, Req, n - 1)
    {
      var i :| 0 <= i < 2 && s.req.sent[i] == h;
      assert h.pktseq == Range(0, n)[0] == 0;
    }
  }
}
