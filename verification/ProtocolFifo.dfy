/** What holds when packets arrive in order and none is lost: correct rows, progress and termination. */
module ProtocolFifo {
  import opened Words
  import opened WireHeader
  import opened Stamps
  import opened Sender
  import opened Receiver
  import opened Protocol
  import opened ProtocolInv
  import opened ProtocolSafety

  // ----- order -----

  ghost predicate InOrder(l: Link)
  {
    l.lost == [] && l.sent == l.log + l.wire
  }

  lemma InOrderKept(l: Link, out: seq<Header>)
    requires InOrder(l)
    ensures InOrder(Post(l, out))
    ensures l.wire != [] ==> InOrder(Deliver(l, 0))
  {
    assert l.wire != [] ==> l.wire == [l.wire[0]] + WithoutIndex(l.wire, 0);
  }

  lemma {:induction false} FifoInOrder(w: World, n: nat, evs: seq<Event>)
    requires Run(w, Fifo, n, evs).Some?
    ensures var s := Run(w, Fifo, n, evs).value; InOrder(s.req) && InOrder(s.resp)
  {
    if evs != [] {
      var last := |evs| - 1;
      FifoInOrder(w, n, evs[..last]);
      var s := Run(w, Fifo, n, evs[..last]).value;
      match evs[last] {
        case MasterStep(e) => InOrderKept(s.req, CallStep(w, s.master, e).1);
        case SlaveStep(e) => InOrderKept(s.resp, CallStep(w, s.reply, e).1);
        case SlaveRecv(j) => InOrderKept(s.req, []);
        case MasterRecv(j) => InOrderKept(s.resp, []);
      }
    }
  }

  /** On an in-order link the log is a prefix of the trace, so its follow-ups are complete measurements in order. */
  lemma LogIsTracePrefix(w: World, kind: Kind, l: Link, qs: seq<u32>)
    requires InOrder(l) && l.sent <= Pairs(w, kind, qs)
    ensures l.log <= Pairs(w, kind, qs)
    ensures FollowSeqs(kind, l.log) == qs[..|l.log| / 2]
    ensures forall k :: 0 <= k < |l.log| / 2 ==> Complete(w, kind, l, qs[k])
  {
    assert l.log == Pairs(w, kind, qs)[..|l.log|];
    FollowSeqsOfTrace(w, kind, qs, |l.log|);
    forall k | 0 <= k < |l.log| / 2
      ensures Complete(w, kind, l, qs[k])
    {
      PairInTrace(w, kind, qs, k);
      assert l.log[2 * k] == Pairs(w, kind, qs)[2 * k] && l.log[2 * k + 1] == Pairs(w, kind, qs)[2 * k + 1];
    }
  }

  lemma PairInTrace(w: World, kind: Kind, qs: seq<u32>, k: nat)
    requires k < |qs|
    ensures Pairs(w, kind, qs)[2 * k] == First(w, kind, qs[k]) && Pairs(w, kind, qs)[2 * k + 1] == FollowUp(w, kind, qs[k])
  {
  }

  lemma RangePrefix(n: nat, m: nat)
    requires m <= n <= 0x8000_0000
    ensures Range(0, n)[..m] == Range(0, m)
  {
  }

  /** The consumed packets, in order, from both channels. */
  lemma FifoLogs(w: World, n: nat, evs: seq<Event>, s: State)
    requires Reaches(w, Fifo, n, evs, s)
    ensures s.slave.total == |s.req.log| / 2 <= n && s.collector.total == |s.resp.log| / 2 <= s.slave.total
    ensures Answered(s) == Range(0, s.slave.total)
    ensures s.req.log <= Pairs(w, Req, Range(0, n)) && s.resp.log <= Pairs(w, Resp, Range(0, s.slave.total))
    ensures forall k: u32 :: k < s.slave.total ==> Complete(w, Req, s.req, k)
    ensures forall k: u32 :: k < s.collector.total ==> Complete(w, Resp, s.resp, k)
  {
    RunInv(w, Fifo, n, evs);
    FifoInOrder(w, n, evs);
    Causality(w, Fifo, n, evs, s);
    LogIsTracePrefix(w, Req, s.req, Range(0, n));
    RangePrefix(n, s.slave.total);
    LogIsTracePrefix(w, Resp, s.resp, Answered(s));
    forall k: u32 | k < s.slave.total ensures Complete(w, Req, s.req, k) { assert Range(0, n)[k] == k; }
    forall k: u32 | k < s.collector.total ensures Complete(w, Resp, s.resp, k) { assert Answered(s)[k] == k; }
  }

  lemma TotalFitsTable(w: World, s: State)
    requires s.collector.total <= 0x8000_0000 && InRange(s.resp.log, MASTER_SLOTS)
    requires forall k: u32 :: k < s.collector.total ==> Complete(w, Resp, s.resp, k)
    ensures s.collector.total <= MASTER_SLOTS
  {
    var q: u32 := MASTER_SLOTS;
    assert First(w, Resp, q).pktseq == q;
    assert q < s.collector.total ==> Complete(w, Resp, s.resp, q);
  }

  /**
    In every reachable state every slot below the total is complete on each side, and row k is the receive stamp
    minus the NIC transmit stamp, modulo 2^64, of that direction's packet number k.
   */
  lemma FifoRows(w: World, n: nat, evs: seq<Event>, s: State)
    requires Reaches(w, Fifo, n, evs, s)
    ensures s.slave.total <= |s.slave.slots| && s.collector.total <= |s.collector.slots|
    ensures forall k: u32 :: k < s.slave.total ==>
      Complete(w, Req, s.req, k) && Row(s.slave, k) == Sub64(ReceivedNanos(w, Req, k), SentNanos(w, Req, k))
    ensures forall k: u32 :: k < s.collector.total ==>
      Complete(w, Resp, s.resp, k) && Row(s.collector, k) == Sub64(ReceivedNanos(w, Resp, k), SentNanos(w, Resp, k))
  {
    FifoLogs(w, n, evs, s);
    SlotsAreSound(w, Fifo, n, evs, s);
    TotalFitsTable(w, s);
    forall k: u32 | k < s.slave.total
      ensures Row(s.slave, k) == Sub64(ReceivedNanos(w, Req, k), SentNanos(w, Req, k))
    {
      CompleteRow(w, Fifo, n, evs, s, k);
    }
    forall k: u32 | k < s.collector.total
      ensures Row(s.collector, k) == Sub64(ReceivedNanos(w, Resp, k), SentNanos(w, Resp, k))
    {
      CompleteRow(w, Fifo, n, evs, s, k);
    }
  }

  // ----- progress -----

  /** Events of all replies so far, a finished one taking eleven. */
  function ReplyWork(reply: Call, answered: seq<u32>): (r: int)
  {
    if answered == [] then 0 else 11 * (|answered| - 1) + Work(reply)
  }

  /** Events so far: the sender thread's, the replies', and one for each packet consumed or lost. */
  function Progress(s: State): (r: int)
  {
    Work(s.master) + ReplyWork(s.reply, Answered(s)) + |s.req.log| + |s.resp.log| + |s.req.lost| + |s.resp.lost|
  }

  /** The events of a whole session. */
  function SessionEvents(n: nat): (r: nat)
  {
    25 * n + 1
  }

  /** Every step of every actor, on any network, advances the progress by exactly one. */
  lemma StepProgress(w: World, net: Net, s: State, ev: Event)
    requires Inv(w, s) && Ready(net, s, ev) && !Next(w, s, net, ev).crashed
    ensures Progress(Next(w, s, net, ev)) == Progress(s) + 1
  {
    match ev {
      case MasterStep(e) => StepAdvances(w, s.master, e);
      case SlaveStep(e) =>
        DoneIsFinal(w, s.reply, e);
        StepAdvances(w, s.reply, e);
      case SlaveRecv(j) => SlaveRecvProgress(w, s, s.req.wire[j]);
      case MasterRecv(j) =>
      case LoseReq(j) =>
      case LoseResp(j) =>
    }
  }

  lemma SlaveRecvProgress(w: World, s: State, h: Header)
    requires Inv(w, s) && s.reply.pc.Done?
    ensures ReplyWork(ReplyAfter(s, h), FollowSeqs(Req, s.req.log + [h])) == ReplyWork(s.reply, Answered(s))
  {
    AppendFollow(Req, s.req.log, h);
    FinishedReplyWork(w, s.reply, Answered(s), h.pktseq);
    if h.typ != DELAY_REQ_FOLLOW_UP {
      assert FollowSeqs(Req, s.req.log + [h]) == Answered(s);
    }
  }

  lemma FinishedReplyWork(w: World, reply: Call, answered: seq<u32>, q: u32)
    requires ReplyInv(w, reply, answered) && reply.pc.Done?
    ensures ReplyWork(NewCall(Resp, q, 1, reply.sock), answered + [q]) == 11 * |answered| == ReplyWork(reply, answered)
  {
  }

  lemma SenderBound(w: World, s: State)
    requires Inv(w, s)
    ensures Work(s.master) <= 10 * s.n + 1 && |s.req.sent| <= 2 * s.n
    ensures Work(s.master) == 10 * s.n + 1 ==> s.master.pc.Done?
  {
    Bounds(w, s.master);
  }

  lemma ReplyBound(w: World, s: State)
    requires Inv(w, s)
    ensures ReplyWork(s.reply, Answered(s)) <= 11 * |Answered(s)| && |s.resp.sent| <= 2 * |Answered(s)|
    ensures ReplyWork(s.reply, Answered(s)) == 11 * |Answered(s)| ==> s.reply.pc.Done?
  {
    Bounds(w, s.reply);
  }

  /** The progress is bounded, and at the bound everything is done. */
  lemma ProgressBound(w: World, s: State)
    requires Inv(w, s)
    ensures Progress(s) <= SessionEvents(s.n)
    ensures Progress(s) == SessionEvents(s.n) ==>
      && s.master.pc.Done? && s.reply.pc.Done? && s.slave.total == s.n
      && s.req.wire == [] && s.resp.wire == [] && |s.req.sent| == |s.resp.sent| == 2 * s.n
  {
    SenderBound(w, s);
    ReplyBound(w, s);
    AnsweredOnce(w, s);
    FollowUpsConserved(Req, s.req);
    FollowUpsConserved(Resp, s.resp);
  }

  lemma LastStep(w: World, net: Net, n: nat, evs: seq<Event>, s: State) returns (before: State)
    requires Reaches(w, net, n, evs, s) && evs != []
    ensures Reaches(w, net, n, evs[..|evs| - 1], before)
    ensures Ready(net, before, evs[|evs| - 1]) && s == Next(w, before, net, evs[|evs| - 1])
  {
    before := Run(w, net, n, evs[..|evs| - 1]).value;
  }

  /** A run is exactly as long as its progress says. */
  lemma {:induction false} RunProgress(w: World, net: Net, n: nat, evs: seq<Event>, s: State)
    requires Reaches(w, net, n, evs, s)
    ensures |evs| == Progress(s) <= SessionEvents(n)
  {
    assert s.n == n && Progress(s) <= SessionEvents(n) by {
      RunInv(w, net, n, evs);
      ProgressBound(w, s);
    }
    if evs != [] {
      var last := |evs| - 1;
      var before := LastStep(w, net, n, evs, s);
      RunProgress(w, net, n, evs[..last], before);
      RunInv(w, net, n, evs[..last]);
      StepProgress(w, net, before, evs[last]);
    }
  }

  /** Both programs are past their loops: every pair sent, every measurement counted on both sides. */
  ghost predicate Finished(s: State)
  {
    && s.master.pc.Done? && s.reply.pc.Done?
    && s.slave.total == s.n && s.collector.total == s.n
  }

  /** An unfinished session on in-order channels can always go on. */
  lemma NotStuck(w: World, n: nat, evs: seq<Event>, s: State) returns (ev: Event)
    requires Reaches(w, Fifo, n, evs, s) && !Finished(s)
    ensures Ready(Fifo, s, ev)
  {
    RunInv(w, Fifo, n, evs);
    if !s.master.pc.Done? {
      CallNotStuck(w, s.master);
      ev := if CallReady(s.master, Program) then MasterStep(Program) else MasterStep(Kernel(0));
    } else if !s.reply.pc.Done? {
      CallNotStuck(w, s.reply);
      ev := if CallReady(s.reply, Program) then SlaveStep(Program) else SlaveStep(Kernel(0));
    } else {
      FifoLogs(w, n, evs, s);
      FifoInOrder(w, n, evs);
      Causality(w, Fifo, n, evs, s);
      Bounds(w, s.master);
      ev := if s.req.wire != [] && s.slave.running then SlaveRecv(0) else MasterRecv(0);
    }
  }

  /** A finished session has no event left. */
  lemma FinishedIsFinal(w: World, n: nat, evs: seq<Event>, s: State, ev: Event)
    requires Reaches(w, Fifo, n, evs, s) && Finished(s)
    ensures !Ready(Fifo, s, ev)
  {
    RunInv(w, Fifo, n, evs);
    if Ready(Fifo, s, ev) {
      match ev {
        case MasterStep(e) => DoneIsFinal(w, s.master, e);
        case SlaveStep(e) => DoneIsFinal(w, s.reply, e);
        case _ =>
      }
    }
  }

  lemma FinishedTakesAll(w: World, n: nat, evs: seq<Event>, s: State)
    requires Reaches(w, Fifo, n, evs, s) && Finished(s)
    ensures |evs| == SessionEvents(n)
    ensures s.resp.sent == Pairs(w, Resp, Range(0, n))
  {
    RunProgress(w, Fifo, n, evs, s);
    RunInv(w, Fifo, n, evs);
    FifoLogs(w, n, evs, s);
    FifoInOrder(w, n, evs);
    Causality(w, Fifo, n, evs, s);
    Bounds(w, s.master);
    Bounds(w, s.reply);
  }

  lemma BoundIsFinished(w: World, n: nat, evs: seq<Event>, s: State)
    requires Reaches(w, Fifo, n, evs, s) && |evs| == SessionEvents(n)
    ensures Finished(s)
  {
    RunProgress(w, Fifo, n, evs, s);
    RunInv(w, Fifo, n, evs);
    ProgressBound(w, s);
    FifoInOrder(w, n, evs);
    FifoLogs(w, n, evs, s);
  }

  /**
    On in-order lossless channels every run has at most 25n+1 events; it cannot be continued exactly when it
    has that many, which is exactly when both sides have counted all n measurements and the slave has sent its last
    pair. The master then holds, like the slave, a complete row for each measurement.
   */
  lemma FifoTermination(w: World, n: nat, evs: seq<Event>, s: State)
    requires Reaches(w, Fifo, n, evs, s)
    ensures |evs| <= SessionEvents(n)
    ensures Finished(s) <==> |evs| == SessionEvents(n)
    ensures Finished(s) <==> forall ev :: !Ready(Fifo, s, ev)
    ensures Finished(s) ==> s.resp.sent == Pairs(w, Resp, Range(0, n)) && !s.slave.running && !s.collector.running
    ensures Finished(s) ==> forall k: u32 :: k < n ==> Complete(w, Req, s.req, k) && Complete(w, Resp, s.resp, k)
  {
    RunProgress(w, Fifo, n, evs, s);
    if |evs| == SessionEvents(n) {
      BoundIsFinished(w, n, evs, s);
    }
    if Finished(s) {
      FinishedTakesAll(w, n, evs, s);
      RunInv(w, Fifo, n, evs);
      FifoLogs(w, n, evs, s);
      forall ev ensures !Ready(Fifo, s, ev) {
        FinishedIsFinal(w, n, evs, s, ev);
      }
    } else {
      var ev := NotStuck(w, n, evs, s);
    }
  }

  /** With more measurements than slots a session cannot finish. */
  lemma TooManyNeverFinishes(w: World, n: nat, evs: seq<Event>, s: State)
    requires Reaches(w, Fifo, n, evs, s) && n > MASTER_SLOTS
    ensures !Finished(s)
  {
    FifoRows(w, n, evs, s);
    RunInv(w, Fifo, n, evs);
  }

  /** Any unfinished run can be carried on until it is finished or the master crashes. */
  lemma {:induction false} FifoContinues(w: World, n: nat, evs: seq<Event>, s: State) returns (more: seq<Event>, s': State)
    requires Reaches(w, Fifo, n, evs, s)
    ensures Run(w, Fifo, n, evs + more) == Some(s')
    ensures s'.crashed || Finished(s')
    decreases SessionEvents(n) - |evs|
  {
    if Finished(s) {
      more, s' := [], s;
      assert evs + [] == evs;
    } else {
      FifoTermination(w, n, evs, s);
      var ev := NotStuck(w, n, evs, s);
      var next := Next(w, s, Fifo, ev);
      RunStep(w, Fifo, Init(n), evs, ev);
      if next.crashed {
        more, s' := [ev], next;
      } else {
        var rest;
        rest, s' := FifoContinues(w, n, evs + [ev], next);
        more := [ev] + rest;
        assert evs + more == (evs + [ev]) + rest;
      }
    }
  }

  /** A session can crash, by the master's indexing past its table, exactly when it has more than 100 measurements. */
  lemma CrashIff(w: World, n: nat)
    requires 1 <= n <= 0x8000_0000
    ensures (exists evs :: Run(w, Fifo, n, evs).Some? && Run(w, Fifo, n, evs).value.crashed) <==> n > MASTER_SLOTS
  {
    forall evs | Run(w, Fifo, n, evs).Some?
      ensures Run(w, Fifo, n, evs).value.crashed ==> n > MASTER_SLOTS
    {
      RunInv(w, Fifo, n, evs);
    }
    if n > MASTER_SLOTS {
      var more, s := FifoContinues(w, n, [], Init(n));
      if !s.crashed {
        TooManyNeverFinishes(w, n, [] + more, s);
      }
    }
  }
}
