/** The inductive invariant of the session, on any network. */
module ProtocolInv {
  import opened Words
  import opened WireHeader
  import opened Sender
  import opened Receiver
  import opened Protocol

  // ----- links -----

  /** No packet appears from nowhere, twice, or vanishes without being counted as lost. */
  ghost predicate Conserved(l: Link)
  {
    multiset(l.sent) == multiset(l.log) + multiset(l.wire) + multiset(l.lost)
  }

  lemma PostConserves(l: Link, out: seq<Header>)
    requires Conserved(l)
    ensures Conserved(Post(l, out))
  {
  }

  lemma DeliverConserves(l: Link, j: nat)
    requires Conserved(l) && j < |l.wire|
    ensures Conserved(Deliver(l, j)) && Conserved(Drop(l, j))
  {
    MultisetWithout(l.wire, j);
  }

  lemma InLink(l: Link, h: Header)
    requires Conserved(l)
    ensures h in l.log || h in l.wire || h in l.lost <==> h in l.sent
  {
    assert h in multiset(l.sent) <==> h in multiset(l.log) + multiset(l.wire) + multiset(l.lost);
  }

  lemma {:induction false} DistinctMultiplicity<T>(s: seq<T>, x: T)
    requires Distinct(s)
    ensures multiset(s)[x] <= 1
  {
    if s != [] {
      var n := |s| - 1;
      DistinctMultiplicity(s[..n], x);
      assert s == s[..n] + [s[n]];
      assert s[n] !in s[..n];
      assert s[n] !in multiset(s[..n]);
    }
  }

  lemma MultiplicityDistinct<T>(s: seq<T>)
    requires forall x :: x in s ==> multiset(s)[x] <= 1
    ensures Distinct(s)
  {
    forall i, j | 0 <= i < j < |s|
      ensures s[i] != s[j]
    {
      MultisetWithout(s, j);
      assert WithoutIndex(s, j)[i] == s[i];
      assert s[i] in multiset(WithoutIndex(s, j));
    }
  }

  /** If nothing was sent twice, nothing is consumed, in flight or lost twice, or in two of these states at once. */
  lemma DistinctLink(l: Link)
    requires Conserved(l) && Distinct(l.sent)
    ensures Distinct(l.log + l.wire + l.lost) && Distinct(l.log)
  {
    var all := l.log + l.wire + l.lost;
    assert multiset(all) == multiset(l.sent);
    forall x | x in all
      ensures multiset(all)[x] <= 1
    {
      DistinctMultiplicity(l.sent, x);
    }
    MultiplicityDistinct(all);
    assert forall i :: 0 <= i < |l.log| ==> l.log[i] == all[i];
  }

  /** Follow-ups sent are those consumed, in flight and lost. */
  lemma FollowUpsConserved(kind: Kind, l: Link)
    requires Conserved(l)
    ensures |FollowSeqs(kind, l.sent)| == |FollowSeqs(kind, l.log)| + |FollowSeqs(kind, l.wire)| + |FollowSeqs(kind, l.lost)|
    ensures |l.sent| == |l.log| + |l.wire| + |l.lost|
  {
    FollowSeqsPermutation(kind, l.sent, l.log + l.wire + l.lost);
    FollowSeqsConcat(kind, l.log + l.wire, l.lost);
    FollowSeqsConcat(kind, l.log, l.wire);
    assert |multiset(l.sent)| == |multiset(l.log) + multiset(l.wire) + multiset(l.lost)|;
  }

  // ----- the invariant -----

  /** The numbers of the request follow-ups the slave has consumed, in order. */
  function Answered(s: State): (r: seq<u32>)
  {
    FollowSeqs(Req, s.req.log)
  }

  /** The sender thread is aligned and has sent a prefix of its trace. */
  ghost predicate MasterInv(w: World, n: nat, master: Call, sent: seq<Header>)
  {
    && Aligned(w, master)
    && master.kind == Req && master.base == 0 && master.count == n
    && SentSoFar(w, master, sent)
  }

  /** The slave's latest call answers the last follow-up consumed. */
  ghost predicate ReplyInv(w: World, reply: Call, answered: seq<u32>)
  {
    && Aligned(w, reply)
    && reply.kind == Resp
    && (answered == [] ==> reply.pc.Done? && reply.count == 0)
    && (answered != [] ==> reply.base == answered[|answered| - 1] && reply.count == 1)
  }

  /** How many response packets the slave has sent. */
  function RespCount(reply: Call, answered: seq<u32>): (r: int)
  {
    if answered == [] then 0 else 2 * (|answered| - 1) + EmittedCount(reply)
  }

  /** The slave has sent a prefix of the pairs that answer the consumed follow-ups, in the order of consumption. */
  ghost predicate RespInv(w: World, reply: Call, answered: seq<u32>, sent: seq<Header>)
  {
    && 0 <= RespCount(reply, answered) <= 2 * |answered|
    && sent == Pairs(w, Resp, answered)[..RespCount(reply, answered)]
  }

  ghost predicate InRange(log: seq<Header>, size: nat)
  {
    forall h :: h in log ==> h.pktseq < size
  }

  /** A table of this size reflects the packets consumed, all of them in its range. */
  ghost predicate TableInv(w: World, kind: Kind, n: nat, size: nat, t: Table, log: seq<Header>)
  {
    && |t.slots| == size
    && Reflects(w, kind, n, t, log)
    && InRange(log, size)
  }

  ghost predicate Inv(w: World, s: State)
  {
    && 1 <= s.n <= 0x8000_0000 && !s.crashed
    && MasterInv(w, s.n, s.master, s.req.sent)
    && ReplyInv(w, s.reply, Answered(s))
    && RespInv(w, s.reply, Answered(s), s.resp.sent)
    && TableInv(w, Req, s.n, s.n, s.slave, s.req.log)
    && TableInv(w, Resp, s.n, MASTER_SLOTS, s.collector, s.resp.log)
    && Conserved(s.req) && Conserved(s.resp)
  }

  lemma RangeIsDistinct(n: nat)
    requires n <= 0x8000_0000
    ensures Distinct(Range(0, n)) && forall q :: q in Range(0, n) <==> 0 <= q < n
  {
    forall q | 0 <= q < n ensures q in Range(0, n) {
      assert Range(0, n)[q] == q;
    }
  }

  /** Every request packet is genuine, numbered below `n`, and sent once. */
  lemma Requests(w: World, s: State)
    requires s.n <= 0x8000_0000 && MasterInv(w, s.n, s.master, s.req.sent)
    ensures forall h :: h in s.req.sent ==> Genuine(w, Req, h) && h.pktseq < s.n
    ensures Distinct(s.req.sent)
  {
    var qs := Range(0, s.n);
    RangeIsDistinct(s.n);
    TraceIsDistinct(w, Req, qs);
    forall h | h in s.req.sent
      ensures Genuine(w, Req, h) && h.pktseq < s.n
    {
      TraceIsGenuine(w, Req, qs, h);
    }
  }

  /** Every response packet is genuine and answers a follow-up the slave has consumed. */
  lemma Responses(w: World, s: State)
    requires RespInv(w, s.reply, Answered(s), s.resp.sent)
    ensures forall h :: h in s.resp.sent ==> Genuine(w, Resp, h) && h.pktseq in Answered(s)
    ensures Distinct(Answered(s)) ==> Distinct(s.resp.sent)
  {
    forall h | h in s.resp.sent
      ensures Genuine(w, Resp, h) && h.pktseq in Answered(s)
    {
      TraceIsGenuine(w, Resp, Answered(s), h);
    }
    if Distinct(Answered(s)) {
      TraceIsDistinct(w, Resp, Answered(s));
    }
  }

  /** The slave answers no number twice, and only numbers below `n`. */
  lemma AnsweredOnce(w: World, s: State)
    requires Inv(w, s)
    ensures Distinct(Answered(s)) && |Answered(s)| <= s.n
    ensures forall q :: q in Answered(s) ==> q < s.n
  {
    Requests(w, s);
    DistinctLink(s.req);
    forall h | h in s.req.log
      ensures Genuine(w, Req, h) && h.pktseq < s.n
    {
      InLink(s.req, h);
    }
    FollowSeqsDistinct(w, Req, s.req.log);
    forall q | q in Answered(s)
      ensures q < s.n
    {
      InFollowSeqs(w, Req, s.req.log, q);
      assert FollowUp(w, Req, q).pktseq == q;
    }
    FollowUpsConserved(Req, s.req);
    FollowSeqsOfTrace(w, Req, Range(0, s.n), EmittedCount(s.master));
  }

  // ----- every step keeps the invariant -----

  lemma InitInv(w: World, n: nat)
    requires 1 <= n <= 0x8000_0000
    ensures Inv(w, Init(n))
  {
    EmptyReflects(w, Req, n, n);
    EmptyReflects(w, Resp, n, MASTER_SLOTS);
  }

  lemma MasterStepKeeps(w: World, net: Net, s: State, e: CallEvent)
    requires Inv(w, s) && Ready(net, s, MasterStep(e))
    ensures Inv(w, Next(w, s, net, MasterStep(e)))
  {
    var (c, out) := CallStep(w, s.master, e);
    assert MasterInv(w, s.n, c, s.req.sent + out) by {
      StepAdvances(w, s.master, e);
      ExtendSent(w, s.master, c, s.req.sent, out);
    }
    PostConserves(s.req, out);
  }

  lemma SlaveStepKeeps(w: World, net: Net, s: State, e: CallEvent)
    requires Inv(w, s) && Ready(net, s, SlaveStep(e))
    ensures Inv(w, Next(w, s, net, SlaveStep(e)))
  {
    var (c, out) := CallStep(w, s.reply, e);
    var sent := s.resp.sent + out;
    DoneIsFinal(w, s.reply, e);
    StepAdvances(w, s.reply, e);
    assert RespInv(w, c, Answered(s), sent) by {
      ReplyExtends(w, s.reply, Answered(s), s.resp.sent, c, out);
    }
    assert ReplyInv(w, c, Answered(s));
    PostConserves(s.resp, out);
  }

  /** A finished call has no further event: nothing is pending on its socket. */
  lemma DoneIsFinal(w: World, c: Call, e: CallEvent)
    requires Aligned(w, c) && CallReady(c, e)
    ensures !c.pc.Done?
  {
  }

  lemma LastPair(w: World, kind: Kind, qs: seq<u32>)
    requires qs != []
    ensures Pairs(w, kind, qs)[2 * (|qs| - 1)..] == Pairs(w, kind, Range(qs[|qs| - 1], 1))
  {
    assert Range(qs[|qs| - 1], 1) == [qs[|qs| - 1]];
  }

  lemma JoinSlices<T>(s: seq<T>, before: nat, a: nat, b: nat)
    requires a <= b <= |s| - before
    ensures s[..before + b] == s[..before + a] + s[before..][a..b]
  {
  }

  /** What the current reply sends continues the pairs of all replies. */
  lemma ReplyExtends(w: World, reply: Call, answered: seq<u32>, sent: seq<Header>, c: Call, out: seq<Header>)
    requires ReplyInv(w, reply, answered) && RespInv(w, reply, answered, sent) && Advances(w, reply, c, out)
    requires !reply.pc.Done?
    ensures RespInv(w, c, answered, sent + out)
  {
    var all := Pairs(w, Resp, answered);
    var before := 2 * (|answered| - 1);
    assert all[before..] == FullTrace(w, reply) by { LastPair(w, Resp, answered); }
    var a, b := EmittedCount(reply), EmittedCount(c);
    assert |all| == before + 2 && 0 <= a <= b <= 2;
    JoinSlices(all, before, a, b);
    assert sent + out == all[..before + b];
  }

  lemma SlaveTableKeeps(w: World, s: State, j: nat)
    requires Inv(w, s) && j < |s.req.wire|
    ensures var v := HandleIn(w, Req, s.n, s.slave, s.req.wire[j]);
      v.Accepted? && TableInv(w, Req, s.n, s.n, v.t, s.req.log + [s.req.wire[j]])
  {
    InLink(s.req, s.req.wire[j]);
    Requests(w, s);
    HandleKeepsReflects(w, Req, s.n, s.slave, s.req.log, s.req.wire[j]);
  }

  lemma SlaveReplyKeeps(w: World, s: State, h: Header)
    requires Inv(w, s) && s.reply.pc.Done?
    ensures ReplyInv(w, ReplyAfter(s, h), FollowSeqs(Req, s.req.log + [h]))
    ensures RespInv(w, ReplyAfter(s, h), FollowSeqs(Req, s.req.log + [h]), s.resp.sent)
  {
    AppendFollow(Req, s.req.log, h);
    if h.typ == DELAY_REQ_FOLLOW_UP {
      ReplyAfterKeeps(w, s.reply, Answered(s), s.resp.sent, h.pktseq);
    } else {
      assert FollowSeqs(Req, s.req.log + [h]) == Answered(s);
    }
  }

  lemma SlaveRecvKeeps(w: World, net: Net, s: State, j: nat)
    requires Inv(w, s) && Ready(net, s, SlaveRecv(j))
    ensures Inv(w, Next(w, s, net, SlaveRecv(j)))
  {
    SlaveTableKeeps(w, s, j);
    SlaveReplyKeeps(w, s, s.req.wire[j]);
    DeliverConserves(s.req, j);
  }

  /** When a reply is finished the slave has sent complete pairs, and a new reply can begin on a quiet socket. */
  lemma ReplyAfterKeeps(w: World, reply: Call, answered: seq<u32>, sent: seq<Header>, q: u32)
    requires ReplyInv(w, reply, answered) && RespInv(w, reply, answered, sent) && reply.pc.Done?
    ensures sent == Pairs(w, Resp, answered)
    ensures ReplyInv(w, NewCall(Resp, q, 1, reply.sock), answered + [q])
    ensures RespInv(w, NewCall(Resp, q, 1, reply.sock), answered + [q], sent)
  {
    assert sent == Pairs(w, Resp, answered);
    assert Pairs(w, Resp, answered + [q])[..2 * |answered|] == Pairs(w, Resp, answered);
  }

  /** The master's table is the one place where a number can be out of range. */
  lemma MasterRecvKeeps(w: World, net: Net, s: State, j: nat)
    requires Inv(w, s) && Ready(net, s, MasterRecv(j))
    ensures var s' := Next(w, s, net, MasterRecv(j));
      if s.resp.wire[j].pktseq < MASTER_SLOTS then Inv(w, s') else s' == s.(crashed := true)
  {
    var h := s.resp.wire[j];
    assert Genuine(w, Resp, h) by {
      InLink(s.resp, h);
      Responses(w, s);
    }
    if h.pktseq < MASTER_SLOTS {
      HandleKeepsReflects(w, Resp, s.n, s.collector, s.resp.log, h);
      DeliverConserves(s.resp, j);
    }
  }

  lemma LossKeeps(w: World, net: Net, s: State, ev: Event)
    requires Inv(w, s) && Ready(net, s, ev) && (ev.LoseReq? || ev.LoseResp?)
    ensures Inv(w, Next(w, s, net, ev))
  {
    match ev {
      case LoseReq(j) => DeliverConserves(s.req, j);
      case LoseResp(j) => DeliverConserves(s.resp, j);
    }
  }

  /** A step keeps the invariant unless the master receives a number its table has no slot for. */
  lemma StepKeeps(w: World, net: Net, s: State, ev: Event)
    requires Inv(w, s) && Ready(net, s, ev)
    ensures var s' := Next(w, s, net, ev);
      if s'.crashed then s.n > MASTER_SLOTS && s' == s.(crashed := true) else Inv(w, s')
  {
    match ev {
      case MasterStep(e) => MasterStepKeeps(w, net, s, e);
      case SlaveStep(e) => SlaveStepKeeps(w, net, s, e);
      case SlaveRecv(j) => SlaveRecvKeeps(w, net, s, j);
      case MasterRecv(j) =>
        MasterRecvKeeps(w, net, s, j);
        InLink(s.resp, s.resp.wire[j]);
        Responses(w, s);
        AnsweredOnce(w, s);
      case LoseReq(j) => LossKeeps(w, net, s, ev);
      case LoseResp(j) => LossKeeps(w, net, s, ev);
    }
  }

  /** Every state of every run satisfies the invariant, crashes aside. */
  lemma {:induction false} RunInv(w: World, net: Net, n: nat, evs: seq<Event>)
    requires 1 <= n <= 0x8000_0000 && Run(w, net, n, evs).Some?
    ensures var s := Run(w, net, n, evs).value;
      && s.n == n
      && (s.crashed ==> n > MASTER_SLOTS)
      && (!s.crashed ==> Inv(w, s))
  {
    if evs == [] {
      InitInv(w, n);
    } else {
      var last := |evs| - 1;
      RunInv(w, net, n, evs[..last]);
      StepKeeps(w, net, Run(w, net, n, evs[..last]).value, evs[last]);
    }
  }
}
