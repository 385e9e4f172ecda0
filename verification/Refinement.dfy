/**
  The steps of one program, taken in isolation, are steps of the session: a run of the sender routine on either host,
  and the handling of one packet by the slave with the whole reply it triggers.
 */
module Refinement {
  import opened Words
  import opened ByteOrder
  import opened WireHeader
  import opened Stamps
  import opened Sender
  import opened Receiver
  import opened Protocol
  import opened ProtocolSafety
  import opened Endpoints
  import opened Programs

  function MasterSteps(evs: seq<CallEvent>): (r: seq<Event>)
    ensures |r| == |evs|
  {
    seq(|evs|, i requires 0 <= i < |evs| => MasterStep(evs[i]))
  }

  function SlaveSteps(evs: seq<CallEvent>): (r: seq<Event>)
    ensures |r| == |evs|
  {
    seq(|evs|, i requires 0 <= i < |evs| => SlaveStep(evs[i]))
  }

  /** A run of the master's sender routine is a run of the session that moves nothing but it and its channel. */
  lemma {:induction false} MasterCallRefines(w: World, net: Net, s: State, evs: seq<CallEvent>)
    requires !s.crashed && CallRun(w, s.master, evs).Some?
    ensures var (c, out) := CallRun(w, s.master, evs).value;
      RunFrom(w, net, s, MasterSteps(evs)) == Some(s.(master := c, req := Post(s.req, out)))
  {
    if evs == [] {
      assert Post(s.req, []) == s.req;
    } else {
      var front, last := evs[..|evs| - 1], evs[|evs| - 1];
      MasterCallRefines(w, net, s, front);
      assert MasterSteps(evs) == MasterSteps(front) + [MasterStep(last)];
      RunStep(w, net, s, MasterSteps(front), MasterStep(last));
      var (mid, out) := CallRun(w, s.master, front).value;
      PostPost(s.req, out, CallStep(w, mid, last).1);
    }
  }

  lemma PostPost(l: Link, out: seq<Header>, more: seq<Header>)
    ensures Post(Post(l, out), more) == Post(l, out + more)
  {
    assert (l.sent + out) + more == l.sent + (out + more);
    assert (l.wire + out) + more == l.wire + (out + more);
  }

  /** A run of the slave's sender routine likewise. */
  lemma {:induction false} SlaveCallRefines(w: World, net: Net, s: State, evs: seq<CallEvent>)
    requires !s.crashed && CallRun(w, s.reply, evs).Some?
    ensures var (c, out) := CallRun(w, s.reply, evs).value;
      RunFrom(w, net, s, SlaveSteps(evs)) == Some(s.(reply := c, resp := Post(s.resp, out)))
  {
    if evs == [] {
      assert Post(s.resp, []) == s.resp;
    } else {
      var front, last := evs[..|evs| - 1], evs[|evs| - 1];
      SlaveCallRefines(w, net, s, front);
      assert SlaveSteps(evs) == SlaveSteps(front) + [SlaveStep(last)];
      RunStep(w, net, s, SlaveSteps(front), SlaveStep(last));
      var (mid, out) := CallRun(w, s.reply, front).value;
      PostPost(s.resp, out, CallStep(w, mid, last).1);
    }
  }

  /**
    The slave's handling of request follow-up `j`, its table update and its finished call of the sender routine, is a
    run of the session: one receive step and then the call's own steps.
   */
  lemma SlaveHandlingRefines(w: World, net: Net, s: State, j: nat, t: Table, evs: seq<CallEvent>)
    requires Ready(net, s, SlaveRecv(j)) && s.reply.sock == QUIET
    requires s.req.wire[j].typ == DELAY_REQ_FOLLOW_UP
    requires HandleIn(w, Req, s.n, s.slave, s.req.wire[j]) == Accepted(t)
    requires CallRun(w, NewCall(Resp, s.req.wire[j].pktseq, 1, QUIET), evs).Some?
    ensures var (c, out) := CallRun(w, NewCall(Resp, s.req.wire[j].pktseq, 1, QUIET), evs).value;
      RunFrom(w, net, s, [SlaveRecv(j)] + SlaveSteps(evs)) ==
      Some(s.(slave := t, reply := c, req := Deliver(s.req, j), resp := Post(s.resp, out)))
  {
    RunFront(w, net, s, SlaveRecv(j), SlaveSteps(evs));
    SlaveCallRefines(w, net, Next(w, s, net, SlaveRecv(j)), evs);
  }

  // ----- the programs' methods -----

  /** What `Master.SendPackets` has done is a run of the session that puts the whole request trace on the channel. */
  lemma SendPacketsRefines(master: Master, net: Net)
    requires master.sock.start == NewCall(Req, 0, master.n, QUIET) && master.sock.Now().Some?
    requires master.sock.Now().value.1 == Pairs(master.sock.w, Req, Range(0, master.n))
    ensures var trace := Pairs(master.sock.w, Req, Range(0, master.n));
      var s := Init(master.n);
      RunFrom(master.sock.w, net, s, MasterSteps(master.sock.evs)) ==
      Some(s.(master := master.sock.Now().value.0, req := Link(trace, trace, [], [])))
  {
    var trace := Pairs(master.sock.w, Req, Range(0, master.n));
    MasterCallRefines(master.sock.w, net, Init(master.n), master.sock.evs);
    assert Post(NEW_LINK, trace) == Link(trace, trace, [], []);
  }

  /**
    What `Slave.DoRecv` has done on the arrival of request follow-up `j` is a run of the session: the same table, the
    follow-up taken off the channel, and its pair of responses put on the other one.
   */
  lemma DoRecvRefines(slave: Slave, net: Net, s: State, j: nat, a: Arrival, before: seq<seq<byte>>)
    requires Ready(net, s, SlaveRecv(j)) && s.reply.sock == QUIET && s.n == slave.n
    requires s.req.wire[j].typ == DELAY_REQ_FOLLOW_UP
    requires Readable(a) && MessageOf(slave.sock.host, a) == Message(s.req.wire[j], Some(RxStamps(slave.sock.w, s.req.wire[j])))
    requires var m := MessageOf(slave.sock.host, a); Handle(Req, slave.n, s.slave, m.h, m.stamps) == Accepted(slave.View())
    requires slave.Replied(s.req.wire[j].pktseq, before)
    ensures RunFrom(slave.sock.w, net, s, [SlaveRecv(j)] + SlaveSteps(slave.sock.evs)) ==
      Some(s.(slave := slave.View(), reply := slave.sock.Now().value.0, req := Deliver(s.req, j),
              resp := Post(s.resp, Pairs(slave.sock.w, Resp, [s.req.wire[j].pktseq]))))
  {
    SlaveHandlingRefines(slave.sock.w, net, s, j, slave.View(), slave.sock.evs);
  }
}
