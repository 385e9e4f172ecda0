/**
  The whole session as a state machine: the master's sender thread, the slave, the master's receive loop, the two
  error queues, and a channel in each direction. Every interleaving of their steps is a run.
 */
module Protocol {
  import opened Words
  import opened WireHeader
  import opened Sender
  import opened Receiver

  /** Either packets arrive in order and none is lost, or any packet may be lost and any packet may be next. */
  datatype Net = Fifo | Lossy

  /** One direction: the packets in flight, and the history of those sent, consumed and lost. */
  datatype Link = Link(sent: seq<Header>, wire: seq<Header>, log: seq<Header>, lost: seq<Header>)

  const NEW_LINK := Link([], [], [], [])

  function Post(l: Link, out: seq<Header>): (r: Link)
  {
    l.(sent := l.sent + out, wire := l.wire + out)
  }

  function Deliver(l: Link, j: nat): (r: Link)
    requires j < |l.wire|
  {
    l.(wire := WithoutIndex(l.wire, j), log := l.log + [l.wire[j]])
  }

  function Drop(l: Link, j: nat): (r: Link)
    requires j < |l.wire|
  {
    l.(wire := WithoutIndex(l.wire, j), lost := l.lost + [l.wire[j]])
  }

  /**
    `n` is the number of measurements on both sides; `master` is the sender thread, `reply` the slave's latest call of
    the sender routine, `slave` and `collector` the two measurement tables.
   */
  datatype State = State(n: nat, master: Call, reply: Call, slave: Table, collector: Table,
                         req: Link, resp: Link, crashed: bool)

  const IDLE_CALL := Call(Resp, 0, 0, 0, Done, ZERO_HEADER, QUIET)

  function Init(n: nat): (r: State)
  {
    State(n, NewCall(Req, 0, n, QUIET), IDLE_CALL, EmptyTable(n), EmptyTable(MASTER_SLOTS),
          NEW_LINK, NEW_LINK, false)
  }

  datatype Event =
    | MasterStep(e: CallEvent)
    | SlaveStep(e: CallEvent)
    | SlaveRecv(j: nat)
    | MasterRecv(j: nat)
    | LoseReq(j: nat)
    | LoseResp(j: nat)

  predicate CanArrive(net: Net, l: Link, j: nat)
  {
    j < |l.wire| && (net == Fifo ==> j == 0)
  }

  predicate Ready(net: Net, s: State, ev: Event)
  {
    && !s.crashed
    && match ev
       case MasterStep(e) => CallReady(s.master, e)
       case SlaveStep(e) => CallReady(s.reply, e)
       case SlaveRecv(j) => s.slave.running && s.reply.pc.Done? && CanArrive(net, s.req, j)
       case MasterRecv(j) => s.collector.running && CanArrive(net, s.resp, j)
       case LoseReq(j) => net == Lossy && j < |s.req.wire|
       case LoseResp(j) => net == Lossy && j < |s.resp.wire|
  }

  /** The slave starts a reply on a follow-up; until it is done it receives nothing more. */
  function ReplyAfter(s: State, h: Header): (r: Call)
  {
    if h.typ == DELAY_REQ_FOLLOW_UP then NewCall(Resp, h.pktseq, 1, s.reply.sock) else s.reply
  }

  function Next(w: World, s: State, net: Net, ev: Event): (r: State)
    requires Ready(net, s, ev)
  {
    match ev
    case MasterStep(e) =>
      var (c, out) := CallStep(w, s.master, e);
      s.(master := c, req := Post(s.req, out))
    case SlaveStep(e) =>
      var (c, out) := CallStep(w, s.reply, e);
      s.(reply := c, resp := Post(s.resp, out))
    case SlaveRecv(j) =>
      var h := s.req.wire[j];
      var v := HandleIn(w, Req, s.n, s.slave, h);
      if v.Accepted? then
        s.(slave := v.t, req := Deliver(s.req, j), reply := ReplyAfter(s, h))
      else
        s.(crashed := true)
    case MasterRecv(j) =>
      var v := HandleIn(w, Resp, s.n, s.collector, s.resp.wire[j]);
      if v.Accepted? then s.(collector := v.t, resp := Deliver(s.resp, j)) else s.(crashed := true)
    case LoseReq(j) => s.(req := Drop(s.req, j))
    case LoseResp(j) => s.(resp := Drop(s.resp, j))
  }

  /** The state after a sequence of events, or `None` when some event was not possible. */
  function RunFrom(w: World, net: Net, s: State, evs: seq<Event>): (r: Option<State>)
  {
    if evs == [] then
      Some(s)
    else
      match RunFrom(w, net, s, evs[..|evs| - 1])
      case None => None
      case Some(mid) => Step(w, net, mid, evs[|evs| - 1])
  }

  function Step(w: World, net: Net, s: State, ev: Event): (r: Option<State>)
  {
    if Ready(net, s, ev) then Some(Next(w, s, net, ev)) else None
  }

  /** A session of `n` measurements from the start. */
  function Run(w: World, net: Net, n: nat, evs: seq<Event>): (r: Option<State>)
  {
    RunFrom(w, net, Init(n), evs)
  }
}
