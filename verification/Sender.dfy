/**
  `send_udp_packets_timestamp` as a small automaton: one step per system call that sends a packet or takes a message
  off the socket's error queue. The kernel's part, queueing the transmit stamps, happens in steps of its own.
 */
module Sender {
  import opened Words
  import opened WireHeader
  import opened Stamps

  /** The direction of a call: its `pkttype` is DELAY_REQ or DELAY_RESP. */
  datatype Kind = Req | Resp

  function FirstType(kind: Kind): (r: byte)
  {
    match kind
    case Req => DELAY_REQ
    case Resp => DELAY_RESP
  }

  function FollowType(kind: Kind): (r: byte)
  {
    match kind
    case Req => DELAY_REQ_FOLLOW_UP
    case Resp => DELAY_RESP_FOLLOW_UP
  }

  /**
    What the programs cannot choose, as arbitrary functions of a packet's type and number: the time of day read
    before the packet is sent, its software and NIC transmit stamps, and its NIC receive stamp.
   */
  datatype World = World(
    clock: (byte, u32) -> u64,
    swTx: (byte, u32) -> Timespec,
    nicTx: (byte, u32) -> Timespec,
    nicRx: (byte, u32) -> Timespec)

  // ----- the packets a call should send -----

  function SentNanos(w: World, kind: Kind, q: u32): (r: u64)
  {
    Nanos(w.nicTx(FirstType(kind), q))
  }

  function ReceivedNanos(w: World, kind: Kind, q: u32): (r: u64)
  {
    Nanos(w.nicRx(FirstType(kind), q))
  }

  function First(w: World, kind: Kind, q: u32): (r: Header)
  {
    match kind
    case Req => ZERO_HEADER.(pktseq := q, typ := DELAY_REQ, t1 := w.clock(DELAY_REQ, q))
    case Resp => ZERO_HEADER.(pktseq := q, typ := DELAY_RESP, t3 := w.clock(DELAY_RESP, q))
  }

  /** The header of a first packet turned into that of its follow-up. */
  function WithStamp(kind: Kind, h: Header, nanos: u64): (r: Header)
  {
    match kind
    case Req => h.(typ := DELAY_REQ_FOLLOW_UP, t2 := nanos)
    case Resp => h.(typ := DELAY_RESP_FOLLOW_UP, t4 := nanos)
  }

  /** The follow-up of packet `q`: it carries the NIC transmit stamp of that very packet. */
  function FollowUp(w: World, kind: Kind, q: u32): (r: Header)
  {
    WithStamp(kind, First(w, kind, q), SentNanos(w, kind, q))
  }

  /** first(q0), followup(q0), first(q1), followup(q1), ... */
  function Pairs(w: World, kind: Kind, qs: seq<u32>): (r: seq<Header>)
    ensures |r| == 2 * |qs|
  {
    seq(2 * |qs|, i requires 0 <= i < 2 * |qs| =>
      if i % 2 == 0 then First(w, kind, qs[i / 2]) else FollowUp(w, kind, qs[i / 2]))
  }

  /** `seq + i`; past the range of `int`, where C leaves the sum undefined, any value will do. */
  function Number(base: u32, i: nat): (r: u32)
    ensures i == 0 || base + i < 0x8000_0000 ==> r == base + i
  {
    if i == 0 || base + i < 0x8000_0000 then base + i else 0
  }

  function Range(base: u32, n: nat): (r: seq<u32>)
    ensures |r| == n
  {
    seq(n, i requires 0 <= i < n => Number(base, i))
  }

  // ----- the socket's transmit stamps -----

  /** A stamp the kernel still has to queue. */
  datatype Stamp = Stamp(typ: byte, pktseq: u32, hw: bool)

  /** `ts[0]`, `ts[1]`, `ts[2]` of a timestamping control message. */
  datatype Triple = Triple(software: Timespec, transformed: Timespec, raw: Timespec)

  datatype Sock = Sock(pending: seq<Stamp>, errq: seq<Triple>)

  const QUIET := Sock([], [])

  /** Each message loops back exactly one stamp, the others being zero. */
  function StampMessage(w: World, st: Stamp): (r: Triple)
  {
    if st.hw then
      Triple(NO_STAMP, NO_STAMP, w.nicTx(st.typ, st.pktseq))
    else
      Triple(w.swTx(st.typ, st.pktseq), NO_STAMP, NO_STAMP)
  }

  function StampsOf(h: Header): (r: seq<Stamp>)
    ensures |r| == 2
  {
    [Stamp(h.typ, h.pktseq, false), Stamp(h.typ, h.pktseq, true)]
  }

  function Transmit(k: Sock, h: Header): (r: Sock)
  {
    k.(pending := k.pending + StampsOf(h))
  }

  function WithoutIndex<T>(s: seq<T>, j: nat): (r: seq<T>)
    requires j < |s|
    ensures |r| == |s| - 1
  {
    s[..j] + s[j + 1..]
  }

  /** The kernel may queue its stamps in any order, except that a packet's software stamp precedes its NIC stamp. */
  predicate KernelReady(k: Sock, j: nat)
  {
    && j < |k.pending|
    && (k.pending[j].hw ==> forall i :: 0 <= i < j ==> k.pending[i] != k.pending[j].(hw := false))
  }

  function KernelStep(w: World, k: Sock, j: nat): (r: Sock)
    requires j < |k.pending|
  {
    Sock(WithoutIndex(k.pending, j), k.errq + [StampMessage(w, k.pending[j])])
  }

  // ----- the automaton -----

  datatype Pc = Head | AwaitSw | AwaitNic | SendFollow | AwaitFollowSw | AwaitFollowNic | Done

  /** The local variables of a call, and its socket. */
  datatype Call = Call(kind: Kind, base: u32, count: nat, i: nat, pc: Pc, hdr: Header, sock: Sock)

  function NewCall(kind: Kind, base: u32, count: nat, sock: Sock): (r: Call)
  {
    Call(kind, base, count, 0, Head, ZERO_HEADER, sock)
  }

  function Current(c: Call): (r: u32)
  {
    Number(c.base, c.i)
  }

  predicate CanAct(c: Call)
  {
    match c.pc
    case Head => true
    case SendFollow => true
    case Done => false
    case _ => c.sock.errq != []
  }

  function Pop(k: Sock): (r: Sock)
    requires k.errq != []
  {
    k.(errq := k.errq[1..])
  }

  /** The next action of the program and the packets it sends. */
  function Act(w: World, c: Call): (r: (Call, seq<Header>))
    requires CanAct(c)
  {
    match c.pc
    case Head =>
      if c.i < c.count then
        var h := First(w, c.kind, Current(c));
        (c.(pc := AwaitSw, hdr := h, sock := Transmit(c.sock, h)), [h])
      else
        (c.(pc := Done), [])
    case AwaitSw => (c.(pc := AwaitNic, sock := Pop(c.sock)), [])
    case AwaitNic =>
      (c.(pc := SendFollow, hdr := WithStamp(c.kind, c.hdr, Nanos(c.sock.errq[0].raw)), sock := Pop(c.sock)), [])
    case SendFollow => (c.(pc := AwaitFollowSw, sock := Transmit(c.sock, c.hdr)), [c.hdr])
    case AwaitFollowSw => (c.(pc := AwaitFollowNic, sock := Pop(c.sock)), [])
    case AwaitFollowNic => (c.(pc := Head, i := c.i + 1, sock := Pop(c.sock)), [])
  }

  datatype CallEvent = Program | Kernel(j: nat)

  predicate CallReady(c: Call, e: CallEvent)
  {
    match e
    case Program => CanAct(c)
    case Kernel(j) => KernelReady(c.sock, j)
  }

  function CallStep(w: World, c: Call, e: CallEvent): (r: (Call, seq<Header>))
    requires CallReady(c, e)
  {
    match e
    case Program => Act(w, c)
    case Kernel(j) => (c.(sock := KernelStep(w, c.sock, j)), [])
  }

  /** The state after a sequence of events and everything sent, or `None` when some event was not possible. */
  function CallRun(w: World, c: Call, evs: seq<CallEvent>): (r: Option<(Call, seq<Header>)>)
  {
    if evs == [] then
      Some((c, []))
    else
      var last := |evs| - 1;
      match CallRun(w, c, evs[..last])
      case None => None
      case Some((mid, out)) =>
        if CallReady(mid, evs[last]) then
          var (end, more) := CallStep(w, mid, evs[last]);
          Some((end, out + more))
        else
          None
  }

  // ----- the invariant: the error queue is aligned with the program -----

  /** The stamps of transmitted packets that the program has still to take off the error queue. */
  function OwedBy(c: Call): (r: seq<Stamp>)
    ensures |r| <= 2
  {
    match c.pc
    case AwaitSw => StampsOf(c.hdr)
    case AwaitNic => StampsOf(c.hdr)[1..]
    case AwaitFollowSw => StampsOf(c.hdr)
    case AwaitFollowNic => StampsOf(c.hdr)[1..]
    case _ => []
  }

  /** Of the stamps `owed`, a front part is queued and the rest is pending; there are no others. */
  ghost predicate Owes(w: World, k: Sock, owed: seq<Stamp>)
  {
    && |k.errq| + |k.pending| == |owed|
    && k.pending == owed[|k.errq|..]
    && forall i :: 0 <= i < |k.errq| ==> k.errq[i] == StampMessage(w, owed[i])
  }

  /** The header variable holds what the program last sent or is about to send. */
  ghost predicate HeaderFits(w: World, c: Call)
  {
    match c.pc
    case Head => c.i <= c.count
    case AwaitSw => c.i < c.count && c.hdr == First(w, c.kind, Current(c))
    case AwaitNic => c.i < c.count && c.hdr == First(w, c.kind, Current(c))
    case SendFollow => c.i < c.count && c.hdr == FollowUp(w, c.kind, Current(c))
    case AwaitFollowSw => c.i < c.count && c.hdr == FollowUp(w, c.kind, Current(c))
    case AwaitFollowNic => c.i < c.count && c.hdr == FollowUp(w, c.kind, Current(c))
    case Done => c.i == c.count
  }

  ghost predicate Aligned(w: World, c: Call)
  {
    HeaderFits(w, c) && Owes(w, c.sock, OwedBy(c))
  }

  /** How many packets of the full trace have been sent. */
  function EmittedCount(c: Call): (r: nat)
  {
    2 * c.i +
    match c.pc
    case Head => 0
    case Done => 0
    case AwaitSw => 1
    case AwaitNic => 1
    case SendFollow => 1
    case AwaitFollowSw => 2
    case AwaitFollowNic => 2
  }

  /** How many actions the program has taken in the current iteration. */
  function ProgramSteps(pc: Pc): (r: nat)
  {
    match pc
    case Head => 0
    case AwaitSw => 1
    case AwaitNic => 2
    case SendFollow => 3
    case AwaitFollowSw => 4
    case AwaitFollowNic => 5
    case Done => 1
  }

  /** How many of the current iteration's transmit stamps the kernel had to queue by the time of `pc`. */
  function StampsDue(pc: Pc): (r: nat)
  {
    match pc
    case Head => 0
    case AwaitSw => 2
    case AwaitNic => 2
    case SendFollow => 2
    case AwaitFollowSw => 4
    case AwaitFollowNic => 4
    case Done => 0
  }

  /** How many events have happened since the call began: an iteration takes six actions and four stamps. */
  function Work(c: Call): (r: int)
  {
    10 * c.i + ProgramSteps(c.pc) + StampsDue(c.pc) - |c.sock.pending|
  }

  ghost function FullTrace(w: World, c: Call): (r: seq<Header>)
  {
    Pairs(w, c.kind, Range(c.base, c.count))
  }

  ghost predicate SentSoFar(w: World, c: Call, out: seq<Header>)
  {
    EmittedCount(c) <= 2 * c.count && out == FullTrace(w, c)[..EmittedCount(c)]
  }

  lemma Bounds(w: World, c: Call)
    requires Aligned(w, c)
    ensures EmittedCount(c) <= 2 * c.count
    ensures 0 <= Work(c) <= 10 * c.count + 1
    ensures Work(c) == 10 * c.count + 1 <==> c.pc.Done?
    ensures c.pc.Done? ==> EmittedCount(c) == 2 * c.count
  {
  }

  lemma TransmitOwes(w: World, k: Sock, h: Header)
    requires Owes(w, k, [])
    ensures Owes(w, Transmit(k, h), StampsOf(h))
  {
    assert Transmit(k, h).pending == StampsOf(h);
  }

  lemma PopOwes(w: World, k: Sock, owed: seq<Stamp>)
    requires Owes(w, k, owed) && k.errq != []
    ensures owed != [] && k.errq[0] == StampMessage(w, owed[0])
    ensures Owes(w, Pop(k), owed[1..])
  {
  }

  /** However late the kernel queues a stamp, it is the next one the program is waiting for. */
  lemma KernelOwes(w: World, k: Sock, owed: seq<Stamp>, j: nat)
    requires |owed| == 2 ==> !owed[0].hw && owed[1] == owed[0].(hw := true)
    requires |owed| <= 2
    requires Owes(w, k, owed) && KernelReady(k, j)
    ensures j == 0
    ensures Owes(w, KernelStep(w, k, j), owed)
  {
    var n := |k.errq|;
    if |k.pending| == 2 {
      assert k.pending[0] == owed[0] && k.pending[1] == owed[1];
    }
    assert KernelStep(w, k, 0).pending == owed[n + 1..];
  }

  /** One event further: still aligned, and what was sent is the next part of the full trace. */
  ghost predicate Advances(w: World, c: Call, c': Call, out: seq<Header>)
  {
    && Aligned(w, c')
    && c'.kind == c.kind && c'.base == c.base && c'.count == c.count
    && Work(c') == Work(c) + 1
    && EmittedCount(c') == EmittedCount(c) + |out| <= 2 * c.count
    && out == FullTrace(w, c)[EmittedCount(c)..EmittedCount(c')]
  }

  lemma HeadAdvances(w: World, c: Call)
    requires Aligned(w, c) && c.pc == Head
    ensures Advances(w, c, Act(w, c).0, Act(w, c).1)
  {
    if c.i < c.count {
      TransmitOwes(w, c.sock, First(w, c.kind, Current(c)));
      assert FullTrace(w, c)[2 * c.i] == First(w, c.kind, Current(c));
    }
  }

  lemma AwaitSwAdvances(w: World, c: Call)
    requires Aligned(w, c) && c.pc == AwaitSw && CanAct(c)
    ensures Advances(w, c, Act(w, c).0, Act(w, c).1)
  {
    PopOwes(w, c.sock, OwedBy(c));
  }

  /** The stamp put in the follow-up is the NIC stamp of the packet just sent, and of no other. */
  lemma AwaitNicAdvances(w: World, c: Call)
    requires Aligned(w, c) && c.pc == AwaitNic && CanAct(c)
    ensures Advances(w, c, Act(w, c).0, Act(w, c).1)
  {
    PopOwes(w, c.sock, OwedBy(c));
    assert c.sock.errq[0] == StampMessage(w, Stamp(c.hdr.typ, c.hdr.pktseq, true));
    assert Act(w, c).0.hdr == FollowUp(w, c.kind, Current(c));
  }

  lemma SendFollowAdvances(w: World, c: Call)
    requires Aligned(w, c) && c.pc == SendFollow
    ensures Advances(w, c, Act(w, c).0, Act(w, c).1)
  {
    TransmitOwes(w, c.sock, c.hdr);
    assert FullTrace(w, c)[2 * c.i + 1] == c.hdr;
  }

  lemma AwaitFollowSwAdvances(w: World, c: Call)
    requires Aligned(w, c) && c.pc == AwaitFollowSw && CanAct(c)
    ensures Advances(w, c, Act(w, c).0, Act(w, c).1)
  {
    PopOwes(w, c.sock, OwedBy(c));
  }

  lemma AwaitFollowNicAdvances(w: World, c: Call)
    requires Aligned(w, c) && c.pc == AwaitFollowNic && CanAct(c)
    ensures Advances(w, c, Act(w, c).0, Act(w, c).1)
  {
    PopOwes(w, c.sock, OwedBy(c));
  }

  lemma ActAdvances(w: World, c: Call)
    requires Aligned(w, c) && CanAct(c)
    ensures Advances(w, c, Act(w, c).0, Act(w, c).1)
  {
    match c.pc {
      case Head => HeadAdvances(w, c);
      case AwaitSw => AwaitSwAdvances(w, c);
      case AwaitNic => AwaitNicAdvances(w, c);
      case SendFollow => SendFollowAdvances(w, c);
      case AwaitFollowSw => AwaitFollowSwAdvances(w, c);
      case AwaitFollowNic => AwaitFollowNicAdvances(w, c);
    }
  }

  lemma KernelAdvances(w: World, c: Call, j: nat)
    requires Aligned(w, c) && KernelReady(c.sock, j)
    ensures Advances(w, c, c.(sock := KernelStep(w, c.sock, j)), [])
  {
    Bounds(w, c);
    var c' := c.(sock := KernelStep(w, c.sock, j));
    assert OwedBy(c') == OwedBy(c) && HeaderFits(w, c') && EmittedCount(c') == EmittedCount(c);
    KernelOwes(w, c.sock, OwedBy(c), j);
  }

  lemma StepAdvances(w: World, c: Call, e: CallEvent)
    requires Aligned(w, c) && CallReady(c, e)
    ensures var (c', out) := CallStep(w, c, e); Advances(w, c, c', out)
  {
    match e {
      case Program => ActAdvances(w, c);
      case Kernel(j) => KernelAdvances(w, c, j);
    }
  }

  lemma ExtendSent(w: World, c: Call, c': Call, sent: seq<Header>, out: seq<Header>)
    requires Advances(w, c, c', out) && SentSoFar(w, c, sent)
    ensures SentSoFar(w, c', sent + out)
  {
    var t, a, b := FullTrace(w, c), EmittedCount(c), EmittedCount(c');
    assert t[..b] == t[..a] + t[a..b];
  }

  // ----- the theorems about one call -----

  /**
    Every run of a call on a quiet socket is aligned, has sent a prefix of first(base), followup(base), ...,
    followup(base+count-1), and is as long as its progress says; a finished run has sent the whole trace and leaves
    the socket quiet.
   */
  lemma {:induction false} SenderTrace(w: World, kind: Kind, base: u32, count: nat, evs: seq<CallEvent>)
    requires CallRun(w, NewCall(kind, base, count, QUIET), evs).Some?
    ensures var (c, out) := CallRun(w, NewCall(kind, base, count, QUIET), evs).value;
      && Aligned(w, c) && c.kind == kind && c.base == base && c.count == count
      && SentSoFar(w, c, out)
      && |evs| == Work(c)
      && (c.pc.Done? <==> |evs| == 10 * count + 1)
      && (c.pc.Done? ==> out == Pairs(w, kind, Range(base, count)) && c.sock == QUIET)
  {
    var start := NewCall(kind, base, count, QUIET);
    var (c, out) := CallRun(w, start, evs).value;
    if evs != [] {
      var last := |evs| - 1;
      SenderTrace(w, kind, base, count, evs[..last]);
      var (mid, sent) := CallRun(w, start, evs[..last]).value;
      StepAdvances(w, mid, evs[last]);
      var (end, more) := CallStep(w, mid, evs[last]);
      ExtendSent(w, mid, end, sent, more);
    }
    Bounds(w, c);
    if c.pc.Done? {
      assert FullTrace(w, c)[..2 * count] == FullTrace(w, c);
    }
  }

  /** An unfinished call is never stuck: the program or the kernel can go on. */
  lemma CallNotStuck(w: World, c: Call)
    requires Aligned(w, c) && !c.pc.Done?
    ensures CallReady(c, Program) || CallReady(c, Kernel(0))
  {
  }

  /** Each follow-up differs from its partner only in a type one higher and in the stamp it adds. */
  lemma FollowUpAddsOnlyTheStamp(w: World, kind: Kind, qs: seq<u32>, m: nat)
    requires m < |qs|
    ensures var first, follow := Pairs(w, kind, qs)[2 * m], Pairs(w, kind, qs)[2 * m + 1];
      && first.pktseq == follow.pktseq == qs[m]
      && first.typ == FirstType(kind) && follow.typ == first.typ + 1
      && (kind == Req ==>
            && first.t1 == w.clock(DELAY_REQ, qs[m]) && first.t2 == first.t3 == first.t4 == 0
            && follow == first.(typ := follow.typ, t2 := SentNanos(w, kind, qs[m])))
      && (kind == Resp ==>
            && first.t3 == w.clock(DELAY_RESP, qs[m]) && first.t1 == first.t2 == first.t4 == 0
            && follow == first.(typ := follow.typ, t4 := SentNanos(w, kind, qs[m])))
  {
  }

  // ----- counting the stamps -----

  /** How many of these events are the kernel's. */
  function KernelEvents(evs: seq<CallEvent>): (r: nat)
  {
    if evs == [] then 0 else KernelEvents(evs[..|evs| - 1]) + if evs[|evs| - 1].Kernel? then 1 else 0
  }

  /** The kernel queues four stamps an iteration, and at a loop head the program has taken them all. */
  lemma {:induction false} FourStampsAnIteration(w: World, kind: Kind, base: u32, count: nat, evs: seq<CallEvent>)
    requires CallRun(w, NewCall(kind, base, count, QUIET), evs).Some?
    ensures var c := CallRun(w, NewCall(kind, base, count, QUIET), evs).value.0;
      && KernelEvents(evs) == 4 * c.i + StampsDue(c.pc) - |c.sock.pending|
      && (c.pc.Head? ==> c.sock == QUIET && KernelEvents(evs) == 4 * c.i)
  {
    SenderTrace(w, kind, base, count, evs);
    if evs != [] {
      var last := |evs| - 1;
      FourStampsAnIteration(w, kind, base, count, evs[..last]);
      SenderTrace(w, kind, base, count, evs[..last]);
      StepCountsStamps(w, CallRun(w, NewCall(kind, base, count, QUIET), evs[..last]).value.0, evs[last]);
    }
  }

  lemma StepCountsStamps(w: World, c: Call, e: CallEvent)
    requires Aligned(w, c) && CallReady(c, e)
    ensures var c' := CallStep(w, c, e).0;
      4 * c'.i + StampsDue(c'.pc) - |c'.sock.pending| ==
      4 * c.i + StampsDue(c.pc) - |c.sock.pending| + if e.Kernel? then 1 else 0
  {
  }

  /** One event more. */
  lemma CallRunStep(w: World, c: Call, evs: seq<CallEvent>, e: CallEvent)
    requires CallRun(w, c, evs).Some? && CallReady(CallRun(w, c, evs).value.0, e)
    ensures var (mid, out) := CallRun(w, c, evs).value;
      var (end, more) := CallStep(w, mid, e);
      CallRun(w, c, evs + [e]) == Some((end, out + more))
  {
    assert (evs + [e])[..|evs|] == evs;
  }
}
