/**
  The programs themselves: the sender routine over a socket with an error queue, the two `do_recv` handlers with
  their measurement tables, the receive loops and the writing of the rows.

  A socket keeps, for proof, the run of the sender automaton that the latest call has made on it; every method is
  proved to extend that run by the steps the automaton allows.
 */
module Endpoints {
  import opened Words
  import opened ByteOrder
  import opened WireHeader
  import opened Stamps
  import opened Sender
  import opened Receiver

  /** The payload byte of each packet type: 'A', 'B', 'C', 'D'. */
  function FillByte(typ: byte): (r: byte)
  {
    if typ == DELAY_REQ then 0x41 else if typ == DELAY_REQ_FOLLOW_UP then 0x42 else if typ == DELAY_RESP then 0x43 else 0x44
  }

  /** The datagram of `size` bytes in which a host sends a header. */
  function Datagram(host: Host, h: Header, size: nat): (r: seq<byte>)
    requires size >= HEADER_SIZE
    ensures |r| == size
  {
    Payload(host, ToNetwork(host, h), size, FillByte(h.typ))
  }

  function Datagrams(host: Host, hs: seq<Header>, size: nat): (r: seq<seq<byte>>)
    requires size >= HEADER_SIZE
    ensures |r| == |hs|
  {
    seq(|hs|, i requires 0 <= i < |hs| => Datagram(host, hs[i], size))
  }

  /** After the header every byte is 'A' plus the packet's type, which is the fifth byte. */
  lemma DatagramIsFilled(host: Host, h: Header, size: nat)
    requires size >= HEADER_SIZE && h.typ <= DELAY_RESP_FOLLOW_UP
    ensures var d := Datagram(host, h, size);
      d[4] == h.typ && forall j :: HEADER_SIZE <= j < size ==> d[j] == 0x41 + d[4]
  {
    assert StructBytes(host, ToNetwork(host, h))[4] == h.typ;
  }

  /** The control messages that come with an error-queue message: the stamps, then the extended error. */
  function ControlOf(t: Triple): (r: seq<Cmsg>)
  {
    [Cmsg(SolSocket, SoTimestamping, [t.software, t.transformed, t.raw]), Cmsg(OtherLevel, OtherType, [])]
  }

  lemma StampOfControl(t: Triple)
    ensures LastStamp(ControlOf(t)) == Some([t.software, t.transformed, t.raw])
  {
    assert ControlOf(t)[..1] == [ControlOf(t)[0]];
  }

  lemma HtonZero(host: Host)
    ensures Htonl(host, 0) == 0 && Hton64(host, 0) == 0
  {
    SwapOne();
  }

  /** The struct as the code fills it: zeroed, then the number, one time and the type. */
  lemma FirstInNetworkOrder(w: World, host: Host, kind: Kind, q: u32)
    ensures ToNetwork(host, First(w, kind, q)) ==
      match kind
      case Req => ZERO_HEADER.(pktseq := Htonl(host, q), t1 := Hton64(host, w.clock(DELAY_REQ, q)), typ := DELAY_REQ)
      case Resp => ZERO_HEADER.(pktseq := Htonl(host, q), t3 := Hton64(host, w.clock(DELAY_RESP, q)), typ := DELAY_RESP)
  {
    HtonZero(host);
  }

  /** The program is at a receive on the error queue. */
  predicate Waits(pc: Pc)
  {
    pc.AwaitSw? || pc.AwaitNic? || pc.AwaitFollowSw? || pc.AwaitFollowNic?
  }

  class Socket {
    const w: World
    const host: Host
    /** Every datagram handed to the network, oldest first. */
    var sent: seq<seq<byte>>
    var pending: seq<Stamp>
    var errq: seq<Triple>
    /** How many more polls find the kernel busy. */
    var lag: nat
    ghost var start: Call
    ghost var evs: seq<CallEvent>

    /** The run of the latest call so far. */
    ghost function Now(): (r: Option<(Call, seq<Header>)>)
      reads this
    {
      CallRun(w, start, evs)
    }

    ghost predicate Valid()
      reads this
    {
      && start == NewCall(start.kind, start.base, start.count, QUIET)
      && Now().Some? && Now().value.0.sock == Sock(pending, errq)
    }

    /** The latest call is at this point, having sent these headers. */
    ghost predicate At(c: Call, out: seq<Header>)
      reads this
    {
      Valid() && Now() == Some((c, out))
    }

    constructor (w: World, host: Host)
      ensures Valid() && sent == [] && pending == [] && errq == []
      ensures this.w == w && this.host == host
    {
      this.w, this.host := w, host;
      sent, pending, errq, lag := [], [], [], 0;
      start, evs := NewCall(Req, 0, 0, QUIET), [];
    }

    lemma Alignment()
      requires Valid()
      ensures var (c, out) := Now().value;
        && Aligned(w, c) && c.kind == start.kind && c.base == start.base && c.count == start.count
        && SentSoFar(w, c, out)
    {
      SenderTrace(w, start.kind, start.base, start.count, evs);
    }

    /** A finished call has sent its whole trace, and the socket is quiet. */
    lemma Finished()
      requires Valid() && Now().value.0.pc.Done?
      ensures Now().value.1 == Pairs(w, start.kind, Range(start.base, start.count))
      ensures pending == [] && errq == []
    {
      SenderTrace(w, start.kind, start.base, start.count, evs);
    }

    ghost method BeginCall(kind: Kind, base: u32, count: nat)
      requires Valid() && pending == [] && errq == []
      modifies `start, `evs
      ensures At(NewCall(kind, base, count, QUIET), [])
      ensures start == NewCall(kind, base, count, QUIET)
    {
      start, evs := NewCall(kind, base, count, QUIET), [];
    }

    ghost method Record(e: CallEvent)
      requires Now().Some? && CallReady(Now().value.0, e)
      modifies `evs
      ensures var (c, out) := old(Now()).value;
        var (c', more) := CallStep(w, c, e);
        Now() == Some((c', out + more))
    {
      CallRunStep(w, start, evs, e);
      evs := evs + [e];
    }

    /** `sendto`: the datagram goes out and the kernel owes its two transmit stamps. */
    method SendTo(payload: seq<byte>, ghost h: Header)
      requires |payload| >= HEADER_SIZE && Decode(host, payload) == h
      requires Valid() && CanAct(Now().value.0) && Act(w, Now().value.0).1 == [h]
      requires Act(w, Now().value.0).0.sock == Transmit(Sock(pending, errq), h)
      modifies this
      ensures sent == old(sent) + [payload] && start == old(start)
      ensures At(Act(w, old(Now()).value.0).0, old(Now()).value.1 + [h])
    {
      Record(Program);
      sent := sent + [payload];
      pending := pending + StampsOf(Decode(host, payload));
    }

    /** The kernel queues one of the stamps it owes. */
    method KernelProgress()
      requires Valid() && pending != []
      modifies `pending, `errq, `lag, `evs
      ensures Valid() && |pending| == |old(pending)| - 1 && errq != []
      ensures Now() == Some((old(Now()).value.0.(sock := Sock(pending, errq)), old(Now()).value.1))
    {
      assert KernelReady(Sock(pending, errq), 0);
      var j: nat :| j < |pending| && KernelReady(Sock(pending, errq), j);
      Record(Kernel(j));
      errq := errq + [StampMessage(w, pending[j])];
      pending := WithoutIndex(pending, j);
      lag := *;
      assert old(Now()).value.1 + [] == old(Now()).value.1;
    }

    /**
      `recvmsg(.., MSG_ERRQUEUE)`, which does not block: the oldest message, or nothing yet. In between the kernel
      may have queued any number of the stamps it owes; `k` is the socket as the successful call found it.
     */
    method RecvErrQueue() returns (got: bool, control: seq<Cmsg>, ghost k: Sock)
      requires Valid() && Waits(Now().value.0.pc) && (pending != [] || errq != [])
      modifies `pending, `errq, `lag, `evs
      ensures Valid()
      ensures var (c, out) := old(Now()).value;
        if got then
          k.errq != [] && control == ControlOf(k.errq[0]) && Now() == Some((Act(w, c.(sock := k)).0, out))
        else
          && (pending != [] || errq != []) && Now() == Some((c.(sock := Sock(pending, errq)), out))
          && (|pending| < |old(pending)| || (pending == old(pending) && lag < old(lag)))
    {
      ghost var c, out := Now().value.0, Now().value.1;
      assert c == c.(sock := Sock(pending, errq));
      while pending != [] && lag == 0
        invariant Valid() && (pending != [] || errq != [])
        invariant Now() == Some((c.(sock := Sock(pending, errq)), out))
        invariant |pending| < |old(pending)| || (pending == old(pending) && lag == old(lag))
        decreases |pending|
      {
        KernelProgress();
      }
      k := Sock(pending, errq);
      if errq == [] {
        lag := lag - 1;
        return false, [], k;
      }
      control := ControlOf(errq[0]);
      Record(Program);
      errq := errq[1..];
      got := true;
      assert out + [] == out;
    }
  }

  // ----- send_udp_packets_timestamp -----

  function KindOf(pkttype: byte): (r: Kind)
  {
    if pkttype == DELAY_RESP then Resp else Req
  }

  lemma DatagramDecodes(from: Host, to: Host, h: Header, size: nat)
    requires size >= HEADER_SIZE
    ensures Decode(to, Datagram(from, h, size)) == h
  {
    HeaderRoundTrip(from, to, h, size, FillByte(h.typ));
  }

  /** The call has moved from one point to another within the same iteration. */
  ghost predicate Moved(c: Call, c': Call, pc: Pc)
  {
    c'.kind == c.kind && c'.base == c.base && c'.count == c.count && c'.i == c.i && c'.pc == pc
  }

  /** The first half of an iteration: fill in and send the first packet of the pair. */
  method SendFirst(sock: Socket, payload: array<byte>, pkttype: byte, current: u32, ghost c: Call, ghost out: seq<Header>)
    returns (hdr: Header, ghost c': Call)
    requires payload.Length >= HEADER_SIZE
    requires pkttype == DELAY_REQ || pkttype == DELAY_RESP
    requires sock.At(c, out) && c.pc.Head? && c.i < c.count && c.kind == KindOf(pkttype) && Current(c) == current
    modifies sock, payload
    ensures hdr == ToNetwork(sock.host, c'.hdr) && c'.hdr == First(sock.w, c.kind, current)
    ensures sock.At(c', out + [c'.hdr]) && Moved(c, c', AwaitSw) && sock.start == old(sock.start)
    ensures sock.sent == old(sock.sent) + [Datagram(sock.host, c'.hdr, payload.Length)]
  {
    hdr := ZERO_HEADER.(pktseq := Htonl(sock.host, current));
    var nanos := sock.w.clock(pkttype, current);
    if pkttype == DELAY_REQ {
      hdr := hdr.(t1 := Hton64(sock.host, nanos), typ := DELAY_REQ);
      FillPayload(payload, sock.host, hdr, 0x41);
    } else {
      hdr := hdr.(t3 := Hton64(sock.host, nanos), typ := DELAY_RESP);
      FillPayload(payload, sock.host, hdr, 0x43);
    }
    ghost var h := First(sock.w, c.kind, current);
    FirstInNetworkOrder(sock.w, sock.host, c.kind, current);
    DatagramDecodes(sock.host, sock.host, h, payload.Length);
    c' := Act(sock.w, c).0;
    sock.SendTo(payload[..], h);
  }

  /** The second half: add the NIC stamp to the header of the first packet, and send the follow-up. */
  method SendFollowUp(sock: Socket, payload: array<byte>, pkttype: byte, first: Header, nanos: u64,
                      ghost c: Call, ghost out: seq<Header>, ghost h: Header)
    returns (ghost c': Call)
    requires payload.Length >= HEADER_SIZE
    requires pkttype == DELAY_REQ || pkttype == DELAY_RESP
    requires sock.At(c, out) && c.pc.SendFollow? && c.kind == KindOf(pkttype)
    requires first == ToNetwork(sock.host, h) && c.hdr == WithStamp(c.kind, h, nanos)
    modifies sock, payload
    ensures sock.At(c', out + [c.hdr]) && Moved(c, c', AwaitFollowSw) && sock.start == old(sock.start)
    ensures sock.sent == old(sock.sent) + [Datagram(sock.host, c.hdr, payload.Length)]
  {
    var hdr;
    if pkttype == DELAY_REQ {
      hdr := first.(t2 := Hton64(sock.host, nanos), typ := DELAY_REQ_FOLLOW_UP);
      FillPayload(payload, sock.host, hdr, 0x42);
    } else {
      hdr := first.(t4 := Hton64(sock.host, nanos), typ := DELAY_RESP_FOLLOW_UP);
      FillPayload(payload, sock.host, hdr, 0x44);
    }
    assert hdr == ToNetwork(sock.host, c.hdr);
    DatagramDecodes(sock.host, sock.host, c.hdr, payload.Length);
    c' := Act(sock.w, c).0;
    sock.SendTo(payload[..], c.hdr);
  }

  /** Where the program is after a receive on the error queue. */
  function AfterStamp(pc: Pc): (r: Pc)
  {
    match pc
    case AwaitSw => AwaitNic
    case AwaitNic => SendFollow
    case AwaitFollowSw => AwaitFollowNic
    case _ => Head
  }

  /** `do got = recvmsg(..) while (got < 0 && errno == EAGAIN)`: waits for the next stamp and takes it. */
  method AwaitStamp(sock: Socket, ghost c: Call, ghost out: seq<Header>) returns (control: seq<Cmsg>, ghost c': Call)
    requires sock.At(c, out) && Waits(c.pc)
    modifies sock`pending, sock`errq, sock`lag, sock`evs
    ensures sock.At(c', out)
    ensures Moved(c.(i := c'.i), c', AfterStamp(c.pc)) && c'.i == c.i + if c.pc.AwaitFollowNic? then 1 else 0
    ensures LastStamp(control).Some? && |LastStamp(control).value| == 3
    ensures c'.hdr == if c.pc.AwaitNic? then WithStamp(c.kind, c.hdr, Nanos(LastStamp(control).value[2])) else c.hdr
  {
    var got := false;
    ghost var k := Sock(sock.pending, sock.errq);
    control := [];
    sock.Alignment();
    assert c == c.(sock := k);
    while !got
      invariant sock.Valid()
      invariant !got ==> (sock.pending != [] || sock.errq != []) && sock.Now() == Some((c.(sock := Sock(sock.pending, sock.errq)), out))
      invariant got ==> k.errq != [] && control == ControlOf(k.errq[0]) && sock.Now() == Some((Act(sock.w, c.(sock := k)).0, out))
      decreases !got, |sock.pending|, sock.lag
    {
      got, control, k := sock.RecvErrQueue();
    }
    c' := Act(sock.w, c.(sock := k)).0;
    StampOfControl(k.errq[0]);
  }

  /** Sends the first packet and takes its two stamps; the second is the NIC's. */
  method SendAndStamp(sock: Socket, payload: array<byte>, pkttype: byte, current: u32, ghost c: Call, ghost out: seq<Header>)
    returns (hdr: Header, nanos: u64, ghost c': Call)
    requires payload.Length >= HEADER_SIZE
    requires pkttype == DELAY_REQ || pkttype == DELAY_RESP
    requires sock.At(c, out) && c.pc.Head? && c.i < c.count && c.kind == KindOf(pkttype) && Current(c) == current
    modifies sock, payload
    ensures var h := First(sock.w, c.kind, current);
      && hdr == ToNetwork(sock.host, h) && c'.hdr == WithStamp(c.kind, h, nanos)
      && sock.At(c', out + [h]) && Moved(c, c', SendFollow) && sock.start == old(sock.start)
      && sock.sent == old(sock.sent) + [Datagram(sock.host, h, payload.Length)]
  {
    hdr, c' := SendFirst(sock, payload, pkttype, current, c, out);
    ghost var h := c'.hdr;
    var control;
    control, c' := AwaitStamp(sock, c', out + [h]);
    var ts := RetrieveTimestamp(control);
    control, c' := AwaitStamp(sock, c', out + [h]);
    ts := RetrieveTimestamp(control);
    nanos := Nanos(ts.value[2]);
  }

  /** Sends the follow-up and drains its two stamps, which are not used. */
  method FollowAndDrain(sock: Socket, payload: array<byte>, pkttype: byte, first: Header, nanos: u64,
                        ghost c: Call, ghost out: seq<Header>, ghost h: Header)
    returns (ghost c': Call)
    requires payload.Length >= HEADER_SIZE
    requires pkttype == DELAY_REQ || pkttype == DELAY_RESP
    requires sock.At(c, out) && c.pc.SendFollow? && c.kind == KindOf(pkttype)
    requires first == ToNetwork(sock.host, h) && c.hdr == WithStamp(c.kind, h, nanos)
    modifies sock, payload
    ensures sock.At(c', out + [c.hdr]) && Moved(c.(i := c.i + 1), c', Head) && sock.start == old(sock.start)
    ensures sock.sent == old(sock.sent) + [Datagram(sock.host, c.hdr, payload.Length)]
  {
    var control;
    c' := SendFollowUp(sock, payload, pkttype, first, nanos, c, out, h);
    control, c' := AwaitStamp(sock, c', out + [c.hdr]);
    control, c' := AwaitStamp(sock, c', out + [c.hdr]);
  }

  /** What was sent before this call, and then these packets. */
  ghost predicate HasSent(host: Host, before: seq<seq<byte>>, hs: seq<Header>, size: nat, sent: seq<seq<byte>>)
    requires size >= HEADER_SIZE
  {
    sent == before + Datagrams(host, hs, size)
  }

  lemma DatagramsOneMore(host: Host, hs: seq<Header>, h: Header, size: nat)
    requires size >= HEADER_SIZE
    ensures Datagrams(host, hs + [h], size) == Datagrams(host, hs, size) + [Datagram(host, h, size)]
  {
  }

  lemma SentTwoMore(host: Host, before: seq<seq<byte>>, hs: seq<Header>, a: Header, b: Header, size: nat, sent: seq<seq<byte>>)
    requires size >= HEADER_SIZE && HasSent(host, before, hs, size, sent)
    ensures HasSent(host, before, (hs + [a]) + [b], size, sent + [Datagram(host, a, size)] + [Datagram(host, b, size)])
  {
    DatagramsOneMore(host, hs, a, size);
    DatagramsOneMore(host, hs + [a], b, size);
  }

  /** One iteration of the loop: a pair of packets out, their four stamps in. */
  method SendPair(sock: Socket, payload: array<byte>, pkttype: byte, current: u32,
                  ghost c: Call, ghost out: seq<Header>, ghost before: seq<seq<byte>>)
    returns (ghost c': Call, ghost out': seq<Header>)
    requires payload.Length >= HEADER_SIZE
    requires pkttype == DELAY_REQ || pkttype == DELAY_RESP
    requires sock.At(c, out) && c.pc.Head? && c.i < c.count && c.kind == KindOf(pkttype) && Current(c) == current
    requires HasSent(sock.host, before, out, payload.Length, sock.sent)
    modifies sock, payload
    ensures sock.At(c', out') && Moved(c.(i := c.i + 1), c', Head) && sock.start == old(sock.start)
    ensures HasSent(sock.host, before, out', payload.Length, sock.sent)
  {
    var hdr, nanos;
    hdr, nanos, c' := SendAndStamp(sock, payload, pkttype, current, c, out);
    ghost var first, follow := First(sock.w, c.kind, current), c'.hdr;
    c' := FollowAndDrain(sock, payload, pkttype, hdr, nanos, c', out + [first], first);
    out' := (out + [first]) + [follow];
    SentTwoMore(sock.host, before, out, first, follow, payload.Length, old(sock.sent));
  }

  lemma AllFilled(w: World, host: Host, kind: Kind, qs: seq<u32>, size: nat)
    requires size >= HEADER_SIZE
    ensures forall d :: d in Datagrams(host, Pairs(w, kind, qs), size) ==>
      |d| == size && d[4] <= DELAY_RESP_FOLLOW_UP && forall j :: HEADER_SIZE <= j < size ==> d[j] == 0x41 + d[4]
  {
    var hs := Pairs(w, kind, qs);
    forall d | d in Datagrams(host, hs, size)
      ensures |d| == size && d[4] <= DELAY_RESP_FOLLOW_UP && forall j :: HEADER_SIZE <= j < size ==> d[j] == 0x41 + d[4]
    {
      var i :| 0 <= i < |hs| && d == Datagram(host, hs[i], size);
      DatagramIsFilled(host, hs[i], size);
    }
  }

  /**
    The sender routine. On a quiet socket a call of a known type sends exactly the datagrams of first(base),
    followup(base), ..., followup(base+n-1), each follow-up carrying its own partner's NIC stamp, and leaves the
    socket quiet; its run is a finished run of the sender automaton. An unknown type exits before anything is sent.
   */
  method SendUdpPacketsTimestamp(sock: Socket, pkttype: byte, pktsize: nat, n: nat, base: u32) returns (ok: bool)
    requires pktsize >= HEADER_SIZE && base + n <= 0x8000_0000
    requires sock.Valid() && sock.pending == [] && sock.errq == []
    modifies sock
    ensures sock.Valid()
    ensures ok <==> n == 0 || pkttype == DELAY_REQ || pkttype == DELAY_RESP
    ensures !ok ==> sock.sent == old(sock.sent)
    ensures ok ==>
      && sock.start == NewCall(KindOf(pkttype), base, n, QUIET)
      && sock.Now().value.0.pc.Done? && sock.Now().value.1 == Pairs(sock.w, KindOf(pkttype), Range(base, n))
      && sock.sent == old(sock.sent) + Datagrams(sock.host, Pairs(sock.w, KindOf(pkttype), Range(base, n)), pktsize)
      && sock.pending == [] && sock.errq == []
    ensures ok ==> forall d :: d in sock.sent[|old(sock.sent)|..] ==>
      |d| == pktsize && d[4] <= DELAY_RESP_FOLLOW_UP && forall j :: HEADER_SIZE <= j < pktsize ==> d[j] == 0x41 + d[4]
  {
    var payload := new byte[pktsize];
    assert Datagrams(sock.host, [], pktsize) == [];
    sock.BeginCall(KindOf(pkttype), base, n);
    ghost var c, out := NewCall(KindOf(pkttype), base, n, QUIET), [];
    for i := 0 to n
      invariant sock.At(c, out) && sock.start == NewCall(KindOf(pkttype), base, n, QUIET)
      invariant c.pc.Head? && c.i == i && c.kind == KindOf(pkttype) && c.base == base && c.count == n
      invariant HasSent(sock.host, old(sock.sent), out, pktsize, sock.sent)
      invariant if i == 0 then sock.sent == old(sock.sent) else pkttype == DELAY_REQ || pkttype == DELAY_RESP
    {
      if pkttype != DELAY_REQ && pkttype != DELAY_RESP {
        return false;
      }
      var current: u32 := base + i;
      c, out := SendPair(sock, payload, pkttype, current, c, out, old(sock.sent));
    }
    sock.Record(Program);
    sock.Finished();
    AllFilled(sock.w, sock.host, KindOf(pkttype), Range(base, n), pktsize);
    assert sock.sent[|old(sock.sent)|..] == Datagrams(sock.host, out, pktsize);
    return true;
  }
}
