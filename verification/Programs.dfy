/** The slave and the master: their handlers, receive loops and result files, over the sockets of `Endpoints`. */
module Programs {
  import opened Words
  import opened ByteOrder
  import opened WireHeader
  import opened Stamps
  import opened Sender
  import opened Receiver
  import opened Endpoints

  const PAYLOAD_SIZE: nat := 900
  const REPLY_SIZE: nat := 890

  /** What a call of `do_recv` comes to; `Exited` and `Faulted` end the program. */
  datatype Outcome = Received(got: nat) | EndOfStream | Exited | Faulted

  /** The receive loop is over, or waits for more, and the program goes on to its results. */
  predicate Ended(o: Outcome)
  {
    o.Received? || o.EndOfStream?
  }

  /** A datagram and the control messages that arrive with it. */
  datatype Arrival = Arrival(datagram: seq<byte>, control: seq<Cmsg>)

  /** An empty datagram, or one that holds at least a header. */
  predicate Readable(a: Arrival)
  {
    a.datagram == [] || |a.datagram| >= HEADER_SIZE
  }

  /** What `recvmsg` leaves in the receive buffer. */
  function Buffered(a: Arrival): (r: seq<byte>)
    ensures r <= a.datagram && |r| == if |a.datagram| <= PAYLOAD_SIZE then |a.datagram| else PAYLOAD_SIZE
  {
    if |a.datagram| > PAYLOAD_SIZE then a.datagram[..PAYLOAD_SIZE] else a.datagram
  }

  /** What a host reads in an arrival. */
  function MessageOf(host: Host, a: Arrival): (r: Message)
    requires Readable(a)
  {
    if a.datagram == [] then Closed else Message(Decode(host, Buffered(a)), LastStamp(a.control))
  }

  function MessagesOf(host: Host, inbox: seq<Arrival>): (r: seq<Message>)
    requires forall a :: a in inbox ==> Readable(a)
    ensures |r| == |inbox|
  {
    seq(|inbox|, i requires 0 <= i < |inbox| => MessageOf(host, inbox[i]))
  }

  /** `store_results_to_file`: the rows `recv_tt - sent_tt` of the first `total` slots. */
  method StoreResults(slots: array<Slot>, total: nat) returns (rows: seq<u64>)
    requires total <= slots.Length
    ensures |rows| == total
    ensures forall k :: 0 <= k < total ==> rows[k] == Row(Table(slots[..], total, false), k)
  {
    rows := [];
    for i := 0 to total
      invariant |rows| == i
      invariant forall k :: 0 <= k < i ==> rows[k] == Row(Table(slots[..], total, false), k)
    {
      rows := rows + [Sub64(slots[i].recv, slots[i].sent)];
    }
  }

  // ----- slave.c -----

  class Slave {
    const n: nat
    const sock: Socket
    const slots: array<Slot>
    var total: nat

    ghost predicate Valid()
      reads this, sock
    {
      slots.Length == n <= 0x8000_0000 && sock.Valid() && sock.pending == [] && sock.errq == []
    }

    /** The measurement table. */
    ghost function View(): (r: Table)
      reads this, slots
    {
      Table(slots[..], total, total < n)
    }

    constructor (n: nat, sock: Socket)
      requires 1 <= n <= 0x8000_0000 && sock.Valid() && sock.pending == [] && sock.errq == []
      ensures Valid() && View() == EmptyTable(n) && this.n == n && this.sock == sock && fresh(slots)
    {
      this.n, this.sock, total := n, sock, 0;
      slots := new Slot[n](_ => EMPTY_SLOT);
    }

    /** The last reply: a finished call of the sender routine for this number, and its two datagrams sent. */
    ghost predicate Replied(q: u32, before: seq<seq<byte>>)
      reads this, sock
    {
      && sock.start == NewCall(Resp, q, 1, QUIET)
      && sock.Now().Some? && sock.Now().value.0.pc.Done? && sock.Now().value.1 == Pairs(sock.w, Resp, [q])
      && sock.sent == before + Datagrams(sock.host, Pairs(sock.w, Resp, [q]), REPLY_SIZE)
    }

    /**
      `do_recv`: the table changes as `Handle` says; a request follow-up is answered by exactly one pair before the
      call returns, and nothing else sends anything.
     */
    method DoRecv(a: Arrival) returns (o: Outcome)
      requires Valid() && Readable(a)
      modifies this`total, slots, sock
      ensures match MessageOf(sock.host, a)
        case Closed => o == EndOfStream && Valid() && View() == old(View()) && sock.sent == old(sock.sent)
        case Message(h, stamps) =>
          match Handle(Req, n, old(View()), h, stamps)
          case Accepted(t) =>
            && o == Received(|Buffered(a)|) && Valid() && View() == t
            && (h.typ == DELAY_REQ_FOLLOW_UP ==> Replied(h.pktseq, old(sock.sent)))
            && (h.typ != DELAY_REQ_FOLLOW_UP ==> sock.sent == old(sock.sent))
          case WrongType => o == Exited && View() == old(View()) && sock.sent == old(sock.sent)
          case Fault => o == Faulted && sock.sent == old(sock.sent)
      ensures a.datagram != [] && a.datagram[4] != DELAY_REQ && a.datagram[4] != DELAY_REQ_FOLLOW_UP ==>
        o == Exited && View() == old(View()) && sock.sent == old(sock.sent)
      ensures o.Received? ==> o.got == if |a.datagram| <= PAYLOAD_SIZE then |a.datagram| else PAYLOAD_SIZE
    {
      var buffer := Buffered(a);
      var got := |buffer|;
      if got == 0 {
        return EndOfStream;
      }
      var hdr := StructAt(sock.host, buffer);
      var pktseq := Ntohl(sock.host, hdr.pktseq);
      var t2 := Ntoh64(sock.host, hdr.t2);
      var ts := RetrieveTimestamp(a.control);
      ghost var h := Decode(sock.host, buffer);
      assert h.pktseq == pktseq && h.typ == hdr.typ && h.t2 == t2;
      ghost var v := Handle(Req, n, View(), h, ts);
      var ok := true;
      if hdr.typ == DELAY_REQ {
        ok := OnRequest(pktseq, ts, h);
        assert if ok then v == Accepted(View()) else v == Fault;
      } else if hdr.typ == DELAY_REQ_FOLLOW_UP {
        ok := OnFollowUp(pktseq, t2, h);
        assert if ok then v == Accepted(View()) else v == Fault;
      } else {
        return Exited;
      }
      return if ok then Received(got) else Faulted;
    }

    /** The DELAY_REQ case: the receive stamp goes into the packet's slot. */
    method OnRequest(pktseq: u32, ts: Option<seq<Timespec>>, ghost h: Header) returns (ok: bool)
      requires h.typ == DELAY_REQ && h.pktseq == pktseq
      modifies slots
      ensures var v := Handle(Req, n, old(View()), h, ts);
        if ok then v == Accepted(View()) else v == Fault
    {
      if ts.None? || |ts.value| < 3 || pktseq >= slots.Length {
        return false;
      }
      slots[pktseq] := slots[pktseq].(recv := Nanos(ts.value[2]));
      return true;
    }

    /** The DELAY_REQ_FOLLOW_UP case: one more measurement, the transmit stamp into its slot, and the reply. */
    method OnFollowUp(pktseq: u32, t2: u64, ghost h: Header) returns (ok: bool)
      requires Valid() && h.typ == DELAY_REQ_FOLLOW_UP && h.pktseq == pktseq && h.t2 == t2
      modifies this`total, slots, sock
      ensures forall ts :: Handle(Req, n, old(View()), h, ts) == if ok then Accepted(View()) else Fault
      ensures if ok then Valid() && Replied(pktseq, old(sock.sent)) else sock.sent == old(sock.sent)
    {
      total := total + 1;
      if pktseq >= slots.Length {
        return false;
      }
      slots[pktseq] := slots[pktseq].(sent := t2);
      assert Range(pktseq, 1) == [pktseq];
      var known := SendUdpPacketsTimestamp(sock, DELAY_RESP, REPLY_SIZE, 1, pktseq);
      return true;
    }

    /** One turn of the receive loop: receive message `k`, and go on while something was received and more is wanted. */
    method Turn(inbox: seq<Arrival>, k: nat, ghost ms: seq<Message>) returns (o: Outcome, go: bool)
      requires Valid() && k < |inbox| && (forall a :: a in inbox ==> Readable(a)) && ms == MessagesOf(sock.host, inbox)
      modifies this`total, slots, sock
      ensures ReceiveAll(Req, n, old(View()), ms[k..]) ==
        if go then
          var rest := ReceiveAll(Req, n, View(), ms[k + 1..]);
          LoopEnd(1 + rest.used, rest.table)
        else
          LoopEnd(1, if Ended(o) then Some(View()) else None)
      ensures go ==> o.Received?
      ensures o == EndOfStream <==> inbox[k].datagram == []
      ensures Ended(o) ==> Valid()
    {
      ReceiveAllTurn(Req, n, View(), ms, k);
      o := DoRecv(inbox[k]);
      go := o.Received? && o.got > 0 && total < n;
    }

    /** The receive loop of `main`. */
    method ReceiveLoop(inbox: seq<Arrival>) returns (used: nat, o: Outcome)
      requires Valid() && View() == EmptyTable(n) && inbox != [] && forall a :: a in inbox ==> Readable(a)
      modifies this`total, slots, sock
      ensures var ms := MessagesOf(sock.host, inbox);
        var r := LoopEnd(used, if Ended(o) then Some(View()) else None);
        r == ReceiveAll(Req, n, old(View()), ms)
      ensures 0 < used <= |inbox| && (o == EndOfStream <==> inbox[used - 1].datagram == [])
      ensures Ended(o) ==> Valid()
    {
      used, o := 0, Received(0);
      var go := true;
      ghost var ms := MessagesOf(sock.host, inbox);
      ghost var all := ReceiveAll(Req, n, View(), ms);
      while go && used < |inbox|
        invariant used <= |inbox|
        invariant go ==> o.Received?
        invariant Ended(o) ==> Valid()
        invariant go ==> var rest := ReceiveAll(Req, n, View(), ms[used..]);
          all == LoopEnd(used + rest.used, rest.table)
        invariant !go ==> used > 0 && all == LoopEnd(used, if Ended(o) then Some(View()) else None)
        invariant used > 0 ==> (o == EndOfStream <==> inbox[used - 1].datagram == [])
      {
        o, go := Turn(inbox, used, ms);
        used := used + 1;
      }
      assert all == LoopEnd(used, if Ended(o) then Some(View()) else None);
    }

    /**
      `main`, once the socket is open: receive, then write the rows, also when the stream ended early.
      A message is taken only while a measurement is missing.
     */
    method Measure(inbox: seq<Arrival>) returns (used: nat, o: Outcome, rows: seq<u64>)
      requires Valid() && View() == EmptyTable(n) && inbox != [] && forall a :: a in inbox ==> Readable(a)
      modifies this`total, slots, sock
      ensures TakesWhatIsWanted(Req, n, EmptyTable(n), MessagesOf(sock.host, inbox),
                                LoopEnd(used, if Ended(o) then Some(View()) else None))
      ensures Ended(o) ==> |rows| == total && forall k :: 0 <= k < total ==> rows[k] == Row(View(), k)
      ensures !Ended(o) ==> rows == []
    {
      rows := [];
      used, o := ReceiveLoop(inbox);
      LoopCounts(Req, n, EmptyTable(n), MessagesOf(sock.host, inbox));
      if Ended(o) {
        rows := StoreResults(slots, total);
      }
    }
  }

  // ----- master.c -----

  class Master {
    const n: nat
    const sock: Socket
    const slots: array<Slot>
    var total: nat

    /** The measurement table. */
    ghost function View(): (r: Table)
      reads this, slots
    {
      Table(slots[..], total, total < n)
    }

    constructor (n: nat, sock: Socket)
      requires 1 <= n
      ensures View() == EmptyTable(MASTER_SLOTS) && this.n == n && this.sock == sock && fresh(slots)
    {
      this.n, this.sock, total := n, sock, 0;
      slots := new Slot[MASTER_SLOTS](_ => EMPTY_SLOT);
    }

    /** The sender thread: one call of the sender routine for all `n` requests. */
    method SendPackets() returns (ok: bool)
      requires n <= 0x8000_0000 && sock.Valid() && sock.pending == [] && sock.errq == []
      modifies sock
      ensures ok && sock.Valid() && sock.pending == [] && sock.errq == []
      ensures sock.start == NewCall(Req, 0, n, QUIET)
      ensures sock.Now().value.0.pc.Done? && sock.Now().value.1 == Pairs(sock.w, Req, Range(0, n))
      ensures sock.sent == old(sock.sent) + Datagrams(sock.host, Pairs(sock.w, Req, Range(0, n)), PAYLOAD_SIZE)
    {
      ok := SendUdpPacketsTimestamp(sock, DELAY_REQ, PAYLOAD_SIZE, n, 0);
    }

    /** `do_recv` of the main thread: the table changes as `Handle` says. */
    method DoRecv(a: Arrival) returns (o: Outcome)
      requires Readable(a)
      modifies this`total, slots
      ensures match MessageOf(sock.host, a)
        case Closed => o == EndOfStream && View() == old(View())
        case Message(h, stamps) =>
          match Handle(Resp, n, old(View()), h, stamps)
          case Accepted(t) => o == Received(|Buffered(a)|) && View() == t
          case WrongType => o == Exited && View() == old(View())
          case Fault => o == Faulted
      ensures a.datagram != [] && a.datagram[4] != DELAY_RESP && a.datagram[4] != DELAY_RESP_FOLLOW_UP ==>
        o == Exited && View() == old(View())
      ensures o.Received? ==> o.got == if |a.datagram| <= PAYLOAD_SIZE then |a.datagram| else PAYLOAD_SIZE
    {
      var buffer := Buffered(a);
      var got := |buffer|;
      if got == 0 {
        return EndOfStream;
      }
      var hdr := StructAt(sock.host, buffer);
      var pktseq := Ntohl(sock.host, hdr.pktseq);
      var t4 := Ntoh64(sock.host, hdr.t4);
      ghost var h := Decode(sock.host, buffer);
      assert h.pktseq == pktseq && h.typ == hdr.typ && h.t4 == t4;
      if hdr.typ == DELAY_RESP {
        var ts := RetrieveTimestamp(a.control);
        if ts.None? || |ts.value| < 3 || pktseq >= slots.Length {
          return Faulted;
        }
        slots[pktseq] := slots[pktseq].(recv := Nanos(ts.value[2]));
      } else if hdr.typ == DELAY_RESP_FOLLOW_UP {
        total := total + 1;
        if pktseq >= slots.Length {
          return Faulted;
        }
        slots[pktseq] := slots[pktseq].(sent := t4);
      } else {
        return Exited;
      }
      return Received(got);
    }

    /** One turn of the receive loop: receive message `k`, and go on while something was received and more is wanted. */
    method Turn(inbox: seq<Arrival>, k: nat, ghost ms: seq<Message>) returns (o: Outcome, go: bool)
      requires k < |inbox| && (forall a :: a in inbox ==> Readable(a)) && ms == MessagesOf(sock.host, inbox)
      modifies this`total, slots
      ensures ReceiveAll(Resp, n, old(View()), ms[k..]) ==
        if go then
          var rest := ReceiveAll(Resp, n, View(), ms[k + 1..]);
          LoopEnd(1 + rest.used, rest.table)
        else
          LoopEnd(1, if Ended(o) then Some(View()) else None)
      ensures go ==> o.Received?
      ensures o == EndOfStream <==> inbox[k].datagram == []
    {
      ReceiveAllTurn(Resp, n, View(), ms, k);
      o := DoRecv(inbox[k]);
      go := o.Received? && o.got > 0 && total < n;
    }

    /** The receive loop of `main`. */
    method ReceiveLoop(inbox: seq<Arrival>) returns (used: nat, o: Outcome)
      requires View() == EmptyTable(MASTER_SLOTS) && inbox != [] && forall a :: a in inbox ==> Readable(a)
      modifies this`total, slots
      ensures var ms := MessagesOf(sock.host, inbox);
        var r := LoopEnd(used, if Ended(o) then Some(View()) else None);
        r == ReceiveAll(Resp, n, old(View()), ms)
      ensures 0 < used <= |inbox| && (o == EndOfStream <==> inbox[used - 1].datagram == [])
    {
      used, o := 0, Received(0);
      var go := true;
      ghost var ms := MessagesOf(sock.host, inbox);
      ghost var all := ReceiveAll(Resp, n, View(), ms);
      while go && used < |inbox|
        invariant used <= |inbox|
        invariant go ==> o.Received?
        invariant go ==> var rest := ReceiveAll(Resp, n, View(), ms[used..]);
          all == LoopEnd(used + rest.used, rest.table)
        invariant !go ==> used > 0 && all == LoopEnd(used, if Ended(o) then Some(View()) else None)
        invariant used > 0 ==> (o == EndOfStream <==> inbox[used - 1].datagram == [])
      {
        o, go := Turn(inbox, used, ms);
        used := used + 1;
      }
      assert all == LoopEnd(used, if Ended(o) then Some(View()) else None);
    }

    /**
      `main`, once the socket is open, beside the sender thread: receive, then write the rows, also when the stream ended early.
      A message is taken only while a measurement is missing. A total past the table has no rows in the model.
     */
    method Measure(inbox: seq<Arrival>) returns (used: nat, o: Outcome, rows: seq<u64>)
      requires View() == EmptyTable(MASTER_SLOTS) && inbox != [] && forall a :: a in inbox ==> Readable(a)
      modifies this`total, slots
      ensures TakesWhatIsWanted(Resp, n, EmptyTable(MASTER_SLOTS), MessagesOf(sock.host, inbox),
                                LoopEnd(used, if Ended(o) then Some(View()) else None))
      ensures Ended(o) && total <= MASTER_SLOTS ==> |rows| == total && forall k :: 0 <= k < total ==> rows[k] == Row(View(), k)
      ensures !Ended(o) ==> rows == []
    {
      rows := [];
      used, o := ReceiveLoop(inbox);
      LoopCounts(Resp, n, EmptyTable(MASTER_SLOTS), MessagesOf(sock.host, inbox));
      if Ended(o) && total <= MASTER_SLOTS {
        rows := StoreResults(slots, total);
      }
    }
  }

  // ----- from one program's datagrams to the other's messages -----

  /**
    A datagram of the sender routine, arriving with its receive stamps on a host of either byte order, is the message
    of the packet it was made from.
   */
  lemma DatagramIsPeerMessage(w: World, from: Host, to: Host, hs: seq<Header>, i: nat, size: nat, a: Arrival)
    requires HEADER_SIZE <= size <= PAYLOAD_SIZE && i < |hs|
    requires a.datagram == Datagrams(from, hs, size)[i] && LastStamp(a.control) == Some(RxStamps(w, hs[i]))
    ensures Readable(a) && MessageOf(to, a) == PeerMessages(w, hs)[i]
  {
    DatagramDecodes(from, to, hs[i], size);
  }
}
