/**
  The two `do_recv` handlers as functions on the measurement table, and what the table says about the packets
  consumed so far. The slave's handler takes the requests, the master's the responses; they differ only in the two
  message types and in the header field that carries the transmit stamp.
 */
module Receiver {
  import opened Words
  import opened WireHeader
  import opened Stamps
  import opened Sender

  /** `struct p2pdelay`. */
  datatype Slot = Slot(sent: u64, recv: u64)

  const EMPTY_SLOT := Slot(0, 0)

  /** The measurements, their count, and whether the receive loop goes on. */
  datatype Table = Table(slots: seq<Slot>, total: nat, running: bool)

  /** Outcome of handling one packet: the new table, an unknown type (the program exits), or undefined behaviour. */
  datatype Verdict = Accepted(t: Table) | WrongType | Fault

  /** Slots in the master's table. */
  const MASTER_SLOTS: nat := 100

  function EmptyTable(size: nat): (r: Table)
  {
    Table(seq(size, _ => EMPTY_SLOT), 0, true)
  }

  /** The field of a follow-up that carries its partner's transmit stamp. */
  function Carried(kind: Kind, h: Header): (r: u64)
  {
    match kind
    case Req => h.t2
    case Resp => h.t4
  }

  /** Handling packet `h`, received with these stamps, in a session of `n` measurements. */
  function Handle(kind: Kind, n: nat, t: Table, h: Header, stamps: Option<seq<Timespec>>): (r: Verdict)
  {
    if h.typ == FirstType(kind) then
      if stamps.None? || |stamps.value| < 3 || h.pktseq >= |t.slots| then
        Fault
      else
        var slot := t.slots[h.pktseq].(recv := Nanos(stamps.value[2]));
        Accepted(Table(t.slots[h.pktseq := slot], t.total, t.total < n))
    else if h.typ == FollowType(kind) then
      if h.pktseq >= |t.slots| then
        Fault
      else
        var slot := t.slots[h.pktseq].(sent := Carried(kind, h));
        Accepted(Table(t.slots[h.pktseq := slot], t.total + 1, t.total + 1 < n))
    else
      WrongType
  }

  /** The receive stamps the kernel attaches to a packet. */
  function RxStamps(w: World, h: Header): (r: seq<Timespec>)
  {
    [NO_STAMP, NO_STAMP, w.nicRx(h.typ, h.pktseq)]
  }

  function HandleIn(w: World, kind: Kind, n: nat, t: Table, h: Header): (r: Verdict)
  {
    Handle(kind, n, t, h, Some(RxStamps(w, h)))
  }

  /** The row `store_results_to_file` writes for slot `k`. */
  function Row(t: Table, k: nat): (r: u64)
    requires k < |t.slots|
  {
    Sub64(t.slots[k].recv, t.slots[k].sent)
  }

  // ----- logs of consumed packets -----

  function NumberIfFollow(kind: Kind, h: Header): (r: seq<u32>)
    ensures |r| <= 1
  {
    if h.typ == FollowType(kind) then [h.pktseq] else []
  }

  /** The numbers of the follow-ups in a log, in order. */
  function FollowSeqs(kind: Kind, log: seq<Header>): (r: seq<u32>)
    ensures |r| <= |log|
  {
    if log == [] then [] else FollowSeqs(kind, log[..|log| - 1]) + NumberIfFollow(kind, log[|log| - 1])
  }

  predicate Genuine(w: World, kind: Kind, h: Header)
  {
    h == First(w, kind, h.pktseq) || h == FollowUp(w, kind, h.pktseq)
  }

  /** What a slot holds, in terms of which of its two packets are in the log. */
  ghost function SlotOf(w: World, kind: Kind, log: seq<Header>, k: u32): (r: Slot)
  {
    Slot(if FollowUp(w, kind, k) in log then SentNanos(w, kind, k) else 0,
         if First(w, kind, k) in log then ReceivedNanos(w, kind, k) else 0)
  }

  /** The table is exactly what the log says. */
  ghost predicate Reflects(w: World, kind: Kind, n: nat, t: Table, log: seq<Header>)
  {
    && t.total == |FollowSeqs(kind, log)|
    && t.running == (t.total < n)
    && |t.slots| <= 0x8000_0000
    && forall k: u32 :: k < |t.slots| ==> t.slots[k] == SlotOf(w, kind, log, k)
  }

  lemma AppendFollow(kind: Kind, log: seq<Header>, h: Header)
    ensures FollowSeqs(kind, log + [h]) == FollowSeqs(kind, log) + NumberIfFollow(kind, h)
  {
    assert (log + [h])[..|log|] == log;
  }

  lemma AppendSlot(w: World, kind: Kind, log: seq<Header>, h: Header, k: u32)
    requires Genuine(w, kind, h)
    ensures k != h.pktseq ==> SlotOf(w, kind, log + [h], k) == SlotOf(w, kind, log, k)
    ensures h.typ == FirstType(kind) ==>
      SlotOf(w, kind, log + [h], h.pktseq) == SlotOf(w, kind, log, h.pktseq).(recv := ReceivedNanos(w, kind, h.pktseq))
    ensures h.typ == FollowType(kind) ==>
      SlotOf(w, kind, log + [h], h.pktseq) == SlotOf(w, kind, log, h.pktseq).(sent := SentNanos(w, kind, h.pktseq))
  {
  }

  /** Handling a genuine packet in range never faults or exits, and the table goes on reflecting the log. */
  lemma HandleKeepsReflects(w: World, kind: Kind, n: nat, t: Table, log: seq<Header>, h: Header)
    requires Reflects(w, kind, n, t, log)
    requires Genuine(w, kind, h) && h.pktseq < |t.slots|
    ensures HandleIn(w, kind, n, t, h).Accepted?
    ensures Reflects(w, kind, n, HandleIn(w, kind, n, t, h).t, log + [h])
    ensures |HandleIn(w, kind, n, t, h).t.slots| == |t.slots|
  {
    AppendFollow(kind, log, h);
    var t' := HandleIn(w, kind, n, t, h).t;
    forall k: u32 | k < |t.slots|
      ensures t'.slots[k] == SlotOf(w, kind, log + [h], k)
    {
      AppendSlot(w, kind, log, h, k);
    }
  }

  lemma EmptyReflects(w: World, kind: Kind, n: nat, size: nat)
    requires 1 <= n && size <= 0x8000_0000
    ensures Reflects(w, kind, n, EmptyTable(size), [])
  {
  }

  // ----- follow-ups in concatenations, permutations and traces -----

  lemma {:induction false} FollowSeqsConcat(kind: Kind, a: seq<Header>, b: seq<Header>)
    ensures FollowSeqs(kind, a + b) == FollowSeqs(kind, a) + FollowSeqs(kind, b)
  {
    if b == [] {
      assert a + b == a;
    } else {
      var front, last := b[..|b| - 1], b[|b| - 1];
      FollowSeqsConcat(kind, a, front);
      var fa, ff, one := FollowSeqs(kind, a), FollowSeqs(kind, front), NumberIfFollow(kind, last);
      assert FollowSeqs(kind, b) == ff + one;
      assert FollowSeqs(kind, a + b) == (fa + ff) + one by {
        assert a + b == (a + front) + [last];
        AppendFollow(kind, a + front, last);
      }
      assert (fa + ff) + one == fa + (ff + one);
    }
  }

  lemma FollowSeqsWithout(kind: Kind, s: seq<Header>, j: nat)
    requires j < |s|
    ensures |FollowSeqs(kind, s)| == |FollowSeqs(kind, WithoutIndex(s, j))| + if s[j].typ == FollowType(kind) then 1 else 0
  {
    var a, b := s[..j], s[j + 1..];
    assert s == a + [s[j]] + b;
    FollowSeqsConcat(kind, a + [s[j]], b);
    FollowSeqsConcat(kind, a, b);
    AppendFollow(kind, a, s[j]);
  }

  lemma MultisetWithout<T>(s: seq<T>, j: nat)
    requires j < |s|
    ensures multiset(s) == multiset(WithoutIndex(s, j)) + multiset{s[j]}
    ensures multiset(WithoutIndex(s, j)) == multiset(s) - multiset{s[j]}
  {
    assert s == s[..j] + [s[j]] + s[j + 1..];
  }

  /** The number of follow-ups does not depend on the order of the packets. */
  lemma {:induction false} FollowSeqsPermutation(kind: Kind, a: seq<Header>, b: seq<Header>)
    requires multiset(a) == multiset(b)
    ensures |FollowSeqs(kind, a)| == |FollowSeqs(kind, b)|
    decreases |a|
  {
    if a == [] {
      assert |multiset(b)| == 0;
    } else {
      var n := |a| - 1;
      assert a[n] in multiset(b);
      var j :| 0 <= j < |b| && b[j] == a[n];
      assert multiset(a[..n]) == multiset(WithoutIndex(b, j)) by {
        MultisetWithout(a, n);
        MultisetWithout(b, j);
        assert WithoutIndex(a, n) == a[..n];
      }
      FollowSeqsPermutation(kind, a[..n], WithoutIndex(b, j));
      FollowSeqsWithout(kind, b, j);
    }
  }

  lemma {:induction false} InFollowSeqs(w: World, kind: Kind, log: seq<Header>, q: u32)
    requires forall h :: h in log ==> Genuine(w, kind, h)
    ensures q in FollowSeqs(kind, log) <==> FollowUp(w, kind, q) in log
  {
    if log != [] {
      var n := |log| - 1;
      InFollowSeqs(w, kind, log[..n], q);
      assert log == log[..n] + [log[n]];
      assert Genuine(w, kind, log[n]);
    }
  }

  ghost predicate Distinct<T>(s: seq<T>)
  {
    forall i, j :: 0 <= i < j < |s| ==> s[i] != s[j]
  }

  lemma {:induction false} FollowSeqsDistinct(w: World, kind: Kind, log: seq<Header>)
    requires Distinct(log) && forall h :: h in log ==> Genuine(w, kind, h)
    ensures Distinct(FollowSeqs(kind, log))
  {
    if log != [] {
      var n := |log| - 1;
      FollowSeqsDistinct(w, kind, log[..n]);
      InFollowSeqs(w, kind, log[..n], log[n].pktseq);
      assert Genuine(w, kind, log[n]);
      assert log[n] !in log[..n];
    }
  }

  lemma TraceAt(w: World, kind: Kind, qs: seq<u32>, i: nat)
    requires i < 2 * |qs|
    ensures var h := Pairs(w, kind, qs)[i];
      && h.pktseq == qs[i / 2] && Genuine(w, kind, h)
      && (h.typ == FollowType(kind) <==> i % 2 == 1)
  {
  }

  lemma {:induction false} FollowSeqsOfAlternating(kind: Kind, log: seq<Header>, qs: seq<u32>)
    requires |log| <= 2 * |qs|
    requires forall i :: 0 <= i < |log| ==> log[i].pktseq == qs[i / 2] && (log[i].typ == FollowType(kind) <==> i % 2 == 1)
    ensures FollowSeqs(kind, log) == qs[..|log| / 2]
  {
    if log != [] {
      var n := |log| - 1;
      FollowSeqsOfAlternating(kind, log[..n], qs);
      assert FollowSeqs(kind, log) == qs[..n / 2] + NumberIfFollow(kind, log[n]);
      if n % 2 == 1 {
        assert |log| / 2 == n / 2 + 1 && NumberIfFollow(kind, log[n]) == [qs[n / 2]];
      } else {
        assert |log| / 2 == n / 2 && NumberIfFollow(kind, log[n]) == [];
      }
    }
  }

  /** The follow-ups in a prefix of a trace are those of the numbers it has completed. */
  lemma FollowSeqsOfTrace(w: World, kind: Kind, qs: seq<u32>, m: nat)
    requires m <= 2 * |qs|
    ensures FollowSeqs(kind, Pairs(w, kind, qs)[..m]) == qs[..m / 2]
  {
    var log := Pairs(w, kind, qs)[..m];
    forall i | 0 <= i < m
      ensures log[i].pktseq == qs[i / 2] && (log[i].typ == FollowType(kind) <==> i % 2 == 1)
    {
      TraceAt(w, kind, qs, i);
    }
    FollowSeqsOfAlternating(kind, log, qs);
  }

  lemma TraceIsGenuine(w: World, kind: Kind, qs: seq<u32>, h: Header)
    requires h in Pairs(w, kind, qs)
    ensures Genuine(w, kind, h) && h.pktseq in qs
  {
  }

  /** A trace over distinct numbers contains no packet twice. */
  lemma TraceIsDistinct(w: World, kind: Kind, qs: seq<u32>)
    requires Distinct(qs)
    ensures Distinct(Pairs(w, kind, qs))
  {
    var p := Pairs(w, kind, qs);
    forall i, j | 0 <= i < j < |p|
      ensures p[i] != p[j]
    {
      if i / 2 == j / 2 {
        assert p[i].typ == FirstType(kind) && p[j].typ == FollowType(kind);
      } else {
        assert p[i].pktseq == qs[i / 2] && p[j].pktseq == qs[j / 2];
      }
    }
  }

  /** A distinct sequence has as many members as entries. */
  lemma {:induction false} DistinctCardinality<T>(s: seq<T>)
    requires Distinct(s)
    ensures |(set x | x in s)| == |s|
  {
    if s != [] {
      var n := |s| - 1;
      DistinctCardinality(s[..n]);
      assert (set x | x in s) == (set x | x in s[..n]) + {s[n]};
      assert s[n] !in s[..n];
    }
  }

  // ----- the receive loops -----

  /** What one receive delivers: the end of the stream, or a header with its stamps. */
  datatype Message = Closed | Message(h: Header, stamps: Option<seq<Timespec>>)

  /**
    How many messages a receive loop takes, and the table it leaves; `None` when the last of them ended the program.
    At the end of the stream the loop ends like at the count, and the table is written out.
   */
  datatype LoopEnd = LoopEnd(used: nat, table: Option<Table>)

  /** The receive loop on what arrives: receive once, then go on while something was received and more is wanted. */
  function ReceiveAll(kind: Kind, n: nat, t: Table, ms: seq<Message>): (r: LoopEnd)
    ensures r.used <= |ms|
    decreases |ms|
  {
    if ms == [] then
      LoopEnd(0, Some(t))
    else if ms[0].Closed? then
      LoopEnd(1, Some(t))
    else
      match Handle(kind, n, t, ms[0].h, ms[0].stamps)
      case Accepted(t') =>
        if t'.running then
          var rest := ReceiveAll(kind, n, t', ms[1..]);
          LoopEnd(1 + rest.used, rest.table)
        else
          LoopEnd(1, Some(t'))
      case _ => LoopEnd(1, None)
  }

  /** One turn of the loop, at message `k`. */
  lemma ReceiveAllTurn(kind: Kind, n: nat, t: Table, ms: seq<Message>, k: nat)
    requires k < |ms|
    ensures ReceiveAll(kind, n, t, ms[k..]) ==
      match ms[k]
      case Closed => LoopEnd(1, Some(t))
      case Message(h, stamps) =>
        match Handle(kind, n, t, h, stamps)
        case Accepted(t') =>
          if t'.running then
            var rest := ReceiveAll(kind, n, t', ms[k + 1..]);
            LoopEnd(1 + rest.used, rest.table)
          else
            LoopEnd(1, Some(t'))
        case _ => LoopEnd(1, None)
  {
    assert ms[k..][0] == ms[k] && ms[k..][1..] == ms[k + 1..];
  }

  predicate IsFollowUp(kind: Kind, m: Message)
  {
    m.Message? && m.h.typ == FollowType(kind)
  }

  function FollowUpsIn(kind: Kind, ms: seq<Message>): (r: nat)
  {
    if ms == [] then 0 else FollowUpsIn(kind, ms[1..]) + if IsFollowUp(kind, ms[0]) then 1 else 0
  }

  /** The table after handling all of these, if every one can be handled. */
  function HandleAll(kind: Kind, n: nat, t: Table, ms: seq<Message>): (r: Option<Table>)
  {
    if ms == [] then
      Some(t)
    else
      match HandleAll(kind, n, t, ms[..|ms| - 1])
      case None => None
      case Some(mid) => HandleOne(kind, n, mid, ms[|ms| - 1])
  }

  function HandleOne(kind: Kind, n: nat, t: Table, m: Message): (r: Option<Table>)
  {
    if m.Closed? then
      None
    else
      match Handle(kind, n, t, m.h, m.stamps)
      case Accepted(t') => Some(t')
      case _ => None
  }

  lemma {:induction false} HandleAllFront(kind: Kind, n: nat, t: Table, t': Table, ms: seq<Message>)
    requires ms != [] && HandleOne(kind, n, t, ms[0]) == Some(t')
    ensures HandleAll(kind, n, t, ms) == HandleAll(kind, n, t', ms[1..])
  {
    var front := ms[..|ms| - 1];
    if front == [] {
      assert HandleAll(kind, n, t, ms[..0]) == Some(t);
    } else {
      HandleAllFront(kind, n, t, t', front);
      assert front[1..] == ms[1..][..|ms| - 2];
    }
  }

  /** The messages taken that held a packet: all but a final end of stream. */
  function PacketsTaken(ms: seq<Message>, used: nat): (r: nat)
    requires used <= |ms|
    ensures r <= used
  {
    if used > 0 && ms[used - 1].Closed? then used - 1 else used
  }

  /** What a loop that starts short of `n` takes: every message was still wanted, and it stops for a reason. */
  ghost predicate TakesWhatIsWanted(kind: Kind, n: nat, t: Table, ms: seq<Message>, r: LoopEnd)
  {
    && r.used <= |ms|
    && (forall j :: 0 <= j < r.used ==> t.total + FollowUpsIn(kind, ms[..j]) < n)
    && (forall j :: 0 <= j < r.used - 1 ==> ms[j].Message?)
    && (r.table.Some? ==>
          && r.table == HandleAll(kind, n, t, ms[..PacketsTaken(ms, r.used)])
          && r.table.value.total == t.total + FollowUpsIn(kind, ms[..r.used]) <= n
          && (r.used < |ms| ==> r.table.value.total == n || (r.used > 0 && ms[r.used - 1].Closed?)))
    && (r.table.None? ==>
          r.used > 0 && ms[r.used - 1].Message? && !Handles(kind, |t.slots|, ms[r.used - 1]))
  }

  /** A message of one of the two known types, with a slot and, for a first packet, its stamps. */
  predicate Handles(kind: Kind, size: nat, m: Message)
  {
    && m.Message? && m.h.pktseq < size
    && (m.h.typ == FollowType(kind) || (m.h.typ == FirstType(kind) && m.stamps.Some? && |m.stamps.value| >= 3))
  }

  lemma HandlesIff(kind: Kind, n: nat, t: Table, m: Message)
    requires m.Message?
    ensures var v := Handle(kind, n, t, m.h, m.stamps);
      && (v.Accepted? <==> Handles(kind, |t.slots|, m))
      && (v.Accepted? ==>
            && |v.t.slots| == |t.slots| && v.t.running == (v.t.total < n)
            && v.t.total == t.total + if IsFollowUp(kind, m) then 1 else 0)
      && (v.WrongType? <==> m.h.typ != FirstType(kind) && m.h.typ != FollowType(kind))
  {
  }

  lemma FirstThenRest(kind: Kind, ms: seq<Message>, j: nat)
    requires 1 <= j <= |ms|
    ensures FollowUpsIn(kind, ms[..j]) == FollowUpsIn(kind, ms[1..][..j - 1]) + if IsFollowUp(kind, ms[0]) then 1 else 0
  {
    assert ms[..j][1..] == ms[1..][..j - 1];
  }

  lemma TakesFirst(kind: Kind, n: nat, t: Table, t': Table, ms: seq<Message>, rest: LoopEnd)
    requires ms != [] && t.total < n && HandleOne(kind, n, t, ms[0]) == Some(t')
    requires t'.total == t.total + (if IsFollowUp(kind, ms[0]) then 1 else 0) && |t'.slots| == |t.slots|
    requires TakesWhatIsWanted(kind, n, t', ms[1..], rest)
    ensures TakesWhatIsWanted(kind, n, t, ms, LoopEnd(1 + rest.used, rest.table))
  {
    forall j | 0 <= j < 1 + rest.used
      ensures t.total + FollowUpsIn(kind, ms[..j]) < n
    {
      if j > 0 {
        FirstThenRest(kind, ms, j);
      }
    }
    forall j | 0 <= j < rest.used
      ensures ms[j].Message?
    {
      assert j > 0 ==> ms[j] == ms[1..][j - 1];
    }
    FirstThenRest(kind, ms, 1 + rest.used);
    HandleFirst(kind, n, t, t', ms, rest.used);
  }

  lemma HandleFirst(kind: Kind, n: nat, t: Table, t': Table, ms: seq<Message>, used: nat)
    requires used < |ms| && HandleOne(kind, n, t, ms[0]) == Some(t')
    ensures HandleAll(kind, n, t, ms[..PacketsTaken(ms, 1 + used)]) ==
      HandleAll(kind, n, t', ms[1..][..PacketsTaken(ms[1..], used)])
  {
    var k := PacketsTaken(ms[1..], used);
    assert ms[..1 + k][1..] == ms[1..][..k];
    HandleAllFront(kind, n, t, t', ms[..1 + k]);
  }

  /**
    Every message the loop takes was still wanted, so the n-th follow-up is the last it takes; it counts the
    follow-ups, and leaves messages untouched only at `n` or at the end of the stream. The program ends just at a
    message of an unknown type, without a slot, or without the stamps it needs.
   */
  lemma {:induction false} LoopCounts(kind: Kind, n: nat, t: Table, ms: seq<Message>)
    requires t.total < n
    ensures TakesWhatIsWanted(kind, n, t, ms, ReceiveAll(kind, n, t, ms))
    decreases |ms|
  {
    if ms != [] && ms[0].Message? {
      HandlesIff(kind, n, t, ms[0]);
      var v := Handle(kind, n, t, ms[0].h, ms[0].stamps);
      if v.Accepted? {
        if v.t.running {
          LoopCounts(kind, n, v.t, ms[1..]);
          TakesFirst(kind, n, t, v.t, ms, ReceiveAll(kind, n, v.t, ms[1..]));
        } else {
          TakesFirst(kind, n, t, v.t, ms, LoopEnd(0, Some(v.t)));
        }
      }
    } else if ms != [] {
      FirstThenRest(kind, ms, 1);
    }
  }

  /** Packets of the peer as they are received, with the stamps the kernel gives them. */
  function PeerMessages(w: World, hs: seq<Header>): (r: seq<Message>)
    ensures |r| == |hs|
  {
    seq(|hs|, i requires 0 <= i < |hs| => Message(hs[i], Some(RxStamps(w, hs[i]))))
  }

  lemma ShiftFirst<T>(log: seq<T>, hs: seq<T>, k: nat)
    requires 1 <= k <= |hs|
    ensures log + hs[..k] == (log + [hs[0]]) + hs[1..][..k - 1]
  {
  }

  /**
    Whatever genuine packets arrive, in whatever order, a receive loop neither faults nor exits, and its table says
    exactly what the packets it took carried.
   */
  lemma {:induction false} LoopReflects(w: World, kind: Kind, n: nat, t: Table, log: seq<Header>, hs: seq<Header>)
    requires Reflects(w, kind, n, t, log)
    requires forall i :: 0 <= i < |hs| ==> Genuine(w, kind, hs[i]) && hs[i].pktseq < |t.slots|
    ensures var r := ReceiveAll(kind, n, t, PeerMessages(w, hs));
      r.table.Some? && Reflects(w, kind, n, r.table.value, log + hs[..r.used])
    decreases |hs|
  {
    var ms := PeerMessages(w, hs);
    var r := ReceiveAll(kind, n, t, ms);
    if hs == [] {
      assert log + hs[..r.used] == log;
    } else {
      HandleKeepsReflects(w, kind, n, t, log, hs[0]);
      var t' := HandleIn(w, kind, n, t, hs[0]).t;
      if t'.running {
        assert ms[1..] == PeerMessages(w, hs[1..]);
        LoopReflects(w, kind, n, t', log + [hs[0]], hs[1..]);
        ShiftFirst(log, hs, r.used);
      } else {
        assert hs[..1] == [hs[0]];
      }
    }
  }
}
