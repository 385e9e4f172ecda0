/** What the rows mean when the two hosts' NIC clocks differ by a constant. */
module ProtocolClocks {
  import opened Words
  import opened WireHeader
  import opened Stamps
  import opened Sender
  import opened Receiver
  import opened Protocol
  import opened ProtocolSafety

  /** When each first packet really left and arrived, in nanoseconds of the master's clock. */
  datatype Truth = Truth(left: (Kind, u32) -> int, arrived: (Kind, u32) -> int)

  /** The master's NIC shows these times, the slave's shows them `offset` nanoseconds later, both modulo 2^64. */
  ghost predicate Clocks(w: World, truth: Truth, offset: int)
  {
    forall q: u32 {:trigger truth.left(Req, q)} {:trigger truth.left(Resp, q)}
      {:trigger truth.arrived(Req, q)} {:trigger truth.arrived(Resp, q)} ::
      && SentNanos(w, Req, q) == Wrap64(truth.left(Req, q))
      && ReceivedNanos(w, Req, q) == Wrap64(truth.arrived(Req, q) + offset)
      && SentNanos(w, Resp, q) == Wrap64(truth.left(Resp, q) + offset)
      && ReceivedNanos(w, Resp, q) == Wrap64(truth.arrived(Resp, q))
  }

  function TrueDelay(truth: Truth, kind: Kind, q: u32): (r: int)
  {
    truth.arrived(kind, q) - truth.left(kind, q)
  }

  /**
    A complete slot holds the true one-way delay, plus the offset on the slave and minus it on the master, modulo
    2^64; so the two entries for `k` always add up to the offset-free two-way delay.
   */
  lemma OffsetCancels(w: World, net: Net, n: nat, evs: seq<Event>, s: State, truth: Truth, offset: int, k: u32)
    requires Reaches(w, net, n, evs, s) && Clocks(w, truth, offset)
    requires k < n && k < MASTER_SLOTS && Complete(w, Req, s.req, k) && Complete(w, Resp, s.resp, k)
    ensures |s.slave.slots| == n && |s.collector.slots| == MASTER_SLOTS
    ensures Row(s.slave, k) == Wrap64(TrueDelay(truth, Req, k) + offset)
    ensures Row(s.collector, k) == Wrap64(TrueDelay(truth, Resp, k) - offset)
    ensures Add64(Row(s.slave, k), Row(s.collector, k)) == Wrap64(TrueDelay(truth, Req, k) + TrueDelay(truth, Resp, k))
  {
    RowsByClocks(w, net, n, evs, s, truth, offset, k);
    OffsetArithmetic(truth.left(Req, k), truth.arrived(Req, k), truth.left(Resp, k), truth.arrived(Resp, k), offset);
  }

  lemma RowsByClocks(w: World, net: Net, n: nat, evs: seq<Event>, s: State, truth: Truth, offset: int, k: u32)
    requires Reaches(w, net, n, evs, s) && Clocks(w, truth, offset)
    requires k < n && k < MASTER_SLOTS && Complete(w, Req, s.req, k) && Complete(w, Resp, s.resp, k)
    ensures |s.slave.slots| == n && |s.collector.slots| == MASTER_SLOTS
    ensures Row(s.slave, k) == Sub64(Wrap64(truth.arrived(Req, k) + offset), Wrap64(truth.left(Req, k)))
    ensures Row(s.collector, k) == Sub64(Wrap64(truth.arrived(Resp, k)), Wrap64(truth.left(Resp, k) + offset))
  {
    CompleteRow(w, net, n, evs, s, k);
  }

  lemma OffsetArithmetic(left: int, arrived: int, back: int, home: int, offset: int)
    ensures Sub64(Wrap64(arrived + offset), Wrap64(left)) == Wrap64(arrived - left + offset)
    ensures Sub64(Wrap64(home), Wrap64(back + offset)) == Wrap64(home - back - offset)
    ensures Add64(Wrap64(arrived - left + offset), Wrap64(home - back - offset)) == Wrap64(arrived - left + (home - back))
  {
    WrapOps(arrived + offset, left);
    WrapOps(home, back + offset);
    WrapOps(arrived - left + offset, home - back - offset);
  }
}
