/**
  The latency accumulator of `ref/rx_timestamping.c`: three result arrays, a running count, the previous NIC->kernel
  difference and the accumulated drift, all modulo 2^64.
 */
module LatencyLog {
  import opened Words
  import opened Stamps

  datatype Timeval = Timeval(sec: int, usec: int)

  /** The stamps of one packet: `ts[2]`, `ts[0]` and the time of day at the receiver. */
  datatype Sample = Sample(nic: Timespec, kernel: Timespec, user: Timeval)

  function UserStamp(t: Timeval): (r: Timespec)
  {
    Timespec(t.sec, t.usec * 1000)
  }

  function NicKernel(s: Sample): (r: u64)
  {
    ComponentDiff(s.kernel, s.nic)
  }

  function KernelUser(s: Sample): (r: u64)
  {
    ComponentDiff(UserStamp(s.user), s.kernel)
  }

  function NicUser(s: Sample): (r: u64)
  {
    ComponentDiff(UserStamp(s.user), s.nic)
  }

  // ----- what the accumulators hold after a sequence of packets -----

  function Diffs(samples: seq<Sample>): (r: seq<u64>)
    ensures |r| == |samples|
  {
    seq(|samples|, i requires 0 <= i < |samples| => NicKernel(samples[i]))
  }

  function LastOrZero(ds: seq<u64>): (r: u64)
  {
    if ds == [] then 0 else ds[|ds| - 1]
  }

  /** `nic_kernel_total_diff` after these differences: a change is added only when the previous difference is not 0. */
  function Drift(ds: seq<u64>): (r: u64)
  {
    if ds == [] then
      0
    else
      var front := ds[..|ds| - 1];
      var previous := LastOrZero(front);
      if previous != 0 then Add64(Drift(front), Sub64(LastOrZero(ds), previous)) else Drift(front)
  }

  /** The differences that directly follow a zero, the first one counting as such. */
  predicate Restarts(ds: seq<u64>, i: nat)
    requires i < |ds|
  {
    i == 0 || ds[i - 1] == 0
  }

  /** The exact sum of those differences among the first `n`. */
  ghost function RestartSum(ds: seq<u64>, n: nat): (r: nat)
    requires n <= |ds|
  {
    if n == 0 then 0 else RestartSum(ds, n - 1) + if Restarts(ds, n - 1) then ds[n - 1] else 0
  }

  /** The samples of the packets that carried a timestamp. */
  function Stamped(packets: seq<Option<Sample>>): (r: seq<Sample>)
    ensures |r| <= |packets|
  {
    if packets == [] then
      []
    else
      var last := packets[|packets| - 1];
      Stamped(packets[..|packets| - 1]) + if last.Some? then [last.value] else []
  }

  lemma GrowDiffs(samples: seq<Sample>, s: Sample)
    ensures var ds := Diffs(samples);
      && LastOrZero(Diffs(samples + [s])) == NicKernel(s)
      && Drift(Diffs(samples + [s])) ==
           if LastOrZero(ds) != 0 then Add64(Drift(ds), Sub64(NicKernel(s), LastOrZero(ds))) else Drift(ds)
  {
    var ds, more := Diffs(samples), Diffs(samples + [s]);
    assert more == ds + [NicKernel(s)];
    assert more[..|ds|] == ds;
  }

  /** Packet `i` is in entry `i` of the first array and in entry `i + 1` of the other two. */
  ghost predicate Columns(nicKernel: seq<u64>, nicUser: seq<u64>, kernelUser: seq<u64>, samples: seq<Sample>)
  {
    && |nicUser| == |kernelUser| == |nicKernel|
    && (samples == [] || |samples| < |nicKernel|)
    && (forall i :: 0 <= i < |samples| ==> nicKernel[i] == NicKernel(samples[i]))
    && (forall i :: 1 <= i <= |samples| ==> nicUser[i] == NicUser(samples[i - 1]))
    && (forall i :: 1 <= i <= |samples| ==> kernelUser[i] == KernelUser(samples[i - 1]))
  }

  lemma GrowColumns(nicKernel: seq<u64>, nicUser: seq<u64>, kernelUser: seq<u64>, samples: seq<Sample>, s: Sample)
    requires Columns(nicKernel, nicUser, kernelUser, samples) && |samples| + 1 < |nicKernel|
    ensures var n := |samples|;
      Columns(nicKernel[n := NicKernel(s)], nicUser[n + 1 := NicUser(s)], kernelUser[n + 1 := KernelUser(s)], samples + [s])
  {
  }

  /** How many of the first `n` packets carried a timestamp. */
  ghost function StampedBefore(packets: seq<Option<Sample>>, n: nat): (r: nat)
    requires n <= |packets|
  {
    |set i | 0 <= i < n && packets[i].Some?|
  }

  /** The samples are those of the stamped packets, each in its place, and nothing else. */
  ghost predicate RecordsStamped(packets: seq<Option<Sample>>, samples: seq<Sample>)
  {
    && |samples| == StampedBefore(packets, |packets|)
    && forall i :: 0 <= i < |packets| && packets[i].Some? ==>
         StampedBefore(packets, i) < |samples| && samples[StampedBefore(packets, i)] == packets[i].value
  }

  lemma StampedBeforeStep(packets: seq<Option<Sample>>, n: nat)
    requires n < |packets|
    ensures StampedBefore(packets, n + 1) == StampedBefore(packets, n) + if packets[n].Some? then 1 else 0
  {
    var before := set i | 0 <= i < n && packets[i].Some?;
    var after := set i | 0 <= i < n + 1 && packets[i].Some?;
    assert after == if packets[n].Some? then before + {n} else before;
  }

  lemma StampedBeforeNone(packets: seq<Option<Sample>>, n: nat)
    requires n <= |packets| && forall i :: 0 <= i < n ==> packets[i].None?
    ensures StampedBefore(packets, n) == 0
  {
    assert (set i | 0 <= i < n && packets[i].Some?) == {};
  }

  lemma StampedBeforePrefix(packets: seq<Option<Sample>>, m: nat, n: nat)
    requires n <= m <= |packets|
    ensures StampedBefore(packets[..m], n) == StampedBefore(packets, n)
  {
    assert (set i | 0 <= i < n && packets[..m][i].Some?) == (set i | 0 <= i < n && packets[i].Some?);
  }

  lemma {:induction false} StampedRecords(packets: seq<Option<Sample>>)
    ensures RecordsStamped(packets, Stamped(packets))
  {
    if packets == [] {
      StampedBeforeNone(packets, 0);
    } else {
      var n := |packets| - 1;
      var front, samples := packets[..n], Stamped(packets);
      StampedRecords(front);
      StampedBeforeStep(packets, n);
      StampedBeforePrefix(packets, n, n);
      forall i | 0 <= i < |packets| && packets[i].Some?
        ensures StampedBefore(packets, i) < |samples| && samples[StampedBefore(packets, i)] == packets[i].value
      {
        StampedBeforePrefix(packets, n, i);
        assert i < n ==> front[i] == packets[i];
      }
    }
  }

  /** With a timestamp on every packet, packet `i` is sample `i`. */
  lemma AllStampedRecords(packets: seq<Option<Sample>>, samples: seq<Sample>)
    requires RecordsStamped(packets, samples) && forall i :: 0 <= i < |packets| ==> packets[i].Some?
    ensures |samples| == |packets| && forall i :: 0 <= i < |packets| ==> samples[i] == packets[i].value
  {
    forall i | 0 <= i <= |packets|
      ensures StampedBefore(packets, i) == i
    {
      AllStampedBefore(packets, i);
    }
  }

  lemma {:induction false} AllStampedBefore(packets: seq<Option<Sample>>, n: nat)
    requires n <= |packets| && forall i :: 0 <= i < |packets| ==> packets[i].Some?
    ensures StampedBefore(packets, n) == n
  {
    if n == 0 {
      StampedBeforeNone(packets, 0);
    } else {
      AllStampedBefore(packets, n - 1);
      StampedBeforeStep(packets, n - 1);
    }
  }

  /** The three differences of a packet, over flat nanoseconds. */
  lemma ColumnsInFlatTime(s: Sample)
    ensures NicKernel(s) == Sub64(Nanos(s.kernel), Nanos(s.nic))
    ensures KernelUser(s) == Sub64(Wrap64(s.user.sec * 1_000_000_000 + s.user.usec * 1000), Nanos(s.kernel))
    ensures NicUser(s) == Sub64(Wrap64(s.user.sec * 1_000_000_000 + s.user.usec * 1000), Nanos(s.nic))
  {
    LatencyFormsAgree(s.kernel, s.nic);
    LatencyFormsAgree(UserStamp(s.user), s.kernel);
    LatencyFormsAgree(UserStamp(s.user), s.nic);
  }

  /** The microsecond timestamp in nanoseconds, as 64 bits hold it. */
  ghost function FlatMicros(t: Timeval): (r: u64)
  {
    Wrap64(t.sec * 1_000_000_000 + t.usec * 1000)
  }

  lemma SamplesInFlatTime(samples: seq<Sample>)
    ensures forall i :: 0 <= i < |samples| ==> NicKernel(samples[i]) == Sub64(Nanos(samples[i].kernel), Nanos(samples[i].nic))
    ensures forall i :: 0 <= i < |samples| ==> NicUser(samples[i]) == Sub64(FlatMicros(samples[i].user), Nanos(samples[i].nic))
    ensures forall i :: 0 <= i < |samples| ==> KernelUser(samples[i]) == Sub64(FlatMicros(samples[i].user), Nanos(samples[i].kernel))
  {
    forall i | 0 <= i < |samples|
      ensures NicKernel(samples[i]) == Sub64(Nanos(samples[i].kernel), Nanos(samples[i].nic))
      ensures NicUser(samples[i]) == Sub64(FlatMicros(samples[i].user), Nanos(samples[i].nic))
      ensures KernelUser(samples[i]) == Sub64(FlatMicros(samples[i].user), Nanos(samples[i].kernel))
    {
      ColumnsInFlatTime(samples[i]);
    }
  }

  class Recorder {
    const nicKernel: array<u64>
    const nicUser: array<u64>
    const kernelUser: array<u64>
    var totalReceived: nat
    var diffNicKernel: u64
    var totalDiff: u64
    ghost var samples: seq<Sample>

    ghost predicate Valid()
      reads this, nicKernel, nicUser, kernelUser
    {
      && nicKernel != nicUser && nicKernel != kernelUser && nicUser != kernelUser
      && nicUser.Length == kernelUser.Length == nicKernel.Length
      && |samples| == totalReceived
      && Columns(nicKernel[..], nicUser[..], kernelUser[..], samples)
      && diffNicKernel == LastOrZero(Diffs(samples))
      && totalDiff == Drift(Diffs(samples))
    }

    constructor (maxPackets: nat)
      ensures Valid() && samples == [] && nicKernel.Length == maxPackets
      ensures fresh(nicKernel) && fresh(nicUser) && fresh(kernelUser)
    {
      nicUser := new u64[maxPackets];
      nicKernel := new u64[maxPackets];
      kernelUser := new u64[maxPackets];
      totalReceived, diffNicKernel, totalDiff, samples := 0, 0, 0, [];
    }

    /**
      `print_time`; `None` is a packet without a timestamp. The count is incremented between the stores, so two of
      the three arrays are written one past the row of this packet; `inBounds` says that this stayed in the arrays.
     */
    method PrintTime(stamp: Option<Sample>) returns (inBounds: bool)
      requires Valid()
      modifies this, nicKernel, nicUser, kernelUser
      ensures inBounds <==> stamp.None? || old(totalReceived) + 1 < nicKernel.Length
      ensures inBounds ==> Valid()
      ensures inBounds ==> samples == old(samples) + (if stamp.Some? then [stamp.value] else [])
    {
      if stamp.None? {
        return true;
      }
      var s := stamp.value;
      var oldDiff := diffNicKernel;
      if totalReceived >= nicKernel.Length {
        return false;
      }
      GrowDiffs(samples, s);
      diffNicKernel := ComponentDiff(s.kernel, s.nic);
      nicKernel[totalReceived] := diffNicKernel;
      totalReceived := totalReceived + 1;
      if oldDiff != 0 {
        totalDiff := Add64(totalDiff, Sub64(diffNicKernel, oldDiff));
      }
      if totalReceived >= nicUser.Length {
        return false;
      }
      nicUser[totalReceived] := ComponentDiff(UserStamp(s.user), s.nic);
      kernelUser[totalReceived] := ComponentDiff(UserStamp(s.user), s.kernel);
      GrowColumns(old(nicKernel[..]), old(nicUser[..]), old(kernelUser[..]), samples, s);
      samples := samples + [s];
      return true;
    }

    /** The receive loop over the packets that arrive. */
    method Record(packets: seq<Option<Sample>>) returns (inBounds: bool)
      requires Valid() && samples == []
      modifies this, nicKernel, nicUser, kernelUser
      ensures var count := StampedBefore(packets, |packets|); inBounds <==> count == 0 || count < nicKernel.Length
      ensures inBounds ==> Valid() && samples == Stamped(packets) && RecordsStamped(packets, samples)
    {
      StampedRecords(packets);
      for i := 0 to |packets|
        invariant Valid() && samples == Stamped(packets[..i])
      {
        assert packets[..i + 1][..i] == packets[..i];
        StampedGrows(packets, i + 1);
        var ok := PrintTime(packets[i]);
        if !ok {
          return false;
        }
      }
      assert packets[..|packets|] == packets;
      return true;
    }

    /** The rows written to the file: NIC->user, NIC->kernel, kernel->user. */
    method Rows() returns (rows: seq<(u64, u64, u64)>)
      requires Valid()
      ensures |rows| == |samples|
      ensures forall i {:trigger rows[i]} :: 0 <= i < |rows| ==>
        rows[i].1 == NicKernel(samples[i]) == Sub64(Nanos(samples[i].kernel), Nanos(samples[i].nic))
      ensures forall i :: 1 <= i < |rows| ==>
        && rows[i].0 == NicUser(samples[i - 1]) == Sub64(FlatMicros(samples[i - 1].user), Nanos(samples[i - 1].nic))
        && rows[i].2 == KernelUser(samples[i - 1]) == Sub64(FlatMicros(samples[i - 1].user), Nanos(samples[i - 1].kernel))
    {
      rows := [];
      for i := 0 to totalReceived
        invariant |rows| == i
        invariant forall k :: 0 <= k < i ==> rows[k] == (nicUser[k], nicKernel[k], kernelUser[k])
      {
        rows := rows + [(nicUser[i], nicKernel[i], kernelUser[i])];
      }
      SamplesInFlatTime(samples);
    }
  }

  lemma {:induction false} StampedGrows(packets: seq<Option<Sample>>, n: nat)
    requires n <= |packets|
    ensures |Stamped(packets[..n])| <= |Stamped(packets)|
    decreases |packets| - n
  {
    if n < |packets| {
      StampedGrows(packets, n + 1);
      assert packets[..n + 1][..n] == packets[..n];
    } else {
      assert packets[..n] == packets;
    }
  }

  // ----- properties -----

  /** For every packet, NIC->user is NIC->kernel plus kernel->user. */
  lemma SeriesAgree(s: Sample)
    ensures NicUser(s) == Add64(NicKernel(s), KernelUser(s))
  {
    var x := (s.kernel.sec - s.nic.sec) * 1_000_000_000 + (s.kernel.nsec - s.nic.nsec);
    var u := UserStamp(s.user);
    var y := (u.sec - s.kernel.sec) * 1_000_000_000 + (u.nsec - s.kernel.nsec);
    WrapOps(x, y);
  }

  /**
    As written, row `i` takes its outer columns from packet `i - 1`: those two columns add up to the middle column
    of the row above, and the row itself adds up exactly when the NIC->kernel difference did not change.
   */
  lemma RowAddsUpIff(rows: seq<(u64, u64, u64)>, samples: seq<Sample>, i: nat)
    requires |rows| == |samples| && 1 <= i < |rows|
    requires rows[i] == (NicUser(samples[i - 1]), NicKernel(samples[i]), KernelUser(samples[i - 1]))
    requires rows[i - 1].1 == NicKernel(samples[i - 1])
    ensures rows[i].0 == Add64(rows[i - 1].1, rows[i].2)
    ensures rows[i].0 == Add64(rows[i].1, rows[i].2) <==> NicKernel(samples[i]) == NicKernel(samples[i - 1])
  {
    SeriesAgree(samples[i - 1]);
  }

  lemma {:induction false} RestartSumOfPrefix(ds: seq<u64>, m: nat, n: nat)
    requires n <= m <= |ds|
    ensures RestartSum(ds[..m], n) == RestartSum(ds, n)
  {
    if n > 0 {
      RestartSumOfPrefix(ds, m, n - 1);
    }
  }

  lemma DriftStep(previous: u64, last: u64, restarts: int)
    ensures Add64(Wrap64(previous - restarts), Sub64(last, previous)) == Wrap64(last - restarts)
    ensures previous == 0 ==> Wrap64(previous - restarts) == Wrap64(last - (restarts + last))
  {
    WrapOps(previous - restarts, last - previous);
  }

  /** The accumulated drift is the last difference minus every difference that follows a zero. */
  lemma {:induction false} DriftClosedForm(ds: seq<u64>)
    ensures Drift(ds) == Wrap64(LastOrZero(ds) - RestartSum(ds, |ds|))
  {
    if ds != [] {
      var n := |ds| - 1;
      var front := ds[..n];
      DriftClosedForm(front);
      RestartSumOfPrefix(ds, n, n);
      var previous, last := LastOrZero(front), ds[n];
      DriftStep(previous, last, RestartSum(front, n));
    }
  }

  lemma {:induction false} NoRestartsAfterFirst(ds: seq<u64>, n: nat)
    requires 0 < n <= |ds|
    requires forall i :: 0 <= i < |ds| - 1 ==> ds[i] != 0
    ensures RestartSum(ds, n) == ds[0]
  {
    if n > 1 {
      NoRestartsAfterFirst(ds, n - 1);
    }
  }

  lemma DriftFromSum(ds: seq<u64>, restarts: nat)
    requires RestartSum(ds, |ds|) == restarts
    ensures Drift(ds) == Wrap64(LastOrZero(ds) - restarts)
  {
    DriftClosedForm(ds);
  }

  /** With no zero difference before the last packet, the drift is last minus first. */
  lemma DriftIsLastMinusFirst(ds: seq<u64>)
    requires ds != [] && forall i :: 0 <= i < |ds| - 1 ==> ds[i] != 0
    ensures Drift(ds) == Sub64(ds[|ds| - 1], ds[0])
  {
    NoRestartsAfterFirst(ds, |ds|);
    DriftFromSum(ds, ds[0]);
  }
}
