/** Kernel timestamps: `struct timespec`, the control messages that carry them, and their flat nanosecond form. */
module Stamps {
  import opened Words

  datatype Timespec = Timespec(sec: int, nsec: int)

  const NO_STAMP := Timespec(0, 0)

  /** `ts.tv_sec * 1000000000ULL + ts.tv_nsec` in a `uint64_t`. */
  function Nanos(ts: Timespec): (r: u64)
  {
    Wrap64(ts.sec * 1_000_000_000 + ts.nsec)
  }

  // ----- control messages -----

  datatype CmsgLevel = SolSocket | OtherLevel
  datatype CmsgType = SoTimestampns | SoTimestamping | OtherType
  datatype Cmsg = Cmsg(level: CmsgLevel, typ: CmsgType, data: seq<Timespec>)

  predicate IsStamp(c: Cmsg)
  {
    c.level == SolSocket && (c.typ == SoTimestampns || c.typ == SoTimestamping)
  }

  /** The data of the last timestamp entry. */
  function LastStamp(cmsgs: seq<Cmsg>): (r: Option<seq<Timespec>>)
    ensures r.None? <==> forall i :: 0 <= i < |cmsgs| ==> !IsStamp(cmsgs[i])
    ensures r.Some? ==> exists i ::
      && 0 <= i < |cmsgs| && IsStamp(cmsgs[i]) && r.value == cmsgs[i].data
      && forall j :: i < j < |cmsgs| ==> !IsStamp(cmsgs[j])
  {
    if cmsgs == [] then
      None
    else
      var last := |cmsgs| - 1;
      if IsStamp(cmsgs[last]) then Some(cmsgs[last].data) else LastStamp(cmsgs[..last])
  }

  /** The scan of `retrieve_timestamp`; `None` is the null pointer. */
  method RetrieveTimestamp(cmsgs: seq<Cmsg>) returns (ts: Option<seq<Timespec>>)
    ensures ts == LastStamp(cmsgs)
    ensures ts.None? <==> forall i :: 0 <= i < |cmsgs| && cmsgs[i].level == SolSocket ==>
      cmsgs[i].typ != SoTimestampns && cmsgs[i].typ != SoTimestamping
    ensures ts.Some? ==> exists i ::
      && 0 <= i < |cmsgs| && cmsgs[i].level == SolSocket
      && (cmsgs[i].typ == SoTimestampns || cmsgs[i].typ == SoTimestamping) && ts.value == cmsgs[i].data
      && forall j :: i < j < |cmsgs| && cmsgs[j].level == SolSocket ==>
           cmsgs[j].typ != SoTimestampns && cmsgs[j].typ != SoTimestamping
  {
    ts := None;
    for i := 0 to |cmsgs|
      invariant ts == LastStamp(cmsgs[..i])
    {
      assert cmsgs[..i + 1][..i] == cmsgs[..i];
      if cmsgs[i].level != SolSocket {
        continue;
      }
      match cmsgs[i].typ {
        case SoTimestampns => ts := Some(cmsgs[i].data);
        case SoTimestamping => ts := Some(cmsgs[i].data);
        case OtherType =>
      }
    }
    assert cmsgs[..|cmsgs|] == cmsgs;
  }

  // ----- the flat form -----

  predicate Normalised(ts: Timespec)
  {
    0 <= ts.sec && 0 <= ts.nsec < 1_000_000_000
  }

  predicate Before(a: Timespec, b: Timespec)
  {
    a.sec < b.sec || (a.sec == b.sec && a.nsec < b.nsec)
  }

  /** The last instant whose flat form fits in 64 bits. */
  const LAST_FLAT := Timespec(18446744073, 709551615)

  /** The flat form is exact precisely up to `LAST_FLAT`. */
  lemma FlattenExact(ts: Timespec)
    requires Normalised(ts)
    ensures Nanos(ts) == ts.sec * 1_000_000_000 + ts.nsec <==> !Before(LAST_FLAT, ts)
    ensures ts.sec <= 18446744072 ==> !Before(LAST_FLAT, ts)
  {
  }

  /** Up to there, flattening preserves and reflects order, and so is injective. */
  lemma FlattenOrder(a: Timespec, b: Timespec)
    requires Normalised(a) && Normalised(b)
    requires !Before(LAST_FLAT, a) && !Before(LAST_FLAT, b)
    ensures Nanos(a) < Nanos(b) <==> Before(a, b)
    ensures Nanos(a) == Nanos(b) <==> a == b
  {
    FlattenExact(a);
    FlattenExact(b);
  }

  /** The component-wise difference of `print_time`. */
  function ComponentDiff(later: Timespec, earlier: Timespec): (r: u64)
  {
    Wrap64((later.sec - earlier.sec) * 1_000_000_000 + (later.nsec - earlier.nsec))
  }

  /** The two ways of computing a latency agree for all stamps, wrapping or not. */
  lemma LatencyFormsAgree(later: Timespec, earlier: Timespec)
    ensures Sub64(Nanos(later), Nanos(earlier)) == ComponentDiff(later, earlier)
  {
    WrapOps(later.sec * 1_000_000_000 + later.nsec, earlier.sec * 1_000_000_000 + earlier.nsec);
  }
}
