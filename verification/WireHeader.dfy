/**
  `struct mdelayhdr` and the padded payload that carries it.

  The struct is 40 bytes: `seq` (here `pktseq`) at 0, `type` at 4, three bytes of padding, then `t1`..`t4` at 8, 16, 24, 32.
  A `Header` value is used both for the protocol-level fields and for the contents of a C struct, whose integer
  fields are in network order; `ToNetwork` and `FromNetwork` go between the two on a given host.
 */
module WireHeader {
  import opened Words
  import opened ByteOrder

  const DELAY_REQ: byte := 0
  const DELAY_REQ_FOLLOW_UP: byte := 1
  const DELAY_RESP: byte := 2
  const DELAY_RESP_FOLLOW_UP: byte := 3

  const HEADER_SIZE: nat := 40

  datatype Header = Header(pktseq: u32, typ: byte, t1: u64, t2: u64, t3: u64, t4: u64)

  /** The struct after `memset(.., 0, ..)`. */
  const ZERO_HEADER := Header(0, 0, 0, 0, 0, 0)

  function ToNetwork(host: Host, h: Header): (r: Header)
  {
    Header(Htonl(host, h.pktseq), h.typ,
           Hton64(host, h.t1), Hton64(host, h.t2), Hton64(host, h.t3), Hton64(host, h.t4))
  }

  function FromNetwork(host: Host, h: Header): (r: Header)
  {
    Header(Ntohl(host, h.pktseq), h.typ,
           Ntoh64(host, h.t1), Ntoh64(host, h.t2), Ntoh64(host, h.t3), Ntoh64(host, h.t4))
  }

  /** The struct's bytes in the host's memory; the padding was zeroed with the rest of the struct. */
  function StructBytes(host: Host, h: Header): (r: seq<byte>)
    ensures |r| == HEADER_SIZE
  {
    Store(host, h.pktseq, 4) + [h.typ, 0, 0, 0] +
    Store(host, h.t1, 8) + Store(host, h.t2, 8) + Store(host, h.t3, 8) + Store(host, h.t4, 8)
  }

  function LoadWord32(host: Host, bs: seq<byte>): (r: u32)
    requires |bs| == 4
  {
    LoadBound(host, bs); Load(host, bs)
  }

  function LoadWord64(host: Host, bs: seq<byte>): (r: u64)
    requires |bs| == 8
  {
    LoadBound(host, bs); Load(host, bs)
  }

  /** The struct a host finds after copying the front of `bs` over it. */
  function StructAt(host: Host, bs: seq<byte>): (r: Header)
    requires |bs| >= HEADER_SIZE
  {
    Header(LoadWord32(host, bs[..4]), bs[4],
           LoadWord64(host, bs[8..16]), LoadWord64(host, bs[16..24]),
           LoadWord64(host, bs[24..32]), LoadWord64(host, bs[32..40]))
  }

  /** What a receiver makes of a datagram. */
  function Decode(host: Host, bs: seq<byte>): (r: Header)
    requires |bs| >= HEADER_SIZE
  {
    FromNetwork(host, StructAt(host, bs))
  }

  function Fill(b: byte, n: nat): (r: seq<byte>)
  {
    seq(n, _ => b)
  }

  /** A payload of `size` bytes: the struct first, the fill byte after it. */
  function Payload(host: Host, hdr: Header, size: nat, fill: byte): (r: seq<byte>)
    requires size >= HEADER_SIZE
    ensures |r| == size
  {
    StructBytes(host, hdr) + Fill(fill, size - HEADER_SIZE)
  }

  /** `memset(payload, fill, size); memcpy(payload, &hdr, sizeof hdr)`. */
  method FillPayload(payload: array<byte>, host: Host, hdr: Header, fill: byte)
    requires payload.Length >= HEADER_SIZE
    modifies payload
    ensures payload[..] == Payload(host, hdr, payload.Length, fill)
  {
    forall i | 0 <= i < payload.Length {
      payload[i] := fill;
    }
    var bs := StructBytes(host, hdr);
    forall i | 0 <= i < HEADER_SIZE {
      payload[i] := bs[i];
    }
  }

  // ----- properties -----

  lemma {:induction false} LoadBound(host: Host, bs: seq<byte>)
    ensures Load(host, bs) < Pow256(|bs|)
    ensures |bs| == 4 ==> Load(host, bs) < 0x1_0000_0000
    ensures |bs| == 8 ==> Load(host, bs) < 0x1_0000_0000_0000_0000
  {
    Pow256Values();
    if bs != [] {
      LoadBound(host, bs[1..]);
      LoadBound(host, bs[..|bs| - 1]);
    }
  }

  /** The bytes on the wire in network order, with no host in sight. */
  ghost function WireForm(h: Header, size: nat, fill: byte): (r: seq<byte>)
    requires size >= HEADER_SIZE
  {
    BigBytes(h.pktseq, 4) + [h.typ, 0, 0, 0] +
    BigBytes(h.t1, 8) + BigBytes(h.t2, 8) + BigBytes(h.t3, 8) + BigBytes(h.t4, 8) +
    Fill(fill, size - HEADER_SIZE)
  }

  /** Every host puts the same bytes on the wire. */
  lemma WireFormIsHostIndependent(host: Host, h: Header, size: nat, fill: byte)
    requires size >= HEADER_SIZE
    ensures Payload(host, ToNetwork(host, h), size, fill) == WireForm(h, size, fill)
  {
    NetworkForm32(host, h.pktseq);
    NetworkForm64(host, h.t1);
    NetworkForm64(host, h.t2);
    NetworkForm64(host, h.t3);
    NetworkForm64(host, h.t4);
  }

  lemma Slices(p: seq<byte>, a: seq<byte>, b: seq<byte>, t1: seq<byte>, t2: seq<byte>, t3: seq<byte>, t4: seq<byte>, rest: seq<byte>)
    requires |a| == |b| == 4 && |t1| == |t2| == |t3| == |t4| == 8
    requires p == a + b + t1 + t2 + t3 + t4 + rest
    ensures p[..4] == a && p[4] == b[0]
    ensures p[8..16] == t1 && p[16..24] == t2 && p[24..32] == t3 && p[32..40] == t4
  {
  }

  /**
    A header copied over the front of a payload and sent is decoded to the same fields by a host of either byte
    order, and every byte after the header is the fill byte.
   */
  lemma HeaderRoundTrip(from: Host, to: Host, h: Header, size: nat, fill: byte)
    requires size >= HEADER_SIZE
    ensures var p := Payload(from, ToNetwork(from, h), size, fill);
      Decode(to, p) == h && forall i :: HEADER_SIZE <= i < size ==> p[i] == fill
  {
    var s := ToNetwork(from, h);
    var p := Payload(from, s, size, fill);
    Slices(p, Store(from, s.pktseq, 4), [h.typ, 0, 0, 0], Store(from, s.t1, 8), Store(from, s.t2, 8),
           Store(from, s.t3, 8), Store(from, s.t4, 8), Fill(fill, size - HEADER_SIZE));
    Transport32(from, to, h.pktseq);
    Transport64(from, to, h.t1);
    Transport64(from, to, h.t2);
    Transport64(from, to, h.t3);
    Transport64(from, to, h.t4);
  }
}
