/**
  The byte order of a host and the conversions to network order.

  `htonl` and `ntohl` are the libc 32-bit conversions; `hton64` and `ntoh64` are built from them.
  Shifts by whole words are written as multiplications and divisions, and `|` of disjoint words as `+`.
 */
module ByteOrder {
  import opened Words

  datatype Host = Little | Big

  // ----- memory representation of an n-byte unsigned integer -----

  function LittleBytes(v: nat, n: nat): (r: seq<byte>)
    ensures |r| == n
  {
    if n == 0 then [] else [v % 256] + LittleBytes(v / 256, n - 1)
  }

  function BigBytes(v: nat, n: nat): (r: seq<byte>)
    ensures |r| == n
  {
    if n == 0 then [] else BigBytes(v / 256, n - 1) + [v % 256]
  }

  function LittleValue(bs: seq<byte>): (r: nat)
  {
    if bs == [] then 0 else bs[0] + 256 * LittleValue(bs[1..])
  }

  function BigValue(bs: seq<byte>): (r: nat)
  {
    if bs == [] then 0 else 256 * BigValue(bs[..|bs| - 1]) + bs[|bs| - 1]
  }

  /** The bytes an n-byte integer occupies in the host's memory. */
  function Store(host: Host, v: nat, n: nat): (r: seq<byte>)
    ensures |r| == n
  {
    match host
    case Little => LittleBytes(v, n)
    case Big => BigBytes(v, n)
  }

  /** The integer the host reads from these bytes. */
  function Load(host: Host, bs: seq<byte>): (r: nat)
  {
    match host
    case Little => LittleValue(bs)
    case Big => BigValue(bs)
  }

  // ----- conversions -----

  function Swap32(v: u32): (r: u32)
  {
    (v % 0x100) * 0x100_0000 + (v / 0x100 % 0x100) * 0x1_0000 + (v / 0x1_0000 % 0x100) * 0x100 + v / 0x100_0000
  }

  function Htonl(host: Host, v: u32): (r: u32)
  {
    match host
    case Little => Swap32(v)
    case Big => v
  }

  function Ntohl(host: Host, v: u32): (r: u32)
  {
    match host
    case Little => Swap32(v)
    case Big => v
  }

  function Hton64(host: Host, v: u64): (r: u64)
  {
    if Htonl(host, 1) != 1 then
      Htonl(host, v % 0x1_0000_0000) * 0x1_0000_0000 + Htonl(host, v / 0x1_0000_0000)
    else
      v
  }

  function Ntoh64(host: Host, v: u64): (r: u64)
  {
    if Ntohl(host, 1) != 1 then
      Ntohl(host, v % 0x1_0000_0000) * 0x1_0000_0000 + Ntohl(host, v / 0x1_0000_0000)
    else
      v
  }

  // ----- storing and loading -----

  ghost function Pow256(n: nat): (r: nat)
    ensures r > 0
  {
    if n == 0 then 1 else 256 * Pow256(n - 1)
  }

  lemma {:induction false} LoadInvertsStore(host: Host, v: nat, n: nat)
    requires v < Pow256(n)
    ensures Load(host, Store(host, v, n)) == v
  {
    if n > 0 {
      LoadInvertsStore(host, v / 256, n - 1);
      match host {
        case Little => assert LittleBytes(v, n)[1..] == LittleBytes(v / 256, n - 1);
        case Big => assert BigBytes(v, n)[..n - 1] == BigBytes(v / 256, n - 1);
      }
    }
  }

  lemma Pow256Values()
    ensures Pow256(4) == 0x1_0000_0000
    ensures Pow256(8) == 0x1_0000_0000_0000_0000
  {
    assert Pow256(2) == 0x1_0000;
    assert Pow256(4) == 256 * (256 * Pow256(2));
    assert Pow256(6) == 256 * (256 * Pow256(4));
    assert Pow256(8) == 256 * (256 * Pow256(6));
  }

  lemma FourBytes(v: u32)
    ensures LittleBytes(v, 4) == [v % 256, v / 0x100 % 256, v / 0x1_0000 % 256, v / 0x100_0000]
    ensures BigBytes(v, 4) == [v / 0x100_0000, v / 0x1_0000 % 256, v / 0x100 % 256, v % 256]
  {
    var v1, v2, v3 := v / 256, v / 256 / 256, v / 256 / 256 / 256;
    assert v1 == v / 0x100 && v2 == v / 0x1_0000 && v3 == v / 0x100_0000;
    assert LittleBytes(v3, 1) == [v3] && BigBytes(v3, 1) == [v3];
    assert LittleBytes(v2, 2) == [v2 % 256, v3] && BigBytes(v2, 2) == [v3, v2 % 256];
    assert LittleBytes(v1, 3) == [v1 % 256, v2 % 256, v3] && BigBytes(v1, 3) == [v3, v2 % 256, v1 % 256];
  }

  lemma ByteDigits(a: byte, b: byte, c: byte, d: byte)
    ensures var v := d * 0x100_0000 + c * 0x1_0000 + b * 0x100 + a;
      v % 0x100 == a && v / 0x100 % 0x100 == b && v / 0x1_0000 % 0x100 == c && v / 0x100_0000 == d
  {
    var v := d * 0x100_0000 + c * 0x1_0000 + b * 0x100 + a;
    assert v / 0x100 == d * 0x1_0000 + c * 0x100 + b;
    assert v / 0x1_0000 == d * 0x100 + c;
  }

  lemma FromDigits(v: u32)
    ensures v == v / 0x100_0000 * 0x100_0000 + v / 0x1_0000 % 0x100 * 0x1_0000 + v / 0x100 % 0x100 * 0x100 + v % 0x100
  {
    var v1, v2 := v / 0x100, v / 0x1_0000;
    assert v == v1 * 0x100 + v % 0x100;
    assert v2 == v1 / 0x100;
    assert v1 == v2 * 0x100 + v1 % 0x100;
    assert v / 0x100_0000 == v2 / 0x100;
  }

  /** The 32-bit swap turns little-endian storage into big-endian storage and is its own inverse. */
  lemma SwapReversesBytes(v: u32)
    ensures LittleBytes(Swap32(v), 4) == BigBytes(v, 4)
    ensures Swap32(Swap32(v)) == v
  {
    var a, b, c, d := v % 0x100, v / 0x100 % 0x100, v / 0x1_0000 % 0x100, v / 0x100_0000;
    ByteDigits(d, c, b, a);
    assert Swap32(Swap32(v)) == v by { FromDigits(v); }
    assert LittleBytes(Swap32(v), 4) == [d, c, b, a] by { FourBytes(Swap32(v)); }
    assert BigBytes(v, 4) == [d, c, b, a] by { FourBytes(v); }
  }

  lemma LowByte(lo: nat, hi: nat, n: nat)
    requires n > 0 && lo < Pow256(n)
    ensures var v := lo + hi * Pow256(n); v % 256 == lo % 256 && v / 256 == lo / 256 + hi * Pow256(n - 1)
    ensures lo / 256 < Pow256(n - 1)
  {
    assert hi * Pow256(n) == 256 * (hi * Pow256(n - 1));
  }

  lemma {:induction false} SplitLittle(lo: nat, hi: nat, n: nat, m: nat)
    requires lo < Pow256(n)
    ensures LittleBytes(lo + hi * Pow256(n), n + m) == LittleBytes(lo, n) + LittleBytes(hi, m)
  {
    if n > 0 {
      LowByte(lo, hi, n);
      SplitLittle(lo / 256, hi, n - 1, m);
    }
  }

  lemma {:induction false} SplitBig(lo: nat, hi: nat, n: nat, m: nat)
    requires lo < Pow256(n)
    ensures BigBytes(lo + hi * Pow256(n), n + m) == BigBytes(hi, m) + BigBytes(lo, n)
  {
    if n > 0 {
      LowByte(lo, hi, n);
      SplitBig(lo / 256, hi, n - 1, m);
    }
  }

  // ----- the wire form of integers -----

  /** Whatever the host, `htonl(v)` lies in memory as the big-endian bytes of `v`. */
  lemma NetworkForm32(host: Host, v: u32)
    ensures Store(host, Htonl(host, v), 4) == BigBytes(v, 4)
    ensures Ntohl(host, Htonl(host, v)) == v
  {
    SwapReversesBytes(v);
  }

  lemma SwapOne()
    ensures Swap32(1) == 0x100_0000
    ensures Swap32(0) == 0
  {
  }

  lemma SwappedHalves(v: u64)
    ensures var lo, hi := v % 0x1_0000_0000, v / 0x1_0000_0000;
      Hton64(Little, v) == Swap32(lo) * 0x1_0000_0000 + Swap32(hi) &&
      Ntoh64(Little, v) == Swap32(lo) * 0x1_0000_0000 + Swap32(hi)
  {
    SwapOne();
  }

  lemma JoinHalves(lo: u32, hi: u32)
    ensures LittleBytes(lo + hi * 0x1_0000_0000, 8) == LittleBytes(lo, 4) + LittleBytes(hi, 4)
    ensures BigBytes(lo + hi * 0x1_0000_0000, 8) == BigBytes(hi, 4) + BigBytes(lo, 4)
  {
    Pow256Values();
    SplitLittle(lo, hi, 4, 4);
    SplitBig(lo, hi, 4, 4);
  }

  lemma HalvesOf(lo: u32, hi: u32)
    ensures var v: int := lo + hi * 0x1_0000_0000;
      0 <= v < 0x1_0000_0000_0000_0000 && v % 0x1_0000_0000 == lo && v / 0x1_0000_0000 == hi
  {
  }

  lemma SwapTwice(v: u64)
    ensures Ntoh64(Little, Hton64(Little, v)) == v
  {
    var lo: int, hi: int := v % 0x1_0000_0000, v / 0x1_0000_0000;
    var slo: int, shi: int := Swap32(lo), Swap32(hi);
    var w := Hton64(Little, v);
    assert w == shi + slo * 0x1_0000_0000 by { SwappedHalves(v); }
    assert w % 0x1_0000_0000 == shi && w / 0x1_0000_0000 == slo by { HalvesOf(shi, slo); }
    assert Ntoh64(Little, w) == Swap32(shi) * 0x1_0000_0000 + Swap32(slo) by { SwappedHalves(w); }
    assert Swap32(slo) == lo by { SwapReversesBytes(lo); }
    assert Swap32(shi) == hi by { SwapReversesBytes(hi); }
  }

  lemma SwapBytes64(v: u64)
    ensures LittleBytes(Hton64(Little, v), 8) == BigBytes(v, 8)
  {
    var lo: int, hi: int := v % 0x1_0000_0000, v / 0x1_0000_0000;
    var slo: int, shi: int := Swap32(lo), Swap32(hi);
    assert Hton64(Little, v) == shi + slo * 0x1_0000_0000 by { SwappedHalves(v); }
    assert LittleBytes(shi + slo * 0x1_0000_0000, 8) == LittleBytes(shi, 4) + LittleBytes(slo, 4) by { JoinHalves(shi, slo); }
    assert BigBytes(lo + hi * 0x1_0000_0000, 8) == BigBytes(hi, 4) + BigBytes(lo, 4) by { JoinHalves(lo, hi); }
    assert LittleBytes(shi, 4) == BigBytes(hi, 4) by { SwapReversesBytes(hi); }
    assert LittleBytes(slo, 4) == BigBytes(lo, 4) by { SwapReversesBytes(lo); }
    assert v == lo + hi * 0x1_0000_0000;
  }

  /** Whatever the host, `hton64(v)` lies in memory as the big-endian bytes of `v`. */
  lemma NetworkForm64(host: Host, v: u64)
    ensures Store(host, Hton64(host, v), 8) == BigBytes(v, 8)
    ensures Ntoh64(host, Hton64(host, v)) == v
  {
    if host == Little {
      SwapTwice(v);
      SwapBytes64(v);
    }
  }

  /** A 32-bit value written with `htonl` on one host is read back with `ntohl` on any other. */
  lemma Transport32(from: Host, to: Host, v: u32)
    ensures Load(to, Store(from, Htonl(from, v), 4)) == Htonl(to, v)
    ensures Ntohl(to, Load(to, Store(from, Htonl(from, v), 4))) == v
  {
    Pow256Values();
    NetworkForm32(from, v);
    NetworkForm32(to, v);
    LoadInvertsStore(to, Htonl(to, v), 4);
  }

  /** A 64-bit value written with `hton64` on one host is read back with `ntoh64` on any other. */
  lemma Transport64(from: Host, to: Host, v: u64)
    ensures Load(to, Store(from, Hton64(from, v), 8)) == Hton64(to, v)
    ensures Ntoh64(to, Load(to, Store(from, Hton64(from, v), 8))) == v
  {
    Pow256Values();
    NetworkForm64(from, v);
    NetworkForm64(to, v);
    LoadInvertsStore(to, Hton64(to, v), 8);
  }
}
