/**
  The IPv4 header checksum of section 3.1 of RFC 791, as `send_packets` computes it: a 32-bit sum of 16-bit words,
  one fold, one unmasked carry add, and a truncated complement.
 */
module Checksum {
  import opened Words
  import opened ByteOrder

  /** The exact sum of the words. */
  function Sum(ws: seq<u16>): (r: nat)
  {
    if ws == [] then 0 else Sum(ws[..|ws| - 1]) + ws[|ws| - 1]
  }

  /** Folding carries back in until 16 bits remain. */
  function Fold(s: nat): (r: nat)
    ensures r <= 0xFFFF
    ensures r % 0xFFFF == s % 0xFFFF
    ensures r == 0 <==> s == 0
  {
    if s <= 0xFFFF then s else FoldOnce(s); Fold(s / 0x1_0000 + s % 0x1_0000)
  }

  /** The one's-complement sum of the words. */
  function OnesSum(ws: seq<u16>): (r: nat)
    ensures r <= 0xFFFF
  {
    Fold(Sum(ws))
  }

  lemma Residue(x: int, q: int, r: int)
    requires x == 0xFFFF * q + r
    ensures x % 0xFFFF == r % 0xFFFF
  {
  }

  lemma FoldOnce(s: nat)
    ensures (s / 0x1_0000 + s % 0x1_0000) % 0xFFFF == s % 0xFFFF
  {
    var hi, lo := s / 0x1_0000, s % 0x1_0000;
    Residue(s, hi, hi + lo);
  }

  // ----- the computation of the source -----

  /** The three statements after the summing loop, on the 32-bit accumulator. */
  function Finish(acc: u32): (r: u16)
  {
    var folded := acc / 0x1_0000 + acc % 0x1_0000;
    var carried := folded + folded / 0x1_0000;
    (0xFFFF_FFFF - carried) % 0x1_0000
  }

  /** The value stored in the check field when the words, check word zeroed, are `ws`. */
  function Check(ws: seq<u16>): (r: u16)
  {
    Finish(Sum(ws) % 0x1_0000_0000)
  }

  /** Zeroes word `at`, sums the words in a wrapping 32-bit accumulator, and stores the checksum in word `at`. */
  method WriteChecksum(words: array<u16>, at: nat)
    requires at < words.Length
    modifies words
    ensures words[..] == old(words[..])[at := Check(old(words[..])[at := 0])]
  {
    words[at] := 0;
    ghost var zeroed := words[..];
    assert zeroed == old(words[..])[at := 0];
    var acc: u32 := 0;
    for i := 0 to words.Length
      invariant words[..] == zeroed
      invariant acc == Sum(zeroed[..i]) % 0x1_0000_0000
    {
      SumStep(zeroed, i);
      WrappedAdd(Sum(zeroed[..i]), words[i]);
      acc := (acc + words[i]) % 0x1_0000_0000;
    }
    assert zeroed[..words.Length] == zeroed;
    acc := acc / 0x1_0000 + acc % 0x1_0000;
    acc := acc + acc / 0x1_0000;
    words[at] := (0xFFFF_FFFF - acc) % 0x1_0000;
  }

  lemma SumStep(ws: seq<u16>, i: nat)
    requires i < |ws|
    ensures Sum(ws[..i + 1]) == Sum(ws[..i]) + ws[i]
  {
    assert ws[..i + 1][..i] == ws[..i];
  }

  lemma WrappedAdd(s: nat, w: u16)
    ensures (s % 0x1_0000_0000 + w) % 0x1_0000_0000 == (s + w) % 0x1_0000_0000
  {
  }

  // ----- correctness -----

  /** After one fold at most one carry is left, and adding it cannot produce another. */
  lemma CarryIsLast(acc: u32)
    ensures var folded := acc / 0x1_0000 + acc % 0x1_0000;
      folded <= 0x1_FFFE && folded / 0x1_0000 + folded % 0x1_0000 <= 0xFFFF
  {
    assert acc / 0x1_0000 <= 0xFFFF;
  }

  lemma ComplementOfCarried(folded: nat)
    requires folded <= 0x1_FFFE
    ensures (0xFFFF_FFFF - (folded + folded / 0x1_0000)) % 0x1_0000 == 0xFFFF - (folded / 0x1_0000 + folded % 0x1_0000)
  {
  }

  /** One fold and one unmasked carry add reach the fixpoint of folding. */
  lemma FinishIsComplementOfFold(acc: u32)
    ensures Finish(acc) == 0xFFFF - Fold(acc)
  {
    var folded := acc / 0x1_0000 + acc % 0x1_0000;
    CarryIsLast(acc);
    ComplementOfCarried(folded);
    assert Fold(folded) == folded / 0x1_0000 + folded % 0x1_0000 by { FoldOfSmall(folded); }
    assert Fold(acc) == Fold(folded) by { FoldOfSum(acc); }
  }

  lemma FoldOfSmall(folded: nat)
    requires folded / 0x1_0000 + folded % 0x1_0000 <= 0xFFFF
    ensures Fold(folded) == folded / 0x1_0000 + folded % 0x1_0000
  {
  }

  /** Folding once more makes no difference to the fixpoint. */
  lemma FoldOfSum(s: nat)
    ensures Fold(s) == Fold(s / 0x1_0000 + s % 0x1_0000)
  {
  }

  lemma {:induction false} SumBound(ws: seq<u16>)
    ensures Sum(ws) <= 0xFFFF * |ws|
  {
    if ws != [] {
      SumBound(ws[..|ws| - 1]);
    }
  }

  lemma CheckWithoutWrap(ws: seq<u16>)
    requires Sum(ws) <= 0xFFFF_FFFF
    ensures Check(ws) == 0xFFFF - OnesSum(ws)
  {
    var s := Sum(ws);
    assert s % 0x1_0000_0000 == s;
    FinishIsComplementOfFold(s);
  }

  /** 65537 words cannot overflow the 32-bit accumulator. */
  lemma AccumulatorNeverWraps(ws: seq<u16>)
    requires |ws| <= 65537
    ensures Sum(ws) <= 0xFFFF_FFFF
    ensures Check(ws) == 0xFFFF - OnesSum(ws)
  {
    assert Sum(ws) <= 0xFFFF_FFFF by { SumBound(ws); }
    CheckWithoutWrap(ws);
  }

  lemma {:induction false} SumOfOnes(n: nat)
    ensures Sum(seq(n, _ => 0xFFFF)) == 0xFFFF * n
  {
    var ws: seq<u16> := seq(n, _ => 0xFFFF);
    if n > 0 {
      SumOfOnes(n - 1);
      assert ws[..n - 1] == seq(n - 1, _ => 0xFFFF);
    }
  }

  lemma {:induction false} SumOfUpdate(ws: seq<u16>, at: nat, w: u16)
    requires at < |ws|
    ensures Sum(ws[at := w]) == Sum(ws) - ws[at] + w
  {
    var n := |ws| - 1;
    if at == n {
      assert ws[at := w][..n] == ws[..n];
    } else {
      SumOfUpdate(ws[..n], at, w);
      assert ws[at := w][..n] == ws[..n][at := w];
    }
  }

  lemma FoldIsAllOnes(s: nat)
    requires s > 0
    ensures Fold(s) == 0xFFFF <==> s % 0xFFFF == 0
  {
  }

  /**
    For a word array of any length, the stored checksum makes the one's-complement sum all ones exactly when the
    number of times the 32-bit accumulator wrapped is a multiple of 65535.
   */
  lemma ChecksumVerifiesIff(ws: seq<u16>, at: nat)
    requires at < |ws| && ws[at] == 0
    ensures OnesSum(ws[at := Check(ws)]) == 0xFFFF <==> (Sum(ws) / 0x1_0000_0000) % 0xFFFF == 0
  {
    var s := Sum(ws);
    var wraps, acc := s / 0x1_0000_0000, s % 0x1_0000_0000;
    var c := Check(ws);
    assert c == 0xFFFF - Fold(acc) by { FinishIsComplementOfFold(acc); }
    assert Sum(ws[at := c]) == s + c by { SumOfUpdate(ws, at, c); }
    assert s + c > 0 && (s + c) % 0xFFFF == wraps % 0xFFFF by { ChecksumResidue(s, wraps, acc, c); }
    assert OnesSum(ws[at := c]) == 0xFFFF <==> (s + c) % 0xFFFF == 0 by { FoldIsAllOnes(s + c); }
  }

  lemma ChecksumResidue(s: nat, wraps: nat, acc: u32, c: u16)
    requires s == wraps * 0x1_0000_0000 + acc && c == 0xFFFF - Fold(acc)
    ensures s + c > 0
    ensures (s + c) % 0xFFFF == wraps % 0xFFFF
  {
    var f := Fold(acc);
    var q := acc / 0xFFFF - f / 0xFFFF;
    assert acc == 0xFFFF * q + f;
    assert s + c == 0xFFFF * (wraps * 0x1_0001 + q + 1) + wraps;
    Residue(s + c, wraps * 0x1_0001 + q + 1, wraps);
  }

  /**
    Section 3.1 of RFC 791: for up to 65538 words, one of which is the check word, the one's-complement sum of the
    array is all ones once the checksum is in place.
   */
  lemma ChecksumVerifies(ws: seq<u16>, at: nat)
    requires at < |ws| <= 65538
    ensures OnesSum(ws[at := Check(ws[at := 0])]) == 0xFFFF
  {
    var zeroed := ws[at := 0];
    assert Sum(zeroed) <= 0xFFFF_FFFF by { SumWithZero(zeroed, at); }
    assert (Sum(zeroed) / 0x1_0000_0000) % 0xFFFF == 0;
    ChecksumVerifiesIff(zeroed, at);
    assert zeroed[at := Check(zeroed)] == ws[at := Check(zeroed)];
  }

  lemma SumWithZero(ws: seq<u16>, at: nat)
    requires at < |ws| && ws[at] == 0
    ensures Sum(ws) <= 0xFFFF * (|ws| - 1)
  {
    SumOfUpdate(ws, at, 0xFFFF);
    SumBound(ws[at := 0xFFFF]);
  }

  /** With one word more it can fail: the accumulator wraps once. */
  lemma BoundIsExact()
    ensures exists ws: seq<u16>, at: nat :: at < |ws| == 65539 && ws[at] == 0 && OnesSum(ws[at := Check(ws)]) != 0xFFFF
  {
    var ones: seq<u16> := seq(65538, _ => 0xFFFF);
    SumOfOnes(65538);
    var ws := ones + [0];
    assert ws[..65538] == ones;
    ChecksumVerifiesIff(ws, 65538);
  }

  // ----- byte order -----

  function SwapWord(w: u16): (r: u16)
  {
    w % 0x100 * 0x100 + w / 0x100
  }

  function SwapWords(ws: seq<u16>): (r: seq<u16>)
    ensures |r| == |ws|
  {
    seq(|ws|, i requires 0 <= i < |ws| => SwapWord(ws[i]))
  }

  lemma SwapWordResidue(w: u16)
    ensures SwapWord(w) % 0xFFFF == 256 * w % 0xFFFF
    ensures SwapWord(w) == 0 <==> w == 0
  {
    var hi, lo := w / 0x100, w % 0x100;
    assert w == 0x100 * hi + lo && SwapWord(w) == 0x100 * lo + hi;
    Residue(256 * w, hi, SwapWord(w));
  }

  lemma AddResidues(a: nat, b: nat, x: nat, y: nat)
    requires a % 0xFFFF == 256 * x % 0xFFFF && b % 0xFFFF == 256 * y % 0xFFFF
    ensures (a + b) % 0xFFFF == 256 * (x + y) % 0xFFFF
  {
    var qa, qb, qx, qy := a / 0xFFFF, b / 0xFFFF, 256 * x / 0xFFFF, 256 * y / 0xFFFF;
    var q := qa + qb - qx - qy;
    assert a + b == 0xFFFF * q + 256 * (x + y);
    Residue(a + b, q, 256 * (x + y));
  }

  lemma {:induction false} SumOfSwapped(ws: seq<u16>)
    ensures Sum(SwapWords(ws)) % 0xFFFF == 256 * Sum(ws) % 0xFFFF
    ensures Sum(SwapWords(ws)) == 0 <==> Sum(ws) == 0
  {
    if ws != [] {
      var n := |ws| - 1;
      var front, last := ws[..n], ws[n];
      SumOfSwapped(front);
      assert SwapWords(ws)[..n] == SwapWords(front);
      assert SwapWord(last) == 0 <==> last == 0 by { SwapWordResidue(last); }
      assert (Sum(SwapWords(front)) + SwapWord(last)) % 0xFFFF == 256 * (Sum(front) + last) % 0xFFFF by {
        SwapWordResidue(last);
        AddResidues(Sum(SwapWords(front)), SwapWord(last), Sum(front), last);
      }
    }
  }

  /** Two folded sums with the same residue are equal unless exactly one of them is zero. */
  lemma FoldedUnique(a: nat, b: nat)
    requires a <= 0xFFFF && b <= 0xFFFF
    requires a % 0xFFFF == b % 0xFFFF && (a == 0 <==> b == 0)
    ensures a == b
  {
  }

  lemma SwapOfComplement(w: u16)
    ensures SwapWord(0xFFFF - w) == 0xFFFF - SwapWord(w)
  {
    var hi, lo := w / 0x100, w % 0x100;
    assert 0xFFFF - w == (0xFF - hi) * 0x100 + (0xFF - lo);
  }

  lemma SameResidueIff(x: int, y: int)
    ensures x % 0xFFFF == y % 0xFFFF <==> (x - y) % 0xFFFF == 0
  {
    var qx, qy, rx, ry := x / 0xFFFF, y / 0xFFFF, x % 0xFFFF, y % 0xFFFF;
    Residue(x - y, qx - qy, rx - ry);
  }

  /** How wrapping the two sums `s` and `t` disturbs their residues: 2^32 is one more than a multiple of 65535. */
  lemma WrappedResidues(s: nat, t: nat)
    requires t % 0xFFFF == 256 * s % 0xFFFF
    ensures t % 0x1_0000_0000 % 0xFFFF == 256 * (s % 0x1_0000_0000) % 0xFFFF <==>
      t / 0x1_0000_0000 % 0xFFFF == 256 * (s / 0x1_0000_0000) % 0xFFFF
  {
    var a, b, k, l := s % 0x1_0000_0000, t % 0x1_0000_0000, s / 0x1_0000_0000, t / 0x1_0000_0000;
    assert (t - 256 * s) % 0xFFFF == 0 by { SameResidueIff(t, 256 * s); }
    var m := (t - 256 * s) / 0xFFFF;
    assert t - 256 * s == 0xFFFF * m;
    assert l - 256 * k == 0xFFFF * (m - 0x1_0001 * (l - 256 * k)) - (b - 256 * a);
    Residue(l - 256 * k, m - 0x1_0001 * (l - 256 * k), -(b - 256 * a));
    assert (b - 256 * a) % 0xFFFF == 0 <==> (l - 256 * k) % 0xFFFF == 0 by { NegatedResidue(b - 256 * a); }
    SameResidueIff(b, 256 * a);
    SameResidueIff(l, 256 * k);
  }

  lemma NegatedResidue(x: int)
    ensures x % 0xFFFF == 0 <==> -x % 0xFFFF == 0
  {
    Residue(-x, -(x / 0xFFFF), -(x % 0xFFFF));
  }

  /**
    For a word array of any length: byte order makes no difference to the stored bytes exactly when the two sums wrap
    a matching number of times and neither or both of the wrapped sums are zero.
   */
  lemma ByteOrderIndependenceIff(ws: seq<u16>)
    ensures var s, t := Sum(ws), Sum(SwapWords(ws));
      Check(SwapWords(ws)) == SwapWord(Check(ws)) <==>
        && t / 0x1_0000_0000 % 0xFFFF == 256 * (s / 0x1_0000_0000) % 0xFFFF
        && (s % 0x1_0000_0000 == 0 <==> t % 0x1_0000_0000 == 0)
  {
    var s, t := Sum(ws), Sum(SwapWords(ws));
    var a, b := s % 0x1_0000_0000, t % 0x1_0000_0000;
    var f, g := Fold(a), Fold(b);
    assert Check(ws) == 0xFFFF - f by { FinishIsComplementOfFold(a); }
    assert Check(SwapWords(ws)) == 0xFFFF - g by { FinishIsComplementOfFold(b); }
    assert SwapWord(0xFFFF - f) == 0xFFFF - SwapWord(f) by { SwapOfComplement(f); }
    assert SwapWord(f) % 0xFFFF == 256 * a % 0xFFFF && (SwapWord(f) == 0 <==> f == 0) by {
      SwapWordResidue(f);
      ScaleResidue(f, a);
    }
    assert b % 0xFFFF == 256 * a % 0xFFFF <==> t / 0x1_0000_0000 % 0xFFFF == 256 * (s / 0x1_0000_0000) % 0xFFFF by {
      SumOfSwapped(ws);
      WrappedResidues(s, t);
    }
    if g % 0xFFFF == SwapWord(f) % 0xFFFF && (g == 0 <==> f == 0) {
      FoldedUnique(g, SwapWord(f));
    }
  }

  /** Section 2 (B) of RFC 1071: the checksum of byte-swapped words is the byte-swapped checksum. */
  lemma ByteOrderIndependence(ws: seq<u16>)
    requires |ws| <= 65537
    ensures Check(SwapWords(ws)) == SwapWord(Check(ws))
  {
    var s, t := Sum(ws), Sum(SwapWords(ws));
    assert s <= 0xFFFF_FFFF by { AccumulatorNeverWraps(ws); }
    assert t <= 0xFFFF_FFFF by { AccumulatorNeverWraps(SwapWords(ws)); }
    assert s == 0 <==> t == 0 by { SumOfSwapped(ws); }
    NoWraps(s);
    NoWraps(t);
    ByteOrderIndependenceIff(ws);
  }

  lemma NoWraps(s: nat)
    requires s <= 0xFFFF_FFFF
    ensures s / 0x1_0000_0000 == 0 && s % 0x1_0000_0000 == s
  {
  }

  lemma ScaleResidue(a: nat, b: nat)
    requires a % 0xFFFF == b % 0xFFFF
    ensures 256 * a % 0xFFFF == 256 * b % 0xFFFF
  {
    var qa, qb, r := a / 0xFFFF, b / 0xFFFF, a % 0xFFFF;
    Residue(256 * a, 256 * qa, 256 * r);
    Residue(256 * b, 256 * qb, 256 * r);
  }

  /** The header's bytes read as an array of host-order 16-bit words. */
  function WordsAt(host: Host, bs: seq<byte>): (r: seq<u16>)
    requires |bs| % 2 == 0
    ensures |r| == |bs| / 2
  {
    seq(|bs| / 2, i requires 0 <= i < |bs| / 2 => WordAt(host, bs[2 * i], bs[2 * i + 1]))
  }

  function WordAt(host: Host, first: byte, second: byte): (r: u16)
  {
    match host
    case Little => first + 256 * second
    case Big => 256 * first + second
  }

  /** A host of either byte order stores the same two checksum bytes in the header. */
  lemma StoredChecksumIsHostIndependent(bs: seq<byte>)
    requires |bs| % 2 == 0 && |bs| / 2 <= 65537
    ensures Store(Little, Check(WordsAt(Little, bs)), 2) == Store(Big, Check(WordsAt(Big, bs)), 2)
  {
    var little, big := WordsAt(Little, bs), WordsAt(Big, bs);
    assert little == SwapWords(big) by {
      forall i | 0 <= i < |big| ensures little[i] == SwapWord(big[i]) {
        SwapWordAt(bs[2 * i], bs[2 * i + 1]);
      }
    }
    ByteOrderIndependence(big);
    StoredSwapped(Check(big));
  }

  lemma SwapWordAt(first: byte, second: byte)
    ensures SwapWord(WordAt(Big, first, second)) == WordAt(Little, first, second)
  {
  }

  lemma StoredSwapped(c: u16)
    ensures Store(Little, SwapWord(c), 2) == Store(Big, c, 2)
  {
    var hi, lo := c / 256, c % 256;
    assert SwapWord(c) / 256 == lo && SwapWord(c) % 256 == hi;
    assert LittleBytes(lo, 1) == [lo] && BigBytes(hi, 1) == [hi];
  }
}
