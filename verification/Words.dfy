/** Fixed-width unsigned words and the C conversions between them. */
module Words {
  type byte = x: int | 0 <= x < 0x100
  type u16 = x: int | 0 <= x < 0x1_0000
  type u32 = x: int | 0 <= x < 0x1_0000_0000
  type u64 = x: int | 0 <= x < 0x1_0000_0000_0000_0000

  datatype Option<+T> = None | Some(value: T)

  /** Conversion to `uint64_t`: the residue modulo 2^64. */
  function Wrap64(x: int): (r: u64)
  {
    x % 0x1_0000_0000_0000_0000
  }

  /** Unsigned 64-bit subtraction. */
  function Sub64(a: u64, b: u64): (r: u64)
  {
    Wrap64(a - b)
  }

  /** Unsigned 64-bit addition. */
  function Add64(a: u64, b: u64): (r: u64)
  {
    Wrap64(a + b)
  }

  lemma WrapShift(x: int, y: int, q: int)
    requires x == y + q * 0x1_0000_0000_0000_0000
    ensures Wrap64(x) == Wrap64(y)
  {
  }

  /** Arithmetic on residues is the residue of exact arithmetic. */
  lemma WrapOps(x: int, y: int)
    ensures Sub64(Wrap64(x), Wrap64(y)) == Wrap64(x - y)
    ensures Add64(Wrap64(x), Wrap64(y)) == Wrap64(x + y)
  {
    var qx, qy := x / 0x1_0000_0000_0000_0000, y / 0x1_0000_0000_0000_0000;
    WrapShift(x - y, Wrap64(x) - Wrap64(y), qx - qy);
    WrapShift(x + y, Wrap64(x) + Wrap64(y), qx + qy);
  }
}
