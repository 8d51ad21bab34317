// Byte-level building blocks shared by every component: the byte type, the
// fixed integer widths of C, and the little-/big-endian field codecs that the
// binary formats use.
module Bytes {

  /** An octet, as held by `uint8_t` / `unsigned char`. */
  type Byte = b: int | 0 <= b < 256

  const U16: int := 0x1_0000
  const U32: int := 0x1_0000_0000
  const U64: int := 0x1_0000_0000_0000_0000

  /** Truncation to `uint16_t`. */
  function Trunc16(x: int): (r: int)
    ensures 0 <= r < U16
  {
    x % U16
  }

  /** Truncation to `uint32_t` (what a C assignment or `+` on `uint32_t` does). */
  function Trunc32(x: int): (r: int)
    ensures 0 <= r < U32
  {
    x % U32
  }

  /** Arithmetic sum of a byte sequence (no wrap-around). */
  function Sum(s: seq<Byte>): nat
  {
    if s == [] then 0 else Sum(s[..|s| - 1]) + s[|s| - 1]
  }

  lemma {:induction false} SumAppend(a: seq<Byte>, b: seq<Byte>)
    ensures Sum(a + b) == Sum(a) + Sum(b)
    decreases |b|
  {
    if b == [] {
      assert a + b == a;
    } else {
      assert (a + b)[..|a + b| - 1] == a + b[..|b| - 1];
      SumAppend(a, b[..|b| - 1]);
    }
  }

  lemma {:induction false} SumBound(s: seq<Byte>)
    ensures Sum(s) <= 255 * |s|
  {
    if s != [] {
      SumBound(s[..|s| - 1]);
    }
  }

  /** The two bytes of `v` in little-endian order (`put16le`). */
  function Le16(v: int): (r: seq<Byte>)
    ensures |r| == 2
  {
    [v % 256, (v / 256) % 256]
  }

  /** Reads a little-endian 16-bit value (`get16le`). */
  function GetLe16(b0: Byte, b1: Byte): (r: int)
    ensures 0 <= r < U16
  {
    b1 * 256 + b0
  }

  lemma Le16RoundTrip(v: int)
    ensures GetLe16(Le16(v)[0], Le16(v)[1]) == Trunc16(v)
  {
  }

  /** The two bytes of `v` in big-endian order (`mtfw_put16be`). */
  function Be16(v: int): (r: seq<Byte>)
    ensures |r| == 2
  {
    [(v / 256) % 256, v % 256]
  }

  /** The four bytes of `v` in little-endian order (a native `uint32_t` on the target). */
  function Le32(v: int): (r: seq<Byte>)
    ensures |r| == 4
  {
    [v % 256, (v / 0x100) % 256, (v / 0x1_0000) % 256, (v / 0x100_0000) % 256]
  }

  /** Reads a native little-endian `uint32_t` at offset `off`. */
  function GetLe32(s: seq<Byte>, off: nat): (r: int)
    requires off + 4 <= |s|
    ensures 0 <= r < U32
  {
    s[off] as int + 0x100 * (s[off + 1] as int) + 0x1_0000 * (s[off + 2] as int) + 0x100_0000 * (s[off + 3] as int)
  }

  /** Reads `|s|` bytes (at most eight) as a little-endian unsigned number. */
  function LeValue(s: seq<Byte>): (r: nat)
  {
    if s == [] then 0 else s[0] + 256 * LeValue(s[1..])
  }

  /** Multiplying by a non-negative number preserves `<=`. */
  lemma MulMono(x: int, y: int, c: int)
    requires c >= 0
    ensures x <= y ==> x * c <= y * c
  {
    if x <= y {
      assert y * c - x * c == (y - x) * c;
    }
  }

  /** Quotient and remainder are the unique pair with `x == a * d + b` and `0 <= b < d`. */
  lemma DivModUnique(x: int, d: int, a: int, b: int)
    requires d > 0 && 0 <= b < d && x == a * d + b
    ensures x / d == a && x % d == b
  {
    var q, r := x / d, x % d;
    assert x == q * d + r;
    assert (a - q) * d == r - b;
    MulMono(1, a - q, d);
    MulMono(a - q, -1, d);
  }
}
