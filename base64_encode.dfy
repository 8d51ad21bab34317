// The base64 encoding of section 4 of RFC 4648 (with `=` padding), written as
// an independent reference, and the proof that the decoder of
// `eplist_get_data` inverts it on every byte string.
module Base64Encode {
  import opened Bytes
  import opened Wrappers
  import opened Base64

  /** The four digits of a whole 3-byte group, most significant bits first. */
  function Group(b0: Byte, b1: Byte, b2: Byte): (r: seq<Digit>)
    ensures |r| == 4
  {
    [b0 / 4, (b0 % 4) * 16 + b1 / 16, (b1 % 16) * 4 + b2 / 64, b2 % 64]
  }

  /** The number of zero bits the last group is filled out with: 0, 4 or 2. */
  function FillBits(n: nat): (p: nat)
    ensures p == 0 || p == 2 || p == 4
  {
    if n % 3 == 0 then 0 else if n % 3 == 1 then 4 else 2
  }

  /** The digits of `s`: whole groups, then a 2-digit (one byte) or 3-digit (two bytes) tail. */
  function Digits(s: seq<Byte>): (r: seq<Digit>)
    ensures 6 * |r| == 8 * |s| + FillBits(|s|)
    ensures |r| == 4 * (|s| / 3) + (if |s| % 3 == 0 then 0 else |s| % 3 + 1)
  {
    if |s| >= 3 then FillShift(|s|); Group(s[0], s[1], s[2]) + Digits(s[3..])
    else if |s| == 2 then [s[0] / 4, (s[0] % 4) * 16 + s[1] / 16, (s[1] % 16) * 4]
    else if |s| == 1 then [s[0] / 4, (s[0] % 4) * 16]
    else []
  }

  /** Dropping a whole group leaves the tail, and so the fill, unchanged. */
  lemma FillShift(n: nat)
    requires n >= 3
    ensures FillBits(n - 3) == FillBits(n) && (n - 3) / 3 == n / 3 - 1 && (n - 3) % 3 == n % 3
  {
  }

  /** The padding that completes the last quantum: none, `==` or `=`. */
  function Padding(n: nat): (r: string)
    ensures |r| == (if n % 3 == 0 then 0 else if n % 3 == 1 then 2 else 1)
  {
    if n % 3 == 0 then "" else if n % 3 == 1 then "==" else "="
  }

  /** The alphabet characters of some digits. */
  function Chars(d: seq<Digit>): (r: string)
    ensures |r| == |d|
  {
    seq(|d|, i requires 0 <= i < |d| => Alphabet(d[i]))
  }

  /** The base64 text of `s`. */
  function Encode(s: seq<Byte>): string
  {
    Chars(Digits(s)) + Padding(|s|)
  }

  /** Every started group of three bytes becomes four characters. */
  lemma EncodeLength(s: seq<Byte>)
    ensures |Encode(s)| == 4 * ((|s| + 2) / 3)
  {
    var n := |s|;
    var k, r := n / 3, n % 3;
    assert n == 3 * k + r;
    DivModUnique(n + 2, 3, k + (if r == 0 then 0 else 1), if r == 0 then 2 else r - 1);
  }

  lemma {:induction false} DataChars(d: seq<Digit>)
    ensures Data(Chars(d)) == d && Pads(Chars(d)) == 0
  {
    if d != [] {
      var t := Chars(d);
      assert t[..|t| - 1] == Chars(d[..|d| - 1]);
      DataChars(d[..|d| - 1]);
      TableInvertsAlphabet();
      assert d == d[..|d| - 1] + [d[|d| - 1]];
    }
  }

  lemma DataPadding(n: nat)
    ensures Data(Padding(n)) == [] && Pads(Padding(n)) == 3 - (if n % 3 == 0 then 3 else n % 3)
  {
    var e: string := "=";
    assert e[..0] == "";
    assert Data(e) == [] && Pads(e) == 1;
    if n % 3 == 1 {
      assert Padding(n) == e + e;
      DataAppend(e, e);
    }
  }

  /** In an encoding every padding character comes after every alphabet character. */
  lemma NoPadBeforeData(s: seq<Byte>)
    ensures !PadBeforeData(Encode(s))
  {
    var c, p := Chars(Digits(s)), Padding(|s|);
    var e := Encode(s);
    forall i, j | 0 <= i < j < |e| ensures !(IsPad(e[i]) && IsData(e[j])) {
      if i < |c| {
        TableInvertsAlphabet();
        assert e[i] == Alphabet(Digits(s)[i]);
      } else {
        assert e[j] == p[j - |c|];
      }
    }
  }

  /** Digits appended after `a` shift its value left by six bits each. */
  lemma {:induction false} SextetsAppend(a: seq<Digit>, b: seq<Digit>)
    ensures SextetsValue(a + b) == SextetsValue(a) * Pow2(6 * |b|) + SextetsValue(b)
    decreases |b|
  {
    if b == [] {
      assert a + b == a;
    } else {
      var b' := b[..|b| - 1];
      assert (a + b)[..|a + b| - 1] == a + b';
      SextetsAppend(a, b');
      Pow2Add(6 * |b'|, 6);
      Pow2Values();
      ShiftDigit(SextetsValue(a), Pow2(6 * |b'|), SextetsValue(b'), b[|b| - 1], 64);
    }
  }

  /** Bytes appended after `a` shift its value left by eight bits each. */
  lemma {:induction false} BeValueAppend(a: seq<Byte>, b: seq<Byte>)
    ensures BeValue(a + b) == BeValue(a) * Pow2(8 * |b|) + BeValue(b)
    decreases |b|
  {
    if b == [] {
      assert a + b == a;
    } else {
      var b' := b[..|b| - 1];
      assert (a + b)[..|a + b| - 1] == a + b';
      BeValueAppend(a, b');
      Pow2Add(8 * |b'|, 8);
      Pow2Values();
      ShiftDigit(BeValue(a), Pow2(8 * |b'|), BeValue(b'), b[|b| - 1], 256);
    }
  }

  /** `(x * p + y) * base + z == x * (p * base) + (y * base + z)`. */
  lemma ShiftDigit(x: nat, p: nat, y: nat, z: nat, base: nat)
    ensures (x * p + y) * base + z == x * (p * base) + (y * base + z)
  {
    assert (x * p) * base == x * (p * base);
  }

  /** A whole group carries its three bytes. */
  lemma GroupValue(b0: Byte, b1: Byte, b2: Byte)
    ensures SextetsValue(Group(b0, b1, b2)) == BeValue([b0, b1, b2])
  {
    var g := Group(b0, b1, b2);
    var d0: nat, d1: nat, d2: nat, d3: nat := g[0], g[1], g[2], g[3];
    assert g[..3][..2] == g[..2] && g[..2][..1] == g[..1] && g[..1][..0] == [];
    assert SextetsValue(g[..1]) == d0;
    assert SextetsValue(g[..2]) == d0 * 64 + d1;
    assert SextetsValue(g[..3]) == (d0 * 64 + d1) * 64 + d2;
    assert SextetsValue(g) == ((d0 * 64 + d1) * 64 + d2) * 64 + d3;
    var s: seq<Byte> := [b0, b1, b2];
    assert s[..2][..1] == s[..1] && s[..1][..0] == [];
    assert BeValue(s[..1]) == b0;
    assert BeValue(s[..2]) == b0 * 256 + b1;
    assert BeValue(s) == (b0 * 256 + b1) * 256 + b2;
    var q0, r0, h1, l1, h2, l2 := b0 / 4, b0 % 4, b1 / 16, b1 % 16, b2 / 64, b2 % 64;
    assert b0 == 4 * q0 + r0 && b1 == 16 * h1 + l1 && b2 == 64 * h2 + l2;
    assert d0 == q0 && d1 == r0 * 16 + h1 && d2 == l1 * 4 + h2 && d3 == l2;
  }

  /** A two-byte tail is carried with two zero bits below it. */
  lemma PairValue(b0: Byte, b1: Byte)
    ensures SextetsValue([b0 / 4, (b0 % 4) * 16 + b1 / 16, (b1 % 16) * 4]) == BeValue([b0, b1]) * 4
  {
    var g: seq<Digit> := [b0 / 4, (b0 % 4) * 16 + b1 / 16, (b1 % 16) * 4];
    var d0: nat, d1: nat, d2: nat := g[0], g[1], g[2];
    assert g[..2][..1] == g[..1] && g[..1][..0] == [];
    assert SextetsValue(g[..1]) == d0;
    assert SextetsValue(g[..2]) == d0 * 64 + d1;
    assert SextetsValue(g) == (d0 * 64 + d1) * 64 + d2;
    var s: seq<Byte> := [b0, b1];
    assert s[..1][..0] == [];
    assert BeValue(s[..1]) == b0;
    assert BeValue(s) == b0 * 256 + b1;
    var q0, r0, h1, l1 := b0 / 4, b0 % 4, b1 / 16, b1 % 16;
    assert b0 == 4 * q0 + r0 && b1 == 16 * h1 + l1;
    assert d0 == q0 && d1 == r0 * 16 + h1 && d2 == l1 * 4;
  }

  /** A one-byte tail is carried with four zero bits below it. */
  lemma SingleValue(b0: Byte)
    ensures SextetsValue([b0 / 4, (b0 % 4) * 16]) == BeValue([b0]) * 16
  {
    var g: seq<Digit> := [b0 / 4, (b0 % 4) * 16];
    var d0: nat, d1: nat := g[0], g[1];
    assert g[..1][..0] == [];
    assert SextetsValue(g[..1]) == d0;
    assert SextetsValue(g) == d0 * 64 + d1;
    var s: seq<Byte> := [b0];
    assert s[..0] == [];
    assert BeValue(s) == b0;
  }

  /** The digits of `s` write the number `s` writes, followed by the fill bits. */
  lemma {:induction false} DigitsValue(s: seq<Byte>)
    ensures SextetsValue(Digits(s)) == BeValue(s) * Pow2(FillBits(|s|))
  {
    Pow2Values();
    if |s| >= 3 {
      DigitsValue(s[3..]);
      GroupStep(s);
    } else if |s| == 2 {
      PairValue(s[0], s[1]);
      assert s == [s[0], s[1]];
    } else if |s| == 1 {
      SingleValue(s[0]);
      assert s == [s[0]];
    } else {
      assert BeValue(s) == 0;
    }
  }

  /** One whole group in front of the rest keeps the digits' value in step with the bytes'. */
  lemma GroupStep(s: seq<Byte>)
    requires |s| >= 3
    requires SextetsValue(Digits(s[3..])) == BeValue(s[3..]) * Pow2(FillBits(|s[3..]|))
    ensures SextetsValue(Digits(s)) == BeValue(s) * Pow2(FillBits(|s|))
  {
    var rest := s[3..];
    var head: seq<Byte> := [s[0], s[1], s[2]];
    var g, dr := Group(s[0], s[1], s[2]), Digits(rest);
    assert Digits(s) == g + dr;
    SextetsAppend(g, dr);
    GroupValue(s[0], s[1], s[2]);
    assert s == head + rest;
    BeValueAppend(head, rest);
    var f := FillBits(|rest|);
    PowSplit(|dr|, |rest|, f);
    GroupArith(SextetsValue(Digits(s)), SextetsValue(g), Pow2(6 * |dr|), SextetsValue(dr),
               BeValue(head), Pow2(8 * |rest|), Pow2(f), BeValue(rest), BeValue(s));
  }

  lemma PowSplit(nd: nat, nb: nat, f: nat)
    requires 6 * nd == 8 * nb + f
    ensures Pow2(6 * nd) == Pow2(8 * nb) * Pow2(f)
  {
    Pow2Add(8 * nb, f);
  }

  /** The value identity behind `GroupStep`, over plain numbers. */
  lemma GroupArith(sv: nat, gv: nat, w: nat, rv: nat, h: nat, p: nat, q: nat, b: nat, bs: nat)
    requires sv == gv * w + rv && gv == h && w == p * q && rv == b * q && bs == h * p + b
    ensures sv == bs * q
  {
    assert h * (p * q) == (h * p) * q;
  }

  /** Multiplying by `2^p` and shifting right by `p` gives the number back. */
  lemma ShrMul(v: nat, p: nat)
    ensures Shr(v * Pow2(p), p) == v
  {
    ShrIsDiv(v * Pow2(p), p);
    DivModUnique(v * Pow2(p), Pow2(p), v, 0);
  }

  /** The packing of the digits of `s` is `s`. */
  lemma UnpackDigits(s: seq<Byte>)
    ensures Unpack(Digits(s)) == s
  {
    var d := Digits(s);
    var p := FillBits(|s|);
    DivModUnique(6 * |d|, 8, |s|, p);
    DigitsValue(s);
    ShrMul(BeValue(s), p);
    BeBytesValue(s);
  }

  /** Decoding the base64 text of any byte string gives that byte string. */
  lemma DecodeEncode(s: seq<Byte>)
    ensures Decode(Encode(s)) == Some(s)
  {
    EncodeCounts(s);
    NoPadBeforeData(s);
    UnpackDigits(s);
  }

  /** The alphabet characters of an encoding are its digits, and with the padding they fill whole quanta. */
  lemma EncodeCounts(s: seq<Byte>)
    ensures Data(Encode(s)) == Digits(s)
    ensures (|Data(Encode(s))| + Pads(Encode(s))) % 4 == 0
  {
    EncodeData(s);
    var e := Encode(s);
    Quanta(|s|, |Data(e)|, Pads(e));
  }

  lemma EncodeData(s: seq<Byte>)
    ensures Data(Encode(s)) == Digits(s)
    ensures Pads(Encode(s)) == 3 - (if |s| % 3 == 0 then 3 else |s| % 3)
  {
    var d := Digits(s);
    DataAppend(Chars(d), Padding(|s|));
    DataChars(d);
    DataPadding(|s|);
  }

  lemma Quanta(n: nat, nd: nat, np: nat)
    requires nd == 4 * (n / 3) + (if n % 3 == 0 then 0 else n % 3 + 1)
    requires np == 3 - (if n % 3 == 0 then 3 else n % 3)
    ensures (nd + np) % 4 == 0
  {
    var k := n / 3 + (if n % 3 == 0 then 0 else 1);
    assert nd + np == 4 * k;
    DivModUnique(nd + np, 4, k, 0);
  }

  /** Characters outside the alphabet and `=` do not change what decodes. */
  lemma SkipInvalid(a: string, c: char, b: string)
    requires Sextet(c) == INVALID
    ensures Decode(a + [c] + b) == Decode(a + b)
  {
    DataAppend(a, [c]);
    DataAppend(a + [c], b);
    DataAppend(a, b);
    assert [c][..0] == [];
    assert Data([c]) == [] && Pads([c]) == 0;
    assert Data(a + [c] + b) == Data(a + b) && Pads(a + [c] + b) == Pads(a + b);
    if PadBeforeData(a + [c] + b) {
      SkipInvalidDrop(a, c, b);
    }
    if PadBeforeData(a + b) {
      SkipInvalidLift(a, c, b);
    }
    assert PadBeforeData(a + [c] + b) == PadBeforeData(a + b);
  }

  lemma SkipInvalidDrop(a: string, c: char, b: string)
    requires Sextet(c) == INVALID && PadBeforeData(a + [c] + b)
    ensures PadBeforeData(a + b)
  {
    var x, y := a + [c] + b, a + b;
    var i, j :| 0 <= i < j < |x| && IsPad(x[i]) && IsData(x[j]);
    var i', j' := Drop(i, |a|), Drop(j, |a|);
    assert y[i'] == x[i] && y[j'] == x[j];
  }

  lemma SkipInvalidLift(a: string, c: char, b: string)
    requires PadBeforeData(a + b)
    ensures PadBeforeData(a + [c] + b)
  {
    var x, y := a + [c] + b, a + b;
    var i, j :| 0 <= i < j < |y| && IsPad(y[i]) && IsData(y[j]);
    var i', j' := Lift(i, |a|), Lift(j, |a|);
    assert x[i'] == y[i] && x[j'] == y[j];
  }

  /** Index in `a + b` of the character at `i` in `a + [c] + b`, other than the `c`. */
  function Drop(i: nat, n: nat): nat
  {
    if i <= n then i else i - 1
  }

  /** Index in `a + [c] + b` of the character at `i` in `a + b`. */
  function Lift(i: nat, n: nat): nat
  {
    if i < n then i else i + 1
  }
}
