// The base64 decoder behind `eplist_get_data` (hx-touchd/mtfw/eplist.c), with
// its decoding table, and the encoder of section 4 of RFC 4648 that it inverts.
module Base64 {
  import opened Bytes
  import opened Wrappers

  /** Table value of the padding character `=`. */
  const PAD: int := 0x40
  /** Table value of every character outside the alphabet. */
  const INVALID: int := 0xff

  /** `eplist_b64`: the 6-bit value of each alphabet character, PAD for `=`, INVALID otherwise. */
  const Table: seq<Byte> :=
    (((([0xff, 0xff, 0xff, 0xff, 0xff, 0xff, 0xff, 0xff, 0xff, 0xff, 0xff, 0xff, 0xff, 0xff, 0xff, 0xff] +
    [0xff, 0xff, 0xff, 0xff, 0xff, 0xff, 0xff, 0xff, 0xff, 0xff, 0xff, 0xff, 0xff, 0xff, 0xff, 0xff]) +
    ([0xff, 0xff, 0xff, 0xff, 0xff, 0xff, 0xff, 0xff, 0xff, 0xff, 0xff, 0x3e, 0xff, 0xff, 0xff, 0x3f] +
    [0x34, 0x35, 0x36, 0x37, 0x38, 0x39, 0x3a, 0x3b, 0x3c, 0x3d, 0xff, 0xff, 0xff, 0x40, 0xff, 0xff])) +
    (([0xff, 0x00, 0x01, 0x02, 0x03, 0x04, 0x05, 0x06, 0x07, 0x08, 0x09, 0x0a, 0x0b, 0x0c, 0x0d, 0x0e] +
    [0x0f, 0x10, 0x11, 0x12, 0x13, 0x14, 0x15, 0x16, 0x17, 0x18, 0x19, 0xff, 0xff, 0xff, 0xff, 0xff]) +
    ([0xff, 0x1a, 0x1b, 0x1c, 0x1d, 0x1e, 0x1f, 0x20, 0x21, 0x22, 0x23, 0x24, 0x25, 0x26, 0x27, 0x28] +
    [0x29, 0x2a, 0x2b, 0x2c, 0x2d, 0x2e, 0x2f, 0x30, 0x31, 0x32, 0x33, 0xff, 0xff, 0xff, 0xff, 0xff]))) +
    ((([0xff, 0xff, 0xff, 0xff, 0xff, 0xff, 0xff, 0xff, 0xff, 0xff, 0xff, 0xff, 0xff, 0xff, 0xff, 0xff] +
    [0xff, 0xff, 0xff, 0xff, 0xff, 0xff, 0xff, 0xff, 0xff, 0xff, 0xff, 0xff, 0xff, 0xff, 0xff, 0xff]) +
    ([0xff, 0xff, 0xff, 0xff, 0xff, 0xff, 0xff, 0xff, 0xff, 0xff, 0xff, 0xff, 0xff, 0xff, 0xff, 0xff] +
    [0xff, 0xff, 0xff, 0xff, 0xff, 0xff, 0xff, 0xff, 0xff, 0xff, 0xff, 0xff, 0xff, 0xff, 0xff, 0xff])) +
    (([0xff, 0xff, 0xff, 0xff, 0xff, 0xff, 0xff, 0xff, 0xff, 0xff, 0xff, 0xff, 0xff, 0xff, 0xff, 0xff] +
    [0xff, 0xff, 0xff, 0xff, 0xff, 0xff, 0xff, 0xff, 0xff, 0xff, 0xff, 0xff, 0xff, 0xff, 0xff, 0xff]) +
    ([0xff, 0xff, 0xff, 0xff, 0xff, 0xff, 0xff, 0xff, 0xff, 0xff, 0xff, 0xff, 0xff, 0xff, 0xff, 0xff] +
    [0xff, 0xff, 0xff, 0xff, 0xff, 0xff, 0xff, 0xff, 0xff, 0xff, 0xff, 0xff, 0xff, 0xff, 0xff, 0xff]))))

  /**
   * The `eplist_b64` entry for a character (the C code indexes the table with
   * an unsigned byte), written by ranges; `TableAgrees` shows it matches the
   * table entry for entry.
   */
  function Sextet(c: char): Byte
  {
    if 'A' <= c <= 'Z' then c as int - 'A' as int
    else if 'a' <= c <= 'z' then c as int - 'a' as int + 26
    else if '0' <= c <= '9' then c as int - '0' as int + 52
    else if c == '+' then 62
    else if c == '/' then 63
    else if c == '=' then PAD
    else INVALID
  }

  /** A 6-bit value. */
  type Digit = x: int | 0 <= x < 64

  predicate IsData(c: char) { Sextet(c) < 64 }

  predicate IsPad(c: char) { Sextet(c) == PAD }

  /** The 6-bit values of the alphabet characters of `s`, in order; every other character is skipped. */
  function Data(s: string): (d: seq<Digit>)
    ensures |d| <= |s|
  {
    if s == [] then []
    else Data(s[..|s| - 1]) + (if IsData(s[|s| - 1]) then [Sextet(s[|s| - 1])] else [])
  }

  /** The number of padding characters in `s`. */
  function Pads(s: string): nat
  {
    if s == [] then 0
    else Pads(s[..|s| - 1]) + (if IsPad(s[|s| - 1]) then 1 else 0)
  }

  /** Some alphabet character comes after a padding character. */
  ghost predicate PadBeforeData(s: string)
  {
    exists i, j | 0 <= i < j < |s| :: IsPad(s[i]) && IsData(s[j])
  }

  function Pow2(n: nat): (r: nat)
    ensures r >= 1
  {
    if n == 0 then 1 else 2 * Pow2(n - 1)
  }

  /** The number written by 6-bit digits, most significant first. */
  function SextetsValue(d: seq<Digit>): nat
  {
    if d == [] then 0 else SextetsValue(d[..|d| - 1]) * 64 + d[|d| - 1]
  }

  /** The number written by bytes, most significant first. */
  function BeValue(s: seq<Byte>): nat
  {
    if s == [] then 0 else BeValue(s[..|s| - 1]) * 256 + s[|s| - 1]
  }

  /** The low `k` bytes of `v`, most significant first. */
  function BeBytes(v: nat, k: nat): (r: seq<Byte>)
    ensures |r| == k
  {
    if k == 0 then [] else BeBytes(v / 256, k - 1) + [v % 256]
  }

  /**
   * The bytes packed by the 6-bit digits `d`, most significant bit first: the
   * `6|d| / 8` whole bytes, with the `6|d| % 8` trailing bits dropped.
   */
  function Unpack(d: seq<Digit>): (r: seq<Byte>)
    ensures |r| == 6 * |d| / 8
  {
    BeBytes(Shr(SextetsValue(d), 6 * |d| % 8), 6 * |d| / 8)
  }

  /**
   * What `eplist_get_data` decodes from `text`: nothing when an alphabet
   * character follows padding or when the number of alphabet and padding
   * characters is not a multiple of four.
   */
  ghost function Decode(text: string): Option<seq<Byte>>
  {
    if PadBeforeData(text) || (|Data(text)| + Pads(text)) % 4 != 0 then None
    else Some(Unpack(Data(text)))
  }

  /** The alphabet of section 4 of RFC 4648. */
  function Alphabet(v: int): char
    requires 0 <= v < 64
  {
    if v < 26 then ('A' as int + v) as char
    else if v < 52 then ('a' as int + v - 26) as char
    else if v < 62 then ('0' as int + v - 52) as char
    else if v == 62 then '+'
    else '/'
  }

  // `Sextet` is the table, a few rows at a time.
  lemma TableControl(c: nat)
    requires 0 <= c < 32
    ensures Table[c] == Sextet(c as char)
  {
  }

  lemma TableSymbols(c: nat)
    requires 32 <= c < 48
    ensures Table[c] == Sextet(c as char)
  {
  }

  lemma TableDigits(c: nat)
    requires 48 <= c < 64
    ensures Table[c] == Sextet(c as char)
  {
  }

  lemma TableUpperA(c: nat)
    requires 64 <= c < 80
    ensures Table[c] == Sextet(c as char)
  {
  }

  lemma TableUpperP(c: nat)
    requires 80 <= c < 96
    ensures Table[c] == Sextet(c as char)
  {
  }

  lemma TableLowerA(c: nat)
    requires 96 <= c < 112
    ensures Table[c] == Sextet(c as char)
  {
  }

  lemma TableLowerP(c: nat)
    requires 112 <= c < 128
    ensures Table[c] == Sextet(c as char)
  {
  }

  lemma TableHigh1(c: nat)
    requires 128 <= c < 160
    ensures Table[c] == Sextet(c as char)
  {
  }

  lemma TableHigh2(c: nat)
    requires 160 <= c < 192
    ensures Table[c] == Sextet(c as char)
  {
  }

  lemma TableHigh3(c: nat)
    requires 192 <= c < 224
    ensures Table[c] == Sextet(c as char)
  {
  }

  lemma TableHigh4(c: nat)
    requires 224 <= c < 256
    ensures Table[c] == Sextet(c as char)
  {
  }

  /** `eplist_b64` has an entry for every byte value, and `Sextet` reads it. */
  lemma TableAgrees()
    ensures |Table| == 256
    ensures forall c | 0 <= c < 256 :: Table[c] == Sextet(c as char)
  {
    forall c | 0 <= c < 256 ensures Table[c] == Sextet(c as char) {
      if c < 32 {
        TableControl(c);
      } else if c < 48 {
        TableSymbols(c);
      } else if c < 64 {
        TableDigits(c);
      } else if c < 80 {
        TableUpperA(c);
      } else if c < 96 {
        TableUpperP(c);
      } else if c < 112 {
        TableLowerA(c);
      } else if c < 128 {
        TableLowerP(c);
      } else if c < 160 {
        TableHigh1(c);
      } else if c < 192 {
        TableHigh2(c);
      } else if c < 224 {
        TableHigh3(c);
      } else {
        TableHigh4(c);
      }
    }
  }

  /** The table inverts the alphabet: each of the 64 characters decodes to its own value. */
  lemma TableInvertsAlphabet()
    ensures forall v | 0 <= v < 64 :: Sextet(Alphabet(v)) == v
  {
  }

  lemma {:induction false} Pow2Add(a: nat, b: nat)
    ensures Pow2(a + b) == Pow2(a) * Pow2(b)
    decreases a
  {
    if a > 0 {
      Pow2Add(a - 1, b);
    }
  }

  lemma Pow2Values()
    ensures Pow2(2) == 4 && Pow2(4) == 16 && Pow2(6) == 64 && Pow2(8) == 256
    ensures Pow2(20) == 0x10_0000 && Pow2(22) == 0x40_0000 && Pow2(24) == 0x100_0000
    ensures Pow2(26) == 0x400_0000 && Pow2(28) == 0x1000_0000 && Pow2(30) == 0x4000_0000
    ensures Pow2(32) == U32
  {
    assert Pow2(2) == 4;
    assert Pow2(4) == 16;
    Pow2Add(4, 4);
    Pow2Add(8, 8);
    Pow2Add(16, 4);
    Pow2Add(16, 6);
    Pow2Add(16, 8);
    Pow2Add(20, 6);
    Pow2Add(20, 8);
    Pow2Add(24, 6);
    Pow2Add(24, 8);
  }

  /** `x << n` without truncation. */
  function Shl(x: nat, n: nat): nat
  {
    if n == 0 then x else Shl(x, n - 1) * 2
  }

  /** `x >> n`. */
  function Shr(x: nat, n: nat): nat
  {
    if n == 0 then x else Shr(x, n - 1) / 2
  }

  lemma {:induction false} ShlIsMul(x: nat, n: nat)
    ensures Shl(x, n) == x * Pow2(n)
  {
    if n > 0 {
      ShlIsMul(x, n - 1);
    }
  }

  lemma {:induction false} ShrIsDiv(x: nat, n: nat)
    ensures Shr(x, n) == x / Pow2(n)
  {
    if n > 0 {
      ShrIsDiv(x, n - 1);
      HalveDiv(x, Pow2(n - 1));
    }
  }

  /** Halving the quotient by `p` is dividing by `2p`. */
  lemma HalveDiv(x: nat, p: nat)
    requires p >= 1
    ensures x / p / 2 == x / (2 * p)
  {
    var q, r := x / p, x % p;
    var h, l := q / 2, q % 2;
    assert x == h * (2 * p) + (l * p + r) by {
      assert x == q * p + r;
      assert q * p == (2 * h + l) * p == h * (2 * p) + l * p;
    }
    assert l * p + r < 2 * p by {
      MulMono(l, 1, p);
    }
    DivModUnique(x, 2 * p, h, l * p + r);
  }

  /**
   * Six more bits enter the shift buffer below the `bits` pending ones (so
   * `|` is `+`): the pending value becomes `pend * 64 + ch`.
   */
  lemma {:induction false} ShlAdd(x: nat, y: nat, n: nat)
    ensures Shl(x + y, n) == Shl(x, n) + Shl(y, n)
  {
    if n > 0 {
      ShlAdd(x, y, n - 1);
    }
  }

  lemma {:induction false} ShlShl(x: nat, a: nat, b: nat)
    ensures Shl(Shl(x, a), b) == Shl(x, a + b)
  {
    if b > 0 {
      ShlShl(x, a, b - 1);
    }
  }

  lemma ShlSmall(x: nat)
    ensures Shl(x, 6) == x * 64 && Shl(x, 8) == x * 256
  {
    ShlIsMul(x, 6);
    ShlIsMul(x, 8);
    Pow2Values();
  }

  /** The six new bits lie just below the pending ones, so `|` is `+`. */
  lemma ShiftMerge(bits: nat, pend: nat, ch: nat)
    requires bits <= 26
    ensures Shl(pend, 32 - bits) + Shl(ch, 26 - bits) == Shl(pend * 64 + ch, 26 - bits)
  {
    ShlSmall(pend);
    ShlShl(pend, 6, 26 - bits);
    ShlAdd(pend * 64, ch, 26 - bits);
  }

  /** Appending six bits to a `bits`-bit value gives a `bits + 6`-bit value. */
  lemma PendBound(bits: nat, pend: nat, ch: nat)
    requires pend < Pow2(bits) && ch < 64
    ensures pend * 64 + ch < Pow2(bits + 6)
  {
    Pow2Add(bits, 6);
    Pow2Values();
    MulMono(pend + 1, Pow2(bits), 64);
  }

  /** The value read so far gains the digit `ch` at its low end. */
  lemma ValueStep(bits: nat, pend: nat, ch: nat, o: nat, v: nat)
    requires Shl(o, bits) + pend == v
    ensures Shl(o, bits + 6) + (pend * 64 + ch) == v * 64 + ch
  {
    ShlShl(o, bits, 6);
    ShlSmall(Shl(o, bits));
  }

  lemma AbsorbStep(bits: nat, pend: nat, ch: nat, o: nat, v: nat)
    requires bits % 2 == 0 && bits < 8 && pend < Pow2(bits) && ch < 64
    requires Shl(o, bits) + pend == v
    ensures Shl(pend, 32 - bits) + Shl(ch, 26 - bits) == Shl(pend * 64 + ch, 26 - bits)
    ensures pend * 64 + ch < Pow2(bits + 6)
    ensures Shl(o, bits + 6) + (pend * 64 + ch) == v * 64 + ch
  {
    ShiftMerge(bits, pend, ch);
    PendBound(bits, pend, ch);
    ValueStep(bits, pend, ch, o, v);
  }

  /** The buffer holding `q` at its top (8 to 12 bits) fits in 32 bits, and its top byte is `q`'s top 8 bits. */
  lemma EmitHigh(bits: nat, q: nat)
    requires 8 <= bits <= 12 && q < Pow2(bits)
    ensures Shl(q, 32 - bits) < U32
    ensures Shr(Shl(q, 32 - bits), 24) == q / Pow2(bits - 8) < 256
  {
    var r := bits - 8;
    var pr, ps := Pow2(r), Pow2(24 - r);
    Pow2Values();
    Pow2Add(8, r);
    Pow2Add(r, 24 - r);
    TopByte(q, pr, ps);
    ShlIsMul(q, 32 - bits);
    ShrIsDiv(q * ps, 24);
  }

  /** Shifting the buffer left by 8 within 32 bits leaves the low bits of `q` at its top. */
  lemma EmitLow(bits: nat, q: nat)
    requires 8 <= bits <= 12 && q < Pow2(bits)
    ensures Shl(Shl(q, 32 - bits), 8) % U32 == Shl(q % Pow2(bits - 8), 40 - bits)
  {
    var r := bits - 8;
    var pr, ps := Pow2(r), Pow2(24 - r);
    Pow2Values();
    Pow2Add(8, r);
    Pow2Add(r, 24 - r);
    Pow2Add(24 - r, 8);
    TopByte(q, pr, ps);
    ShlIsMul(q, 32 - bits);
    ShlSmall(q * ps);
    ShlIsMul(q % pr, 40 - bits);
    assert (q % pr) * Pow2(40 - bits) == (q % pr) * (ps * 256);
  }

  /** Moving the top 8 pending bits into the output keeps the value read so far. */
  lemma EmitValue(bits: nat, q: nat, o: nat, w: nat)
    requires 8 <= bits <= 12
    requires Shl(o, bits) + q == w
    ensures Shl(o * 256 + q / Pow2(bits - 8), bits - 8) + q % Pow2(bits - 8) == w
  {
    var r := bits - 8;
    var pr := Pow2(r);
    ShlAdd(o * 256, q / pr, r);
    ShlSmall(o);
    ShlShl(o, 8, r);
    ShlIsMul(q / pr, r);
  }

  /**
   * With `bits` (8 to 12) pending, the top byte `hi` of the buffer is emitted
   * and the buffer shifted left by 8 within 32 bits, leaving `lo` pending.
   */
  lemma EmitStep(bits: nat, q: nat, o: nat, w: nat) returns (hi: nat, lo: nat)
    requires bits % 2 == 0 && 8 <= bits <= 12 && q < Pow2(bits)
    requires Shl(o, bits) + q == w
    ensures Shl(q, 32 - bits) < U32
    ensures hi == Shr(Shl(q, 32 - bits), 24) && hi < 256
    ensures Shl(Shl(q, 32 - bits), 8) % U32 == Shl(lo, 40 - bits)
    ensures lo < Pow2(bits - 8)
    ensures Shl(o * 256 + hi, bits - 8) + lo == w
  {
    EmitHigh(bits, q);
    EmitLow(bits, q);
    EmitValue(bits, q, o, w);
    hi, lo := q / Pow2(bits - 8), q % Pow2(bits - 8);
  }

  /** Splitting `q * ps` (with `pr * ps == 2^24`) into its top byte and the rest. */
  lemma TopByte(q: nat, pr: nat, ps: nat)
    requires pr >= 1 && ps >= 1 && pr * ps == 0x100_0000 && q < 256 * pr
    ensures q * ps < U32
    ensures q * ps / 0x100_0000 == q / pr < 256
    ensures (q * ps * 256) % U32 == (q % pr) * (ps * 256)
    ensures q == (q / pr) * pr + q % pr
  {
    var hi, lo := q / pr, q % pr;
    MulMono(256, hi, pr);
    assert q * ps == hi * 0x100_0000 + lo * ps by {
      assert q * ps == (hi * pr) * ps + lo * ps;
      assert (hi * pr) * ps == hi * (pr * ps);
    }
    assert lo * ps < 0x100_0000 by {
      assert lo * ps <= (pr - 1) * ps;
    }
    DivModUnique(q * ps, 0x100_0000, hi, lo * ps);
    assert q * ps * 256 == hi * U32 + lo * (ps * 256);
    DivModUnique(q * ps * 256, U32, hi, lo * (ps * 256));
  }

  lemma {:induction false} DataAppend(a: string, b: string)
    ensures Data(a + b) == Data(a) + Data(b)
    ensures Pads(a + b) == Pads(a) + Pads(b)
    decreases |b|
  {
    if b == [] {
      assert a + b == a;
    } else {
      assert (a + b)[..|a + b| - 1] == a + b[..|b| - 1];
      DataAppend(a, b[..|b| - 1]);
    }
  }

  /** A positive padding count has a witness. */
  lemma {:induction false} PadIndex(s: string) returns (k: nat)
    requires Pads(s) > 0
    ensures k < |s| && IsPad(s[k])
  {
    if IsPad(s[|s| - 1]) {
      k := |s| - 1;
    } else {
      k := PadIndex(s[..|s| - 1]);
    }
  }

  lemma {:induction false} NoPads(s: string)
    requires Pads(s) == 0
    ensures forall k | 0 <= k < |s| :: !IsPad(s[k])
  {
    if s != [] {
      NoPads(s[..|s| - 1]);
      assert forall k | 0 <= k < |s| - 1 :: s[k] == s[..|s| - 1][k];
    }
  }

  /** Reading bytes as a number and writing the number back gives the bytes. */
  lemma {:induction false} BeBytesValue(s: seq<Byte>)
    ensures BeBytes(BeValue(s), |s|) == s
  {
    if s != [] {
      var p, last := s[..|s| - 1], s[|s| - 1];
      var v := BeValue(s);
      assert v == BeValue(p) * 256 + last;
      DivModUnique(v, 256, BeValue(p), last);
      BeBytesValue(p);
      calc {
        BeBytes(v, |s|);
        BeBytes(v / 256, |p|) + [v % 256];
        p + [last];
        s;
      }
    }
  }

  /**
   * The validation pass of `eplist_get_data`: counts alphabet and padding
   * characters, and gives up as soon as an alphabet character follows padding.
   */
  method CountText(text: string) returns (ok: bool, nc: nat, np: nat)
    ensures ok <==> !PadBeforeData(text)
    ensures ok ==> nc == |Data(text)| && np == Pads(text)
  {
    nc, np := 0, 0;
    var i := 0;
    while i < |text|
      invariant 0 <= i <= |text|
      invariant nc == |Data(text[..i])| && np == Pads(text[..i])
      invariant !PadBeforeData(text[..i])
    {
      var ch := Sextet(text[i]);
      assert text[..i + 1][..i] == text[..i];
      if ch < 64 {
        if np != 0 {
          var k := PadIndex(text[..i]);
          assert text[..i][k] == text[k];
          assert IsPad(text[k]) && IsData(text[i]);
          return false, 0, 0;
        }
        NoPads(text[..i]);
        nc := nc + 1;
      }
      if ch == 64 {
        np := np + 1;
      }
      ghost var t := text[..i + 1];
      forall p, q | 0 <= p < q < i + 1 ensures !(IsPad(t[p]) && IsData(t[q])) {
        if q < i {
          assert t[p] == text[..i][p] && t[q] == text[..i][q];
        } else {
          assert t[p] == text[..i][p];
        }
      }
      i := i + 1;
    }
    assert text[..i] == text;
    ok := true;
  }

  /** A digit entering a buffer that then holds fewer than 8 bits. */
  lemma Absorb(bits: nat, pend: nat, b: nat, o: nat, v: nat, ch: Digit)
    requires bits % 2 == 0 && bits + 6 < 8 && pend < Pow2(bits) && b == Shl(pend, 32 - bits) && Shl(o, bits) + pend == v
    ensures pend * 64 + ch < Pow2(bits + 6) && b + Shl(ch, 26 - bits) == Shl(pend * 64 + ch, 26 - bits)
    ensures Shl(o, bits + 6) + (pend * 64 + ch) == v * 64 + ch
  {
    AbsorbStep(bits, pend, ch, o, v);
  }

  /** A digit entering a buffer with pending bits, after which the top byte goes out. */
  lemma AbsorbEmit(bits: nat, pend: nat, b: nat, o: nat, v: nat, ch: Digit, buf: nat) returns (lo: nat)
    requires bits % 2 == 0 && bits < 8 && pend < Pow2(bits) && b == Shl(pend, 32 - bits) && Shl(o, bits) + pend == v
    requires bits + 6 >= 8 && buf == b + Shl(ch, 26 - bits)
    ensures Shr(buf, 24) < 256
    ensures lo < Pow2(bits - 2) && Shl(buf, 8) % U32 == Shl(lo, 34 - bits)
    ensures Shl(o * 256 + Shr(buf, 24), bits - 2) + lo == v * 64 + ch
  {
    lo := (pend * 64 + ch) % Pow2(bits - 2);
    AbsorbTop(bits, pend, b, o, v, ch, buf);
    AbsorbRest(bits, pend, b, o, v, ch, buf);
    AbsorbValue(bits, pend, b, o, v, ch, buf);
  }

  lemma AbsorbTop(bits: nat, pend: nat, b: nat, o: nat, v: nat, ch: Digit, buf: nat)
    requires bits % 2 == 0 && bits < 8 && pend < Pow2(bits) && b == Shl(pend, 32 - bits) && Shl(o, bits) + pend == v
    requires bits + 6 >= 8 && buf == b + Shl(ch, 26 - bits)
    ensures Shr(buf, 24) < 256
  {
    AbsorbStep(bits, pend, ch, o, v);
    EmitTop(bits + 6, pend * 64 + ch, 26 - bits, buf);
  }

  lemma AbsorbRest(bits: nat, pend: nat, b: nat, o: nat, v: nat, ch: Digit, buf: nat)
    requires bits % 2 == 0 && bits < 8 && pend < Pow2(bits) && b == Shl(pend, 32 - bits) && Shl(o, bits) + pend == v
    requires bits + 6 >= 8 && buf == b + Shl(ch, 26 - bits)
    ensures (pend * 64 + ch) % Pow2(bits - 2) < Pow2(bits - 2)
    ensures Shl(buf, 8) % U32 == Shl((pend * 64 + ch) % Pow2(bits - 2), 34 - bits)
  {
    AbsorbStep(bits, pend, ch, o, v);
    EmitRest(bits + 6, pend * 64 + ch, 26 - bits, bits - 2, 34 - bits, buf);
  }

  lemma AbsorbValue(bits: nat, pend: nat, b: nat, o: nat, v: nat, ch: Digit, buf: nat)
    requires bits % 2 == 0 && bits < 8 && pend < Pow2(bits) && b == Shl(pend, 32 - bits) && Shl(o, bits) + pend == v
    requires bits + 6 >= 8 && buf == b + Shl(ch, 26 - bits)
    ensures Shl(o * 256 + Shr(buf, 24), bits - 2) + (pend * 64 + ch) % Pow2(bits - 2) == v * 64 + ch
  {
    AbsorbStep(bits, pend, ch, o, v);
    EmitValueOf(bits + 6, pend * 64 + ch, 26 - bits, bits - 2, o, v * 64 + ch, buf);
  }

  /** With `n` bits pending at the top of `buf` (shifted left by `s`), the byte that goes out fits in a byte. */
  lemma EmitTop(n: nat, q: nat, s: nat, buf: nat)
    requires 8 <= n <= 12 && q < Pow2(n) && s == 32 - n && buf == Shl(q, s)
    ensures Shr(buf, 24) < 256
  {
    EmitHigh(n, q);
  }

  /** The bits left in the buffer are the low `r = n - 8` pending bits, shifted left by `t`. */
  lemma EmitRest(n: nat, q: nat, s: nat, r: nat, t: nat, buf: nat)
    requires 8 <= n <= 12 && q < Pow2(n) && s == 32 - n && r == n - 8 && t == 40 - n && buf == Shl(q, s)
    ensures q % Pow2(r) < Pow2(r) && Shl(buf, 8) % U32 == Shl(q % Pow2(r), t)
  {
    EmitLow(n, q);
  }

  /** The bytes written, the byte that goes out and the `r = n - 8` bits left carry the digits so far. */
  lemma EmitValueOf(n: nat, q: nat, s: nat, r: nat, o: nat, w: nat, buf: nat)
    requires 8 <= n <= 12 && q < Pow2(n) && s == 32 - n && r == n - 8 && buf == Shl(q, s) && Shl(o, n) + q == w
    ensures Shl(o * 256 + Shr(buf, 24), r) + q % Pow2(r) == w
  {
    EmitHigh(n, q);
    EmitValue(n, q, o, w);
  }

  // The lemmas below state `Carries` (the state of the decoding pass) written
  // out, which keeps their arithmetic cheap to verify.

  /** The decoding pass starts with no data, no pending bits and nothing written. */
  lemma DecodingStart(d: seq<Digit>, bits: nat, b: nat, pend: nat, acc: seq<Byte>)
    requires d == [] && bits == 0 && b == 0 && pend == 0 && acc == []
    ensures 8 * |acc| + bits == 6 * |d| && bits % 2 == 0 && bits < 8
            && pend < Pow2(bits) && b == Shl(pend, 32 - bits) && Shl(BeValue(acc), bits) + pend == SextetsValue(d)
  {
    ShlIsMul(0, 32);
  }

  /** A digit entering a buffer that then holds fewer than 8 bits. */
  lemma AbsorbDigit(d: seq<Digit>, ch: Digit, bits: nat, b: nat, pend: nat, acc: seq<Byte>, bits': nat, b': nat)
    returns (pend': nat)
    requires 8 * |acc| + bits == 6 * |d| && bits % 2 == 0 && bits < 8
            && pend < Pow2(bits) && b == Shl(pend, 32 - bits) && Shl(BeValue(acc), bits) + pend == SextetsValue(d)
    requires bits + 6 < 8 && bits' == bits + 6 && b' == b + Shl(ch, 32 - bits')
    ensures 8 * |acc| + bits' == 6 * |d + [ch]| && bits' % 2 == 0 && bits' < 8
            && pend' < Pow2(bits') && b' == Shl(pend', 32 - bits') && Shl(BeValue(acc), bits') + pend' == SextetsValue(d + [ch])
  {
    SextetsSnoc(d, ch);
    assert 32 - bits' == 26 - bits;
    Absorb(bits, pend, b, BeValue(acc), SextetsValue(d), ch);
    pend' := pend * 64 + ch;
  }

  /** A digit that completes a byte: the byte fits, and it is within the `6n / 8` bytes of `n` digits. */
  lemma EmitRoom(d: seq<Digit>, ch: Digit, bits: nat, b: nat, pend: nat, acc: seq<Byte>, b': nat, n: nat, size: nat)
    requires 8 * |acc| + bits == 6 * |d| && bits % 2 == 0 && bits < 8
            && pend < Pow2(bits) && b == Shl(pend, 32 - bits) && Shl(BeValue(acc), bits) + pend == SextetsValue(d)
    requires bits + 6 >= 8 && |d| < n && size == 6 * n / 8 && b' == b + Shl(ch, 32 - (bits + 6))
    ensures |acc| < size && Shr(b', 24) < 256
  {
    assert 32 - (bits + 6) == 26 - bits;
    var lo := AbsorbEmit(bits, pend, b, BeValue(acc), SextetsValue(d), ch, b');
    DivBound(|acc| + 1, 6 * n);
  }

  /** A digit completing a byte, which leaves the top of the buffer. */
  lemma EmitDigit(d: seq<Digit>, ch: Digit, bits: nat, b: nat, pend: nat, acc: seq<Byte>, bits': nat, b1: nat, b': nat, acc': seq<Byte>)
    returns (pend': nat)
    requires 8 * |acc| + bits == 6 * |d| && bits % 2 == 0 && bits < 8
            && pend < Pow2(bits) && b == Shl(pend, 32 - bits) && Shl(BeValue(acc), bits) + pend == SextetsValue(d)
    requires bits + 6 >= 8 && b1 == b + Shl(ch, 32 - (bits + 6)) && Shr(b1, 24) < 256
    requires bits' == bits + 6 - 8 && b' == Shl(b1, 8) % U32 && acc' == acc + [Shr(b1, 24)]
    ensures 8 * |acc'| + bits' == 6 * |d + [ch]| && bits' % 2 == 0 && bits' < 8
            && pend' < Pow2(bits') && b' == Shl(pend', 32 - bits') && Shl(BeValue(acc'), bits') + pend' == SextetsValue(d + [ch])
  {
    SextetsSnoc(d, ch);
    assert 32 - (bits + 6) == 26 - bits && 32 - bits' == 34 - bits && bits' == bits - 2;
    assert bits == 2 || bits == 4 || bits == 6;
    assert 8 * |acc'| == 8 * |acc| + 8 && |d + [ch]| == |d| + 1;
    assert b1 == b + Shl(ch, 26 - bits);
    pend' := AbsorbEmit(bits, pend, b, BeValue(acc), SextetsValue(d), ch, b1);
    assert acc'[..|acc'| - 1] == acc;
    assert BeValue(acc') == BeValue(acc) * 256 + Shr(b1, 24);
  }

  /** At the end of the data the bytes written are the unpacked data. */
  lemma DecodingDone(d: seq<Digit>, bits: nat, b: nat, pend: nat, acc: seq<Byte>)
    requires 8 * |acc| + bits == 6 * |d| && bits % 2 == 0 && bits < 8
            && pend < Pow2(bits) && b == Shl(pend, 32 - bits) && Shl(BeValue(acc), bits) + pend == SextetsValue(d)
    ensures acc == Unpack(d)
  {
    UnpackValue(d, BeValue(acc), pend, bits, |acc|);
    BeBytesValue(acc);
  }

  /** `8x <= n` bounds `x` by `n / 8`. */
  lemma DivBound(x: nat, n: nat)
    requires 8 * x <= n
    ensures x <= n / 8
  {
    DivModUnique(n, 8, n / 8, n % 8);
    MulMono(n / 8 + 1, x, 8);
  }

  /** A prefix carries no more data than the whole text. */
  lemma PrefixData(text: string, i: nat)
    requires i <= |text|
    ensures |Data(text[..i])| <= |Data(text)|
  {
    DataAppend(text[..i], text[i..]);
    assert text[..i] + text[i..] == text;
  }

  /**
   * The body of the decoding loop for an alphabet digit `ch`: six more bits
   * enter the buffer below the pending ones, and once 8 or more are pending
   * the top byte is written at `out[k]` and shifted out of the buffer.
   */
  method Feed(out: array<Byte>, ch: Digit, bits: nat, b: nat, k: nat, ghost d: seq<Digit>, ghost pend: nat, ghost n: nat, ghost size: nat)
    returns (bits': nat, b': nat, k': nat, ghost pend': nat)
    requires size == 6 * n / 8 <= out.Length && |d| < n && k <= out.Length
    requires Carries(out[..k], d, bits, b, pend)
    modifies out
    ensures k' <= size
    ensures Carries(out[..k'], d + [ch], bits', b', pend')
  {
    ghost var acc := out[..k];
    bits' := bits + 6;
    b' := b + Shl(ch, 32 - bits');  // `b |= ch << (32 - nc)`: the new bits lie below the pending ones
    k' := k;
    if bits' >= 8 {
      EmitRoom(d, ch, bits, b, pend, acc, b', n, size);
      ghost var b1 := b';
      out[k] := Shr(b', 24);
      assert out[..k + 1] == acc + [Shr(b1, 24)];
      b' := Shl(b', 8) % U32;
      bits' := bits' - 8;
      k' := k + 1;
      pend' := EmitDigit(d, ch, bits, b, pend, acc, bits', b1, b', out[..k']);
    } else {
      pend' := AbsorbDigit(d, ch, bits, b, pend, acc, bits', b');
      DivBound(k, 6 * n);
    }
  }

  /**
   * The state of the decoding pass after the data `d`: the bytes `acc`
   * written so far and the `bits` pending bits `pend` together carry exactly
   * the bits of `d`, and the 32-bit buffer `b` holds `pend` at its top.
   */
  ghost predicate Carries(acc: seq<Byte>, d: seq<Digit>, bits: nat, b: nat, pend: nat)
  {
    8 * |acc| + bits == 6 * |d| && bits % 2 == 0 && bits < 8
    && pend < Pow2(bits) && b == Shl(pend, 32 - bits) && Shl(BeValue(acc), bits) + pend == SextetsValue(d)
  }

  /**
   * The decoding pass of `eplist_get_data`: alphabet characters enter a 32-bit
   * shift buffer `b` whose top `bits` bits are pending; each whole byte at the
   * top is written to `out`.
   */
  method UnpackText(text: string, out: array<Byte>)
    requires 6 * |Data(text)| / 8 <= out.Length
    modifies out
    ensures out[..6 * |Data(text)| / 8] == Unpack(Data(text))
  {
    ghost var n := |Data(text)|;
    ghost var size := 6 * n / 8;
    var bits: nat, k: nat, b: nat := 0, 0, 0;
    ghost var d: seq<Digit>, pend: nat := [], 0;
    DecodingStart(d, bits, b, pend, out[..k]);
    var i := 0;
    while i < |text|
      invariant i <= |text| && d == Data(text[..i]) && k <= size
      invariant Carries(out[..k], d, bits, b, pend)
    {
      var ch := Sextet(text[i]);
      DataStep(text, i);
      if ch < 64 {
        bits, b, k, pend := Feed(out, ch, bits, b, k, d, pend, n, size);
        d := d + [ch];
      }
      i := i + 1;
    }
    assert text[..i] == text;
    DecodingDone(d, bits, b, pend, out[..k]);
  }

  lemma SextetsSnoc(d: seq<Digit>, ch: Digit)
    ensures SextetsValue(d + [ch]) == SextetsValue(d) * 64 + ch
  {
    assert (d + [ch])[..|d|] == d;
  }

  /** How one more character changes the alphabet data of a prefix. */
  lemma DataStep(text: string, i: nat)
    requires i < |text|
    ensures IsData(text[i]) ==> Data(text[..i + 1]) == Data(text[..i]) + [Sextet(text[i]) as Digit]
    ensures IsData(text[i]) ==> |Data(text[..i])| < |Data(text)|
    ensures !IsData(text[i]) ==> Data(text[..i + 1]) == Data(text[..i])
  {
    assert text[..i + 1][..i] == text[..i];
    PrefixData(text, i + 1);
  }

  /** At the end of the decoding pass the pending bits are the ones `Unpack` drops. */
  lemma UnpackValue(d: seq<Digit>, o: nat, pend: nat, bits: nat, n: nat)
    requires bits < 8 && pend < Pow2(bits) && 8 * n + bits == 6 * |d|
    requires Shl(o, bits) + pend == SextetsValue(d)
    ensures 6 * |d| % 8 == bits && 6 * |d| / 8 == n
    ensures Unpack(d) == BeBytes(o, n)
  {
    DivModUnique(6 * |d|, 8, n, bits);
    ShlIsMul(o, bits);
    ShrIsDiv(SextetsValue(d), bits);
    DivModUnique(SextetsValue(d), Pow2(bits), o, pend);
  }

  /**
   * `eplist_get_data` after the type and text checks: validation, then a
   * buffer one byte longer than the data, decoded into and terminated by 0.
   */
  method DecodeText(text: string) returns (out: array?<Byte>, size: nat)
    ensures out == null <==> Decode(text).None?
    ensures out != null ==> fresh(out) && out.Length == size + 1 && out[size] == 0
    ensures out != null ==> Decode(text) == Some(out[..size])
  {
    var ok, nc, np := CountText(text);
    if !ok || (nc + np) % 4 != 0 {
      return null, 0;
    }
    size := nc * 6 / 8;
    out := new Byte[size + 1];
    UnpackText(text, out);
    out[size] := 0;
  }
}
