// The `syscfg` command-line tool: it looks one item up in the calibration
// store and prints it in the format its optional third argument asks for.
// Standard output is modelled as the string the tool writes; messages on
// standard error are not modelled.
module SysCfgTool {
  import opened Wrappers
  import opened Bytes
  import opened CStr
  import SysCfg

  /** A parsed format argument: the type character, the separator, the expected length (0: the item's). */
  datatype Format = Format(kind: char, sep: Option<char>, explen: nat)

  /** How the tool ends: its exit status and what it wrote to standard output. */
  datatype Outcome = Outcome(status: int, out: string)

  predicate IsDigit(c: char)
  {
    '0' <= c <= '9'
  }

  /** The format used when no third argument is given. */
  const DEFAULT_FORMAT: Format := Format('s', None, 0)

  /**
   * The format argument: a leading character above '9' is the type, and a
   * following character that is not a digit is the separator; whatever is
   * left is read as the expected length by `strtoul` with base 0.
   */
  function ParseFormat(fa: string): (f: Format)
    ensures f.kind == 's' || f.kind > '9'
    ensures f.sep.Some? ==> f.kind > '9' && !IsDigit(f.sep.value)
    ensures f.explen < U64
  {
    var typed := fa != [] && fa[0] > '9';
    var kind := if typed then fa[0] else 's';
    var rest := if typed then fa[1..] else fa;
    var sep := if typed && rest != [] && !IsDigit(rest[0]) then Some(rest[0]) else None;
    var tail := if sep.Some? then rest[1..] else rest;
    Format(kind, sep, if tail != [] then Strtoull(tail) else 0)
  }

  /** The format argument a user writes for a type, an optional separator and a length. */
  function Spell(kind: char, sep: Option<char>, n: nat): string
  {
    [kind] + (if sep.Some? then [sep.value] else []) + Decimal(n)
  }

  /** Parsing a spelled-out format gives back its three parts. */
  lemma FormatRoundTrip(kind: char, sep: Option<char>, n: nat)
    requires kind > '9' && n < U64
    requires sep.Some? ==> !IsDigit(sep.value)
    ensures ParseFormat(Spell(kind, sep, n)) == Format(kind, sep, n)
  {
    var d := Decimal(n);
    assert IsDigit(d[0]);
    SpelledParts(kind, sep, d);
    StrtoullDecimal(n);
  }

  /** A type, an optional separator and a tail that starts with a digit parse apart. */
  lemma SpelledParts(kind: char, sep: Option<char>, tail: string)
    requires kind > '9' && tail != [] && IsDigit(tail[0])
    requires sep.Some? ==> !IsDigit(sep.value)
    ensures ParseFormat([kind] + (if sep.Some? then [sep.value] else []) + tail) == Format(kind, sep, Strtoull(tail))
  {
    var s := [kind] + (if sep.Some? then [sep.value] else []) + tail;
    if sep.Some? {
      assert s[1..] == [sep.value] + tail && s[2..] == tail;
    } else {
      assert s[1..] == tail;
    }
  }

  /** Byte `i` of the item, or 0 at and past its end. */
  function Cell(v: seq<Byte>, i: nat): Byte
  {
    if i < |v| then v[i] else 0
  }

  /** A lower-case hexadecimal digit. */
  function HexDigit(d: nat): (c: char)
    requires d < 16
  {
    if d < 10 then ('0' as int + d) as char else ('a' as int + d - 10) as char
  }

  /** `printf("%02x")` of one byte. */
  function Hex2(b: Byte): (r: string)
    ensures |r| == 2
  {
    [HexDigit(b as nat / 16), HexDigit(b as nat % 16)]
  }

  /** The value of a lower-case hexadecimal digit. */
  function HexValue(c: char): nat
  {
    if '0' <= c <= '9' then c as int - '0' as int
    else if 'a' <= c <= 'f' then c as int - 'a' as int + 10
    else 0
  }

  /** Two hex digits read back give the byte. */
  lemma Hex2RoundTrip(b: Byte)
    ensures 16 * HexValue(Hex2(b)[0]) + HexValue(Hex2(b)[1]) == b
  {
  }

  /** What position `i` prints under format `s`, `z` or `x`: the byte, or two hex digits and the separator between positions. */
  function Piece(f: Format, v: seq<Byte>, i: nat): string
  {
    if f.kind == 'x' then
      Hex2(Cell(v, i)) + (if f.sep.Some? && i < f.explen - 1 then [f.sep.value] else [])
    else [Cell(v, i) as char]
  }

  /**
   * What the output loop prints from position `i` on, and the status it ends
   * with: `z` stops at a zero byte, and a type other than `s`, `z` and `x`
   * fails at the first position.
   */
  function RenderFrom(f: Format, v: seq<Byte>, i: nat): Outcome
    decreases f.explen - i
  {
    if i >= f.explen then Outcome(0, "")
    else if f.kind != 's' && f.kind != 'z' && f.kind != 'x' then Outcome(1, "")
    else if f.kind == 'z' && Cell(v, i) == 0 then Outcome(0, "")
    else Outcome(0, Piece(f, v, i) + RenderFrom(f, v, i + 1).out)
  }

  /** The positions `i` to `n` of the item, zero past its end. */
  function Cells(v: seq<Byte>, i: nat, n: nat): (c: seq<Byte>)
    ensures |c| == if i <= n then n - i else 0
    ensures forall k | 0 <= k < |c| :: c[k] == Cell(v, i + k)
    decreases n - i
  {
    if i >= n then [] else [Cell(v, i)] + Cells(v, i + 1, n)
  }

  /** Bytes rendered as characters, one to one. */
  function Chars(c: seq<Byte>): (s: string)
    ensures |s| == |c| && forall k | 0 <= k < |c| :: s[k] == c[k] as char
  {
    if c == [] then [] else [c[0] as char] + Chars(c[1..])
  }

  /** Every byte as two hex digits, with `sep` between bytes and not after the last. */
  function HexJoin(c: seq<Byte>, sep: Option<char>): string
  {
    if c == [] then ""
    else if |c| == 1 then Hex2(c[0])
    else Hex2(c[0]) + (if sep.Some? then [sep.value] else []) + HexJoin(c[1..], sep)
  }

  /** Format `s` prints exactly `explen` positions, each the byte there, 0 past the item's end. */
  lemma {:induction false} RenderRaw(f: Format, v: seq<Byte>, i: nat)
    requires f.kind == 's'
    ensures RenderFrom(f, v, i) == Outcome(0, Chars(Cells(v, i, f.explen)))
    decreases f.explen - i
  {
    if i < f.explen {
      RenderRaw(f, v, i + 1);
      assert Cells(v, i, f.explen) == [Cell(v, i)] + Cells(v, i + 1, f.explen);
      assert Chars(Cells(v, i, f.explen))[1..] == Chars(Cells(v, i + 1, f.explen));
    }
  }

  /** Format `x` prints every position in hex, the separator only between positions. */
  lemma {:induction false} RenderHex(f: Format, v: seq<Byte>, i: nat)
    requires f.kind == 'x'
    ensures RenderFrom(f, v, i) == Outcome(0, HexJoin(Cells(v, i, f.explen), f.sep))
    decreases f.explen - i
  {
    if i < f.explen {
      RenderHex(f, v, i + 1);
      assert Cells(v, i, f.explen) == [Cell(v, i)] + Cells(v, i + 1, f.explen);
      assert Cells(v, i, f.explen)[1..] == Cells(v, i + 1, f.explen);
    }
  }

  /** The first position from `i` on, before `n`, that holds a zero, or `n`. */
  function ZeroStop(v: seq<Byte>, i: nat, n: nat): (s: nat)
    requires i <= n
    ensures i <= s <= n
    ensures forall k | i <= k < s :: Cell(v, k) != 0
    ensures s < n ==> Cell(v, s) == 0
    decreases n - i
  {
    if i == n || Cell(v, i) == 0 then i else ZeroStop(v, i + 1, n)
  }

  /**
   * Format `z` prints the positions before the first zero one (within
   * `explen`), and nothing more.
   */
  lemma {:induction false} RenderZero(f: Format, v: seq<Byte>, i: nat)
    requires f.kind == 'z' && i <= f.explen
    ensures RenderFrom(f, v, i) == Outcome(0, Chars(Cells(v, i, ZeroStop(v, i, f.explen))))
    decreases f.explen - i
  {
    var s := ZeroStop(v, i, f.explen);
    if i < f.explen && Cell(v, i) != 0 {
      RenderZero(f, v, i + 1);
      var tail := Cells(v, i + 1, s);
      assert Cells(v, i, s) == [Cell(v, i)] + tail;
      CharsCons(Cell(v, i), tail);
    } else {
      assert Cells(v, i, s) == [];
    }
  }

  lemma CharsCons(b: Byte, c: seq<Byte>)
    ensures Chars([b] + c) == [b as char] + Chars(c)
  {
    assert ([b] + c)[1..] == c;
  }

  /** An unknown type fails, and prints nothing, exactly when there is a position to print. */
  lemma RenderUnknown(f: Format, v: seq<Byte>)
    requires f.kind != 's' && f.kind != 'z' && f.kind != 'x'
    ensures RenderFrom(f, v, 0) == if f.explen > 0 then Outcome(1, "") else Outcome(0, "")
  {
  }

  /** The output loop over `buf`, the item `syscfg_get` returned. */
  method Render(f: Format, buf: array<Byte>) returns (r: Outcome)
    ensures r == RenderFrom(f, buf[..], 0)
  {
    ghost var v := buf[..];
    var len := buf.Length;
    var out: string := "";
    var i: nat := 0;
    while i < f.explen
      invariant RenderFrom(f, v, 0) == Outcome(RenderFrom(f, v, i).status, out + RenderFrom(f, v, i).out)
      invariant i > 0 ==> f.kind == 's' || f.kind == 'z' || f.kind == 'x'
      decreases f.explen - i
    {
      var ch: Byte := if i < len then buf[i] else 0;
      assert ch == Cell(v, i);
      var piece: string;
      if f.kind == 's' {
        piece := [ch as char];
      } else if f.kind == 'z' {
        if ch == 0 {
          return Outcome(0, out);
        }
        piece := [ch as char];
      } else if f.kind == 'x' {
        piece := Hex2(ch);
        if f.sep.Some? && i < f.explen - 1 {
          piece := piece + [f.sep.value];
        }
      } else {
        return Outcome(1, out);
      }
      assert piece == Piece(f, v, i);
      AppendAssoc(out, piece, RenderFrom(f, v, i + 1).out);
      out := out + piece;
      i := i + 1;
    }
    r := Outcome(0, out);
  }

  lemma AppendAssoc(a: string, b: string, c: string)
    ensures a + (b + c) == (a + b) + c
  {
  }

  /** Format `u`: the first (at most) eight bytes as a little-endian unsigned number, in decimal. */
  function Unsigned(v: seq<Byte>): (s: string)
  {
    Decimal(LeValue(v[..if |v| > 8 then 8 else |v|]))
  }

  lemma LeValueBound(s: seq<Byte>)
    ensures LeValue(s) < Pow256(|s|)
  {
    if s != [] {
      LeValueBound(s[1..]);
    }
  }

  function Pow256(n: nat): (r: nat)
    ensures r >= 1
  {
    if n == 0 then 1 else 256 * Pow256(n - 1)
  }

  /** Reading back what format `u` prints gives the little-endian value of the first eight bytes. */
  lemma UnsignedRoundTrip(v: seq<Byte>)
    ensures var w := v[..if |v| > 8 then 8 else |v|];
      LeValue(w) < U64 && Strtoull(Unsigned(v)) == LeValue(w)
  {
    var w := v[..if |v| > 8 then 8 else |v|];
    LeValueBound(w);
    Pow256Mono(|w|, 8);
    StrtoullDecimal(LeValue(w));
  }

  lemma {:induction false} Pow256Mono(m: nat, n: nat)
    requires m <= n
    ensures Pow256(m) <= Pow256(n)
    decreases n
  {
    if m < n {
      Pow256Mono(m, n - 1);
    }
    if n == 8 {
      assert Pow256(8) == U64;
    }
  }

  /**
   * The tool for the arguments `argv` (program name first); `file` and
   * `fileSize` stand for the store named by `argv[1]`. A wrong argument count
   * or a missing item exits with 1; otherwise the item is printed.
   */
  method Dump(argv: seq<string>, file: Option<seq<Byte>>, fileSize: nat) returns (r: Outcome)
    ensures |argv| < 3 || |argv| > 4 ==> r == Outcome(1, "")
    ensures 3 <= |argv| <= 4 ==> r == Dumped(argv, file, fileSize)
  {
    if |argv| < 3 || |argv| > 4 {
      return Outcome(1, "");
    }
    var buf, plen := SysCfg.SyscfgGet(file, fileSize, argv[2]);
    if buf == null {
      return Outcome(1, "");
    }
    var len := plen.value;
    var f := if |argv| >= 4 then ParseFormat(argv[3]) else DEFAULT_FORMAT;
    if f.explen == 0 {
      f := f.(explen := len);
    }
    if f.kind == 'u' {
      return Outcome(0, Unsigned(buf[..]));
    }
    r := Render(f, buf);
  }

  /** The item the store holds under `argv[2]`, if any. */
  function Item(argv: seq<string>, file: Option<seq<Byte>>, fileSize: nat): Option<seq<Byte>>
    requires |argv| >= 3
  {
    if file.None? then None
    else match SysCfg.Get(SysCfg.Read(file.value, fileSize), argv[2], SysCfg.Exact)
      case Value(v) => Some(v)
      case _ => None
  }

  /** The format in effect for the item `v`: the argument's, its length defaulting to the item's. */
  function FormatFor(argv: seq<string>, v: seq<Byte>): (f: Format)
    ensures f.explen > 0 || |v| == 0
    ensures |argv| < 4 ==> f == Format('s', None, |v|)
    ensures |argv| >= 4 ==> f.kind == ParseFormat(argv[3]).kind && f.sep == ParseFormat(argv[3]).sep
    ensures |argv| >= 4 && ParseFormat(argv[3]).explen == 0 ==> f.explen == |v|
    ensures |argv| >= 4 && ParseFormat(argv[3]).explen != 0 ==> f.explen == ParseFormat(argv[3]).explen
  {
    var f := if |argv| >= 4 then ParseFormat(argv[3]) else DEFAULT_FORMAT;
    if f.explen == 0 then f.(explen := |v|) else f
  }

  /** What the tool does for three or four arguments. */
  function Dumped(argv: seq<string>, file: Option<seq<Byte>>, fileSize: nat): Outcome
    requires 3 <= |argv| <= 4
  {
    match Item(argv, file, fileSize)
    case None => Outcome(1, "")
    case Some(v) =>
      var f := FormatFor(argv, v);
      if f.kind == 'u' then Outcome(0, Unsigned(v)) else RenderFrom(f, v, 0)
  }

  /** Without a format argument a present item is printed whole, byte for byte, with status 0. */
  lemma DefaultPrintsItem(argv: seq<string>, file: Option<seq<Byte>>, fileSize: nat, v: seq<Byte>)
    requires |argv| == 3 && Item(argv, file, fileSize) == Some(v)
    ensures Dumped(argv, file, fileSize) == Outcome(0, Chars(v))
  {
    var f := FormatFor(argv, v);
    RenderRaw(f, v, 0);
    var c := Cells(v, 0, |v|);
    assert c == v by {
      assert forall k | 0 <= k < |v| :: c[k] == Cell(v, k) == v[k];
    }
  }
}
