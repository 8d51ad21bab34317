// The calibration store reader of hx-touchd/mtfw/syscfg.c: a 24-byte header
// followed by 20-byte key records, each holding a byte-reversed four-character
// name and either 16 inline value bytes or, for the marker name "BTNC", a
// reference (`jumbo`) to a value elsewhere in the buffer.
//
// Header layout (little-endian `uint32_t` fields):
//   0 magic "gfCS" | 4 unk_0 | 8 size | 12 version | 16 unk_1 | 20 nkeys
// Record layout:
//   0 name[4] | 4 value[16]                      (direct record)
//   0 "BTNC"  | 4 name[4] | 8 size | 12 offset | 16 rsvd   (jumbo record)
module SysCfg {
  import opened Bytes
  import opened Wrappers

  const HDR_SIZE: nat := 24
  const KEY_SIZE: nat := 20
  const VALUE_SIZE: nat := 16
  /** What is read when the file reports a size of zero (a device node). */
  const DEFAULT_SIZE: nat := 131072
  /** "gfCS" */
  const MAGIC: seq<Byte> := [0x67, 0x66, 0x43, 0x53]
  /** "BTNC", the raw name of a jumbo record. */
  const JUMBO: seq<Byte> := [0x42, 0x54, 0x4E, 0x43]

  /** What a lookup ends with. */
  datatype Lookup =
    | Refused                  // NULL, `*plen` untouched (a check failed)
    | Absent                   // NULL, `*plen = 0` (no record carries the name)
    | Value(bytes: seq<Byte>)  // a fresh copy, `*plen = |bytes|`
    | Overrun(offset: nat, size: nat)  // the bounds check passed but the copy reads past the buffer

  /** How the jumbo bound `offset + size > hdr->size` is evaluated. */
  datatype Bound =
    | Wrapping  // in `unsigned` (32-bit) arithmetic, as written
    | Exact     // on the mathematical sum

  // ---------------------------------------------------------------------------
  // Reading the file

  /**
   * The buffer `syscfg_get` works on: `ftell` gives the reported size in an
   * `unsigned`; zero means DEFAULT_SIZE bytes are requested; `fread` returns
   * at most that many bytes of the stream.
   */
  function Read(stream: seq<Byte>, fileSize: nat): (buf: seq<Byte>)
    ensures |buf| <= |stream| && buf == stream[..|buf|]
    ensures Trunc32(fileSize) == 0 ==> |buf| == if |stream| < DEFAULT_SIZE then |stream| else DEFAULT_SIZE
    ensures Trunc32(fileSize) != 0 ==> |buf| == if |stream| < Trunc32(fileSize) then |stream| else Trunc32(fileSize)
    ensures |buf| < U32
  {
    var request := if Trunc32(fileSize) == 0 then DEFAULT_SIZE else Trunc32(fileSize);
    if |stream| < request then stream else stream[..request]
  }

  // ---------------------------------------------------------------------------
  // Names

  /** The bytes of `s` in reverse order. */
  function Reversed(s: seq<Byte>): (r: seq<Byte>)
    ensures |r| == |s|
    ensures forall i | 0 <= i < |s| :: r[i] == s[|s| - 1 - i]
  {
    seq(|s|, i requires 0 <= i < |s| => s[|s| - 1 - i])
  }

  /** The C string held by `b`: the characters before the first NUL byte. */
  function CName(b: seq<Byte>): (r: string)
    ensures |r| <= |b|
  {
    if b == [] || b[0] == 0 then [] else [b[0] as char] + CName(b[1..])
  }

  /** `CName` stops exactly at the first NUL byte and keeps every byte before it. */
  lemma {:induction false} CNameStops(b: seq<Byte>)
    ensures forall i | 0 <= i < |CName(b)| :: b[i] != 0 && CName(b)[i] == b[i] as char
    ensures |CName(b)| < |b| ==> b[|CName(b)|] == 0
  {
    if b != [] && b[0] != 0 {
      CNameStops(b[1..]);
    }
  }

  /** The name a raw four-byte field stands for: `flip4` into `name[5]` with `name[4] = 0`. */
  function FlippedName(raw: seq<Byte>): string
    requires |raw| == 4
  {
    CName(Reversed(raw) + [0])
  }

  /** The bytes of a name of at most four NUL-free characters, NUL-padded, as the store holds them. */
  function Stored(name: string): (raw: seq<Byte>)
    requires |name| <= 4
    requires forall i | 0 <= i < |name| :: 0 < name[i] as int < 256
    ensures |raw| == 4
  {
    Reversed(seq(|name|, i requires 0 <= i < |name| => name[i] as int as Byte) + seq(4 - |name|, _ => 0))
  }

  /** `flip4` undoes the reversal the store applies: every short name is found under its own spelling. */
  lemma StoredName(name: string)
    requires |name| <= 4
    requires forall i | 0 <= i < |name| :: 0 < name[i] as int < 256
    ensures FlippedName(Stored(name)) == name
  {
    var body := seq(|name|, i requires 0 <= i < |name| => name[i] as int as Byte);
    var pad: seq<Byte> := seq(4 - |name|, _ => 0);
    assert Reversed(Stored(name)) == body + pad;
    assert Reversed(Stored(name)) + [0] == body + (pad + [0]);
    CNameOf(body, pad + [0], name);
  }

  /** Reading a NUL-free byte string followed by a NUL byte gives its characters. */
  lemma {:induction false} CNameOf(body: seq<Byte>, rest: seq<Byte>, name: string)
    requires |body| == |name| && rest != [] && rest[0] == 0
    requires forall i | 0 <= i < |name| :: 0 < name[i] as int < 256 && body[i] == name[i] as int
    ensures CName(body + rest) == name
  {
    if body == [] {
      assert body + rest == rest;
    } else {
      assert (body + rest)[1..] == body[1..] + rest;
      CNameOf(body[1..], rest, name[1..]);
      assert name == [name[0]] + name[1..];
    }
  }

  // ---------------------------------------------------------------------------
  // The header

  function DeclaredSize(buf: seq<Byte>): nat
    requires |buf| >= HDR_SIZE
  {
    GetLe32(buf, 8)
  }

  function KeyCount(buf: seq<Byte>): nat
    requires |buf| >= HDR_SIZE
  {
    GetLe32(buf, 20)
  }

  /**
   * The header checks, in the order they are made: room for the header, the
   * magic, a declared size within the bytes read, and the key table within the
   * declared size (`nkeys * 20 + 24` is computed in the 64-bit `size_t`, so it
   * does not wrap).
   */
  predicate HeaderOk(buf: seq<Byte>)
  {
    |buf| >= HDR_SIZE &&
    buf[..4] == MAGIC &&
    DeclaredSize(buf) <= |buf| &&
    20 * KeyCount(buf) + 24 <= DeclaredSize(buf)
  }

  /** Offset of record `idx`. */
  function RecordAt(idx: nat): nat
  {
    24 + 20 * idx
  }

  predicate IsJumbo(buf: seq<Byte>, idx: nat)
    requires HeaderOk(buf) && idx < KeyCount(buf)
  {
    buf[RecordAt(idx)..RecordAt(idx) + 4] == JUMBO
  }

  /** The name record `idx` is matched on: its own name, or the inner name of a jumbo record. */
  function RecordName(buf: seq<Byte>, idx: nat): string
    requires HeaderOk(buf) && idx < KeyCount(buf)
  {
    var at := RecordAt(idx);
    if IsJumbo(buf, idx) then FlippedName(buf[at + 4..at + 8]) else FlippedName(buf[at..at + 4])
  }

  /** The names of all records, in file order. */
  function Names(buf: seq<Byte>): (names: seq<string>)
    requires HeaderOk(buf)
    ensures |names| == KeyCount(buf)
    ensures forall i | 0 <= i < |names| :: names[i] == RecordName(buf, i)
  {
    seq(KeyCount(buf), i requires 0 <= i < KeyCount(buf) => RecordName(buf, i))
  }

  /** The first position at or after `from` holding `elem`, or |names| when there is none. */
  function FirstMatch(names: seq<string>, elem: string, from: nat): (i: nat)
    requires from <= |names|
    ensures from <= i <= |names|
    ensures forall j | from <= j < i :: names[j] != elem
    ensures i < |names| ==> names[i] == elem
    decreases |names| - from
  {
    if from == |names| || names[from] == elem then from
    else FirstMatch(names, elem, from + 1)
  }

  /** Where the value of record `idx` lies: the inline bytes, or the slice a jumbo record names. */
  function Span(buf: seq<Byte>, idx: nat): (nat, nat)
    requires HeaderOk(buf) && idx < KeyCount(buf)
  {
    var at := RecordAt(idx);
    if IsJumbo(buf, idx) then (GetLe32(buf, at + 12), GetLe32(buf, at + 8)) else (at + 4, VALUE_SIZE)
  }

  /** Whether the jumbo check rejects `offset`/`size`. */
  predicate OutOfBounds(offset: nat, size: nat, declared: nat, bound: Bound)
  {
    offset > declared ||
    (match bound
     case Wrapping => Trunc32(offset + size) > declared
     case Exact => offset + size > declared)
  }

  /** The value of the matched record `idx`. */
  function Fetch(buf: seq<Byte>, idx: nat, bound: Bound): Lookup
    requires HeaderOk(buf) && idx < KeyCount(buf)
  {
    var at := RecordAt(idx);
    if !IsJumbo(buf, idx) then Value(buf[at + 4..at + 4 + VALUE_SIZE])
    else
      var size, offset := GetLe32(buf, at + 8), GetLe32(buf, at + 12);
      if OutOfBounds(offset, size, DeclaredSize(buf), bound) then Refused
      else if offset + size > |buf| then Overrun(offset, size)
      else Value(buf[offset..offset + size])
  }

  /**
   * `syscfg_get` on the bytes read: the header checks, then the first record
   * whose name is `elem`.
   */
  function Get(buf: seq<Byte>, elem: string, bound: Bound): (r: Lookup)
    ensures r.Absent? <==> HeaderOk(buf) && forall i | 0 <= i < KeyCount(buf) :: RecordName(buf, i) != elem
    ensures bound == Exact ==> !r.Overrun?
  {
    if !HeaderOk(buf) then Refused
    else
      var i := FirstMatch(Names(buf), elem, 0);
      if i == KeyCount(buf) then Absent else Fetch(buf, i, bound)
  }

  /**
   * With the exact bound a found value lies inside the declared size: it is
   * either the 16 inline bytes of the first matching record or the slice a
   * jumbo record points at.
   */
  lemma ExactWithinDeclared(buf: seq<Byte>, elem: string)
    requires Get(buf, elem, Exact).Value?
    ensures HeaderOk(buf)
    ensures var i := FirstMatch(Names(buf), elem, 0);
            i < KeyCount(buf) &&
            var (offset, size) := Span(buf, i);
            offset + size <= DeclaredSize(buf) && Get(buf, elem, Exact).bytes == buf[offset..offset + size]
  {
    var i := FirstMatch(Names(buf), elem, 0);
    assert Get(buf, elem, Exact) == Fetch(buf, i, Exact);
    FetchWithinDeclared(buf, i);
  }

  lemma FetchWithinDeclared(buf: seq<Byte>, i: nat)
    requires HeaderOk(buf) && i < KeyCount(buf) && Fetch(buf, i, Exact).Value?
    ensures var (offset, size) := Span(buf, i);
            offset + size <= DeclaredSize(buf) && Fetch(buf, i, Exact).bytes == buf[offset..offset + size]
  {
    assert RecordAt(i) + 20 <= 20 * KeyCount(buf) + 24;
  }

  /**
   * The 32-bit bound and the exact one agree except where the sum wraps: the
   * wrapped check then lets through a record the exact one refuses, and the
   * copy would read past the end of the buffer.
   */
  lemma BoundsAgree(buf: seq<Byte>, elem: string)
    requires |buf| < U32
    ensures Get(buf, elem, Wrapping) == Get(buf, elem, Exact) ||
            (Get(buf, elem, Wrapping).Overrun? && Get(buf, elem, Exact).Refused? &&
             Get(buf, elem, Wrapping).offset + Get(buf, elem, Wrapping).size >= U32)
  {
    if HeaderOk(buf) {
      var i := FirstMatch(Names(buf), elem, 0);
      if i < KeyCount(buf) {
        FetchBoundsAgree(buf, i);
      }
    }
  }

  lemma FetchBoundsAgree(buf: seq<Byte>, i: nat)
    requires |buf| < U32 && HeaderOk(buf) && i < KeyCount(buf)
    ensures Fetch(buf, i, Wrapping) == Fetch(buf, i, Exact) ||
            (Fetch(buf, i, Wrapping).Overrun? && Fetch(buf, i, Exact).Refused? &&
             Fetch(buf, i, Wrapping).offset + Fetch(buf, i, Wrapping).size >= U32)
  {
    if IsJumbo(buf, i) {
      var at := RecordAt(i);
      var size, offset := GetLe32(buf, at + 8), GetLe32(buf, at + 12);
      if offset + size < U32 {
        assert Trunc32(offset + size) == offset + size;
        assert OutOfBounds(offset, size, DeclaredSize(buf), Wrapping) == OutOfBounds(offset, size, DeclaredSize(buf), Exact);
      }
    }
  }

  /** A 44-byte store with one jumbo record "MtCl" at offset 16 of size 0xFFFFFFF8. */
  const WRAP_EXAMPLE: seq<Byte> :=
    MAGIC + [0, 0, 0, 0] + [44, 0, 0, 0] + [0, 0, 0, 0] + [0, 0, 0, 0] + [1, 0, 0, 0] +
    JUMBO + [0x6C, 0x43, 0x74, 0x4D] + [0xF8, 0xFF, 0xFF, 0xFF] + [16, 0, 0, 0] + [0, 0, 0, 0]

  /**
   * As written, `offset + size` wraps to 8, the check passes, and `memcpy`
   * would copy 0xFFFFFFF8 bytes from a 44-byte buffer; the exact check refuses.
   */
  lemma WrappedBoundOverrun()
    ensures Get(WRAP_EXAMPLE, "MtCl", Wrapping) == Overrun(16, 0xFFFF_FFF8)
    ensures Get(WRAP_EXAMPLE, "MtCl", Exact) == Refused
  {
    WrapExampleRecord();
    assert Trunc32(16 + 0xFFFF_FFF8) == 8;
  }

  /** WRAP_EXAMPLE holds one record, a jumbo one named "MtCl" with offset 16 and size 0xFFFFFFF8. */
  lemma WrapExampleRecord()
    ensures |WRAP_EXAMPLE| == 44 && HeaderOk(WRAP_EXAMPLE) && DeclaredSize(WRAP_EXAMPLE) == 44 && KeyCount(WRAP_EXAMPLE) == 1
    ensures IsJumbo(WRAP_EXAMPLE, 0) && FirstMatch(Names(WRAP_EXAMPLE), "MtCl", 0) == 0
    ensures GetLe32(WRAP_EXAMPLE, 32) == 0xFFFF_FFF8 && GetLe32(WRAP_EXAMPLE, 36) == 16
  {
    var buf := WRAP_EXAMPLE;
    assert |buf| == 44 && buf[..4] == MAGIC;
    assert DeclaredSize(buf) == 44 && KeyCount(buf) == 1;
    assert HeaderOk(buf);
    assert IsJumbo(buf, 0) by { assert buf[24..28] == JUMBO; }
    assert RecordName(buf, 0) == "MtCl" by {
      assert buf[28..32] == [0x6C, 0x43, 0x74, 0x4D];
      assert Reversed(buf[28..32]) + [0] == [0x4D, 0x74, 0x43, 0x6C, 0];
      CNameOf([0x4D, 0x74, 0x43, 0x6C], [0], "MtCl");
      assert [0x4D, 0x74, 0x43, 0x6C] + [0] == [0x4D, 0x74, 0x43, 0x6C, 0];
      assert FlippedName(buf[28..32]) == "MtCl";
    }
    assert FirstMatch(Names(buf), "MtCl", 0) == 0;
    assert GetLe32(buf, 32) == 0xFFFF_FFF8 && GetLe32(buf, 36) == 16;
  }

  // ---------------------------------------------------------------------------
  // The reader itself

  /** `flip4`: `out[0..4]` becomes `input` reversed; the rest of `out` is kept. */
  method Flip4(out: array<Byte>, input: seq<Byte>)
    requires out.Length >= 4 && |input| == 4
    modifies out
    ensures out[..] == Reversed(input) + old(out[..])[4..]
  {
    for i := 0 to 4
      invariant forall j | 0 <= j < i :: out[j] == input[3 - j]
      invariant out[4..] == old(out[4..])
    {
      out[i] := input[3 - i];
    }
    assert out[..] == out[..4] + out[4..];
  }

  /** Flips the name record `idx` is matched on into `name` and compares it with `elem`. */
  method NameMatches(buf: seq<Byte>, name: array<Byte>, idx: nat, elem: string) returns (hit: bool)
    requires HeaderOk(buf) && idx < KeyCount(buf)
    requires name.Length == 5 && name[4] == 0
    modifies name
    ensures name[4] == 0
    ensures hit <==> RecordName(buf, idx) == elem
  {
    var at := 24 + 20 * idx;
    var raw := if buf[at..at + 4] != JUMBO then buf[at..at + 4] else buf[at + 4..at + 8];
    assert RecordName(buf, idx) == FlippedName(raw);
    assert name[..][4..] == [0];
    Flip4(name, raw);
    hit := CName(name[..]) == elem;
  }

  /** The record loop: the index of the first record named `elem`, or `nkeys`. */
  method FindKey(buf: seq<Byte>, elem: string) returns (idx: nat)
    requires HeaderOk(buf)
    ensures idx == FirstMatch(Names(buf), elem, 0)
  {
    var nkeys := GetLe32(buf, 20);
    var name := new Byte[5];
    name[4] := 0;
    idx := 0;
    while idx < nkeys
      invariant 0 <= idx <= nkeys
      invariant name[4] == 0
      invariant FirstMatch(Names(buf), elem, 0) == FirstMatch(Names(buf), elem, idx)
      decreases nkeys - idx
    {
      var hit := NameMatches(buf, name, idx, elem);
      if hit {
        break;
      }
      idx := idx + 1;
    }
  }

  /** `memcpy` of `len` bytes at `from` into a fresh buffer. */
  method CopyOut(buf: seq<Byte>, from: nat, len: nat) returns (res: array<Byte>)
    requires from + len <= |buf|
    ensures fresh(res) && res[..] == buf[from..from + len]
  {
    res := new Byte[len];
    forall k | 0 <= k < len {
      res[k] := buf[from + k];
    }
  }

  /**
   * `syscfg_get(fname, elem, &len)`: `file` is the content of the file (None
   * when it cannot be opened) and `fileSize` what `ftell` reports. `res` is
   * the returned copy (null for NULL) and `plen` what is stored in `*plen`
   * (None when it is left untouched). The jumbo bound is checked exactly.
   */
  method SyscfgGet(file: Option<seq<Byte>>, fileSize: nat, elem: string) returns (res: array?<Byte>, plen: Option<nat>)
    ensures file.None? ==> res == null && plen.None?
    ensures file.Some? ==>
              match Get(Read(file.value, fileSize), elem, Exact)
              case Refused => res == null && plen.None?
              case Absent => res == null && plen == Some(0)
              case Value(v) => res != null && fresh(res) && res[..] == v && plen == Some(|v|)
              case Overrun(_, _) => false
  {
    if file.None? {
      return null, None;
    }
    var buf := Read(file.value, fileSize);
    if |buf| < HDR_SIZE || buf[..4] != MAGIC {
      return null, None;
    }
    var declared := GetLe32(buf, 8);
    if declared > |buf| {
      return null, None;
    }
    var nkeys := GetLe32(buf, 20);
    if 20 * nkeys + 24 > declared {
      return null, None;
    }
    assert HeaderOk(buf);
    var idx := FindKey(buf, elem);
    if idx == nkeys {
      return null, Some(0);
    }
    assert Get(buf, elem, Exact) == Fetch(buf, idx, Exact);
    res, plen := FetchKey(buf, idx);
  }

  /** With the exact bound, a jumbo record's value is refused unless its slice lies inside the declared size. */
  lemma JumboExact(buf: seq<Byte>, idx: nat)
    requires HeaderOk(buf) && idx < KeyCount(buf) && IsJumbo(buf, idx)
    ensures var at := RecordAt(idx);
      var size, offset := GetLe32(buf, at + 8), GetLe32(buf, at + 12);
      Fetch(buf, idx, Exact) ==
        if offset > DeclaredSize(buf) || offset + size > DeclaredSize(buf) then Refused else Value(buf[offset..offset + size])
  {
  }

  /** The value of the matched record `idx`: the jumbo bound check, then the copy. */
  method FetchKey(buf: seq<Byte>, idx: nat) returns (res: array?<Byte>, plen: Option<nat>)
    requires HeaderOk(buf) && idx < KeyCount(buf)
    ensures match Fetch(buf, idx, Exact)
            case Value(v) => res != null && fresh(res) && res[..] == v && plen == Some(|v|)
            case _ => res == null && plen.None?
  {
    var declared := GetLe32(buf, 8);
    var at := 24 + 20 * idx;
    assert at == RecordAt(idx) && at + 20 <= declared <= |buf|;
    var eval, elen;
    if buf[at..at + 4] != JUMBO {
      eval, elen := at + 4, VALUE_SIZE;
      assert Fetch(buf, idx, Exact) == Value(buf[eval..eval + elen]);
    } else {
      var size, offset := GetLe32(buf, at + 8), GetLe32(buf, at + 12);
      JumboExact(buf, idx);
      if offset > declared || offset + size > declared {
        return null, None;
      }
      eval, elen := offset, size;
    }
    res := CopyOut(buf, eval, elen);
    plen := Some(elen);
  }
}
