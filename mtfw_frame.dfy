// The frame encoders of hx-touchd/mtfw/mtfw.c: the byte-order writers, the
// additive checksum, the pairwise byte swap, the register-write and
// calibration-load frames, and the item list the firmware sequence is built
// into.
module MtfwFrame {
  import opened Bytes

  // Item types (mtfw.h).
  const WRITE: nat := 1
  const WRITE_ACK: nat := 2
  const WAIT_IRQ: nat := 3
  const SET_TYPE: nat := 4

  /** One step of the firmware sequence: its type and its payload (`data`, `size` bytes). */
  datatype Item = Item(kind: nat, data: seq<Byte>)

  /** The list `mtfw_item_add` appends to through its tail pointer. */
  class ItemList {
    var items: seq<Item>

    constructor()
      ensures items == []
    {
      items := [];
    }

    /** `mtfw_item_add`: a new item at the tail. */
    method Add(kind: nat, data: seq<Byte>)
      modifies this
      ensures items == old(items) + [Item(kind, data)]
    {
      items := items + [Item(kind, data)];
    }
  }

  // ---------------------------------------------------------------------------
  // Byte-order writers

  /** The "32xe" order of `mtfw_put32xe`: bits 15..8, 7..0, 31..24, 23..16. */
  function Xe32(v: int): (r: seq<Byte>)
    ensures |r| == 4
  {
    [(v / 0x100) % 256, v % 256, (v / 0x100_0000) % 256, (v / 0x1_0000) % 256]
  }

  /** Reads back a 32xe field. */
  function GetXe32(b: seq<Byte>): (v: int)
    requires |b| == 4
    ensures 0 <= v < U32
  {
    b[1] as int + 0x100 * (b[0] as int) + 0x1_0000 * (b[3] as int) + 0x100_0000 * (b[2] as int)
  }

  /** Reads back a big-endian 16-bit field. */
  function GetBe16(b: seq<Byte>): (v: int)
    requires |b| == 2
    ensures 0 <= v < U16
  {
    0x100 * (b[0] as int) + b[1] as int
  }

  /** `put16be` keeps the low 16 bits of its argument: reading the field back gives them. */
  lemma Be16RoundTrip(v: int)
    ensures GetBe16(Be16(v)) == Trunc16(v)
  {
    var lo, hi := v % 256, (v / 256) % 256;
    assert v == 256 * (v / 256) + lo;
    assert v / 256 == 256 * (v / 256 / 256) + hi;
    assert v == 0x1_0000 * (v / 256 / 256) + (256 * hi + lo);
    DivModUnique(v, U16, v / 256 / 256, 256 * hi + lo);
  }

  /** `put32xe` keeps the low 32 bits of its argument: reading the field back gives them. */
  lemma Xe32RoundTrip(v: int)
    ensures GetXe32(Xe32(v)) == Trunc32(v)
  {
    var b0, q0 := v % 256, v / 256;
    var b1, q1 := q0 % 256, q0 / 256;
    var b2, q2 := q1 % 256, q1 / 256;
    var b3, q3 := q2 % 256, q2 / 256;
    assert v == 256 * q0 + b0 && q0 == 256 * q1 + b1 && q1 == 256 * q2 + b2 && q2 == 256 * q3 + b3;
    assert v == U32 * q3 + (b0 + 0x100 * b1 + 0x1_0000 * b2 + 0x100_0000 * b3);
    DivModUnique(v, U32, q3, b0 + 0x100 * b1 + 0x1_0000 * b2 + 0x100_0000 * b3);
    Quotients(v);
  }

  /** The byte extractions of `Xe32` agree with repeated division by 256. */
  lemma Quotients(v: int)
    ensures v / 0x1_0000 == v / 256 / 256
    ensures v / 0x100_0000 == v / 256 / 256 / 256
  {
    DivDiv(v, 256, 256);
    DivDiv(v, 0x1_0000, 256);
  }

  lemma DivDiv(v: int, a: int, b: int)
    requires a > 0 && b > 0
    ensures v / a / b == v / (a * b)
  {
    var q, r := v / a, v % a;
    var q2, r2 := q / b, q % b;
    assert v == a * q + r && q == b * q2 + r2;
    assert v == (a * b) * q2 + (a * r2 + r);
    assert 0 <= a * r2 + r < a * b by {
      MulMono(r2, b - 1, a);
    }
    DivModUnique(v, a * b, q2, a * r2 + r);
  }

  /** `mtfw_put16be(&buf[off], val)` */
  method Put16be(buf: array<Byte>, off: nat, val: int)
    requires off + 2 <= buf.Length
    modifies buf
    ensures buf[off..off + 2] == Be16(val)
    ensures forall j | 0 <= j < buf.Length && !(off <= j < off + 2) :: buf[j] == old(buf[j])
  {
    buf[off] := (val / 256) % 256;
    buf[off + 1] := val % 256;
  }

  /** `mtfw_put32xe(&buf[off], val)` */
  method Put32xe(buf: array<Byte>, off: nat, val: int)
    requires off + 4 <= buf.Length
    modifies buf
    ensures buf[off..off + 4] == Xe32(val)
    ensures forall j | 0 <= j < buf.Length && !(off <= j < off + 4) :: buf[j] == old(buf[j])
  {
    buf[off] := (val / 0x100) % 256;
    buf[off + 1] := val % 256;
    buf[off + 2] := (val / 0x100_0000) % 256;
    buf[off + 3] := (val / 0x1_0000) % 256;
  }

  /** `mtfw_sum`: the byte sum in a `uint32_t` accumulator. */
  method Sum32(s: seq<Byte>) returns (sum: int)
    ensures sum == Trunc32(Sum(s))
  {
    sum := 0;
    var i := 0;
    while i < |s|
      invariant 0 <= i <= |s|
      invariant sum == Trunc32(Sum(s[..i]))
    {
      assert s[..i + 1][..i] == s[..i];
      ModAdd(Sum(s[..i]), s[i]);
      sum := (sum + s[i]) % U32;
      i := i + 1;
    }
    assert s[..i] == s;
  }

  /** Adding to a truncated accumulator is truncating the full sum. */
  lemma ModAdd(a: int, b: int)
    ensures (a % U32 + b) % U32 == (a + b) % U32
  {
    var q := a / U32;
    assert a == U32 * q + a % U32;
    assert a + b == U32 * q + (a % U32 + b);
    var d := a % U32 + b;
    assert (a + b) % U32 == d % U32 by {
      DivModUnique(a + b, U32, q + d / U32, d % U32);
    }
  }

  // ---------------------------------------------------------------------------
  // The pairwise swap of `mtfw_copy16be`

  /** `i ^ 1`: the other byte of the 16-bit word holding byte `i`. */
  function Partner(i: nat): nat
  {
    if i % 2 == 0 then i + 1 else i - 1
  }

  /** The bytes `copy16be` writes `src` to: every index of `src` and its partner. */
  function SwapSpan(n: nat): nat
  {
    n + n % 2
  }

  lemma PartnerInSpan(i: nat, n: nat)
    requires i < n
    ensures Partner(i) < SwapSpan(n) && Partner(Partner(i)) == i
  {
  }

  /**
   * The region `pad` after `copy16be` has stored byte `i` of `src` at
   * `Partner(i)`; a position no byte lands on keeps its old value.
   */
  function Swapped(pad: seq<Byte>, src: seq<Byte>): (r: seq<Byte>)
    requires |pad| == SwapSpan(|src|)
    ensures |r| == |pad|
    ensures forall i | 0 <= i < |src| :: r[Partner(i)] == src[i]
    ensures forall j | 0 <= j < |pad| && Partner(j) >= |src| :: r[j] == pad[j]
  {
    SwapFirst(pad, src, |src|)
  }

  /** `pad` once the first `n` bytes of `src` have been stored. */
  function SwapFirst(pad: seq<Byte>, src: seq<Byte>, n: nat): (r: seq<Byte>)
    requires n <= |src| && |pad| == SwapSpan(|src|)
    ensures |r| == |pad|
  {
    seq(|pad|, j requires 0 <= j < |pad| => if Partner(j) < n then src[Partner(j)] else pad[j])
  }

  /** `mtfw_copy16be(&dst[off], src, |src|)` */
  method Copy16be(dst: array<Byte>, off: nat, src: seq<Byte>)
    requires off + SwapSpan(|src|) <= dst.Length
    modifies dst
    ensures dst[..] == old(dst[..off]) + Swapped(old(dst[off..off + SwapSpan(|src|)]), src) + old(dst[off + SwapSpan(|src|)..])
  {
    ghost var pre, pad, post := dst[..off], dst[off..off + SwapSpan(|src|)], dst[off + SwapSpan(|src|)..];
    assert dst[..] == pre + SwapFirst(pad, src, 0) + post;
    for i := 0 to |src|
      invariant dst[..] == pre + SwapFirst(pad, src, i) + post
    {
      SwapStep(pre, pad, post, src, i);
      ghost var cur := dst[..];
      dst[off + Partner(i)] := src[i];
      assert dst[..] == cur[off + Partner(i) := src[i]];
    }
  }

  /** Storing byte `i` at its partner extends the swapped prefix by one. */
  lemma SwapStep(pre: seq<Byte>, pad: seq<Byte>, post: seq<Byte>, src: seq<Byte>, i: nat)
    requires i < |src| && |pad| == SwapSpan(|src|)
    ensures Partner(i) < |pad|
    ensures (pre + SwapFirst(pad, src, i) + post)[|pre| + Partner(i) := src[i]] == pre + SwapFirst(pad, src, i + 1) + post
  {
    var a := SwapFirst(pad, src, i);
    var b := SwapFirst(pad, src, i + 1);
    assert b == a[Partner(i) := src[i]] by {
      forall j | 0 <= j < |pad|
        ensures b[j] == a[Partner(i) := src[i]][j]
      {
        if j != Partner(i) {
          assert Partner(j) != i;
        }
      }
    }
  }

  // ---------------------------------------------------------------------------
  // Frames

  function Zeros(n: nat): (z: seq<Byte>)
    ensures |z| == n && forall i | 0 <= i < n :: z[i] == 0
  {
    seq(n, _ => 0)
  }

  /** The register-write opcode. */
  const REGWR: int := 0x1E33

  /** The 16-byte frame of `mtfw_item_add_regwr`. */
  function RegWrFrame(addr: int, mask: int, val: int): seq<Byte>
  {
    var fields := Xe32(addr) + Xe32(mask) + Xe32(val);
    Be16(REGWR) + fields + Be16(Sum(fields))
  }

  /** What a register-write frame carries and how its checksum is formed. */
  lemma RegWrFields(addr: int, mask: int, val: int)
    ensures var f := RegWrFrame(addr, mask, val);
            |f| == 16 && GetBe16(f[0..2]) == REGWR &&
            GetXe32(f[2..6]) == Trunc32(addr) && GetXe32(f[6..10]) == Trunc32(mask) && GetXe32(f[10..14]) == Trunc32(val) &&
            GetBe16(f[14..16]) == Trunc16(Sum(f[2..14]))
  {
    var f := RegWrFrame(addr, mask, val);
    assert f[0..2] == Be16(REGWR) && f[2..6] == Xe32(addr) && f[6..10] == Xe32(mask) && f[10..14] == Xe32(val);
    assert f[2..14] == Xe32(addr) + Xe32(mask) + Xe32(val) && f[14..16] == Be16(Sum(f[2..14]));
    Be16RoundTrip(REGWR);
    Xe32RoundTrip(addr);
    Xe32RoundTrip(mask);
    Xe32RoundTrip(val);
    Be16RoundTrip(Sum(f[2..14]));
  }

  /** `(len + 3) & -4`: `len` rounded up to a multiple of 4. */
  function Round4(len: nat): (r: nat)
    ensures r % 4 == 0 && len <= r < len + 4
    ensures SwapSpan(len) <= r
  {
    Round4Bounds(len);
    (len + 3) / 4 * 4
  }

  lemma Round4Bounds(len: nat)
    ensures var r := (len + 3) / 4 * 4;
      r % 4 == 0 && len <= r < len + 4 && len + len % 2 <= r
  {
    var q := len / 4;
    var k := len % 4;
    assert len == 4 * q + k;
    if k == 0 {
      assert (len + 3) / 4 == q;
    } else {
      assert (len + 3) / 4 == q + 1;
      assert len % 2 == k % 2;
    }
  }

  /** The calibration-load opcode. */
  const CALLOAD: int := 0x300118E1

  /** The header of a calibration load: opcode, word count and address. */
  function CalLoadHead(addr: int, len: nat): (h: seq<Byte>)
    ensures |h| == 10
  {
    Xe32(CALLOAD) + Be16((len + 3) / 4) + Xe32(addr)
  }

  /** The payload area of a calibration load: the swapped payload, then zero padding up to Round4(len). */
  function CalLoadBody(data: seq<Byte>): (b: seq<Byte>)
    ensures |b| == Round4(|data|)
  {
    Swapped(Zeros(SwapSpan(|data|)), data) + Zeros(Round4(|data|) - SwapSpan(|data|))
  }

  /** The body holds byte `i` of the payload at `Partner(i)` and zeros everywhere else. */
  lemma CalLoadBodyFields(data: seq<Byte>)
    ensures var b := CalLoadBody(data);
            forall i | 0 <= i < |data| :: b[Partner(i)] == data[i]
    ensures var b := CalLoadBody(data);
            forall j | SwapSpan(|data|) <= j < |b| :: b[j] == 0
  {
    var span := SwapSpan(|data|);
    var w := Swapped(Zeros(span), data);
    var z := Zeros(Round4(|data|) - span);
    var b := CalLoadBody(data);
    assert b == w + z;
    forall i | 0 <= i < |data|
      ensures b[Partner(i)] == data[i]
    {
      PartnerInSpan(i, |data|);
      assert b[Partner(i)] == w[Partner(i)];
    }
    forall j | span <= j < |b|
      ensures b[j] == 0
    {
      assert b[j] == z[j - span];
    }
  }

  /** The frame of `mtfw_item_add_calload`, built in a zero-filled buffer of 16 + Round4(len) bytes. */
  function CalLoadFrame(addr: int, data: seq<Byte>): seq<Byte>
  {
    var head := CalLoadHead(addr, |data|);
    (head + Be16(Sum(head[4..10]))) + (CalLoadBody(data) + Xe32(Sum(data)))
  }

  /** What a calibration-load frame carries: the header fields, the swapped payload, zero padding and the payload sum. */
  lemma CalLoadFields(addr: int, data: seq<Byte>)
    ensures |CalLoadFrame(addr, data)| == 16 + Round4(|data|)
    ensures var f := CalLoadFrame(addr, data);
            GetXe32(f[0..4]) == CALLOAD && GetBe16(f[4..6]) == Trunc16((|data| + 3) / 4) &&
            GetXe32(f[6..10]) == Trunc32(addr) && GetBe16(f[10..12]) == Trunc16(Sum(f[4..10]))
    ensures var f := CalLoadFrame(addr, data);
            forall i | 0 <= i < |data| :: f[12 + Partner(i)] == data[i]
    ensures var f := CalLoadFrame(addr, data);
            forall j | 12 + SwapSpan(|data|) <= j < 12 + Round4(|data|) :: f[j] == 0
    ensures var f := CalLoadFrame(addr, data);
            GetXe32(f[12 + Round4(|data|)..]) == Trunc32(Sum(data))
  {
    CalLoadHeader(addr, data);
    CalLoadPayload(addr, data);
  }

  lemma CalLoadHeader(addr: int, data: seq<Byte>)
    ensures |CalLoadFrame(addr, data)| == 16 + Round4(|data|)
    ensures var f := CalLoadFrame(addr, data);
            GetXe32(f[0..4]) == CALLOAD && GetBe16(f[4..6]) == Trunc16((|data| + 3) / 4) &&
            GetXe32(f[6..10]) == Trunc32(addr) && GetBe16(f[10..12]) == Trunc16(Sum(f[4..10]))
  {
    var head := CalLoadHead(addr, |data|);
    var chk := Be16(Sum(head[4..10]));
    HeadParts(head, chk, CalLoadBody(data) + Xe32(Sum(data)));
    CalLoadHeadFields(addr, |data|);
    Be16RoundTrip(Sum(head[4..10]));
  }

  /** The header fields of `head + chk + rest` are those of `head`, then `chk`. */
  lemma HeadParts(head: seq<Byte>, chk: seq<Byte>, rest: seq<Byte>)
    requires |head| == 10 && |chk| == 2
    ensures var f := (head + chk) + rest;
            f[0..4] == head[0..4] && f[4..6] == head[4..6] && f[6..10] == head[6..10] && f[4..10] == head[4..10] &&
            f[10..12] == chk
  {
  }

  lemma CalLoadPayload(addr: int, data: seq<Byte>)
    ensures |CalLoadFrame(addr, data)| == 16 + Round4(|data|)
    ensures var f := CalLoadFrame(addr, data);
            forall i | 0 <= i < |data| :: f[12 + Partner(i)] == data[i]
    ensures var f := CalLoadFrame(addr, data);
            forall j | 12 + SwapSpan(|data|) <= j < 12 + Round4(|data|) :: f[j] == 0
    ensures var f := CalLoadFrame(addr, data);
            GetXe32(f[12 + Round4(|data|)..]) == Trunc32(Sum(data))
  {
    var head := CalLoadHead(addr, |data|);
    var body := CalLoadBody(data);
    BodyParts(head, Be16(Sum(head[4..10])), body, Xe32(Sum(data)));
    CalLoadBodyFields(data);
    Xe32RoundTrip(Sum(data));
    CalLoadPlaced(CalLoadFrame(addr, data), body, data);
  }

  /** A frame holding `body` from byte 12 on holds the swapped payload and the zero padding there. */
  lemma CalLoadPlaced(f: seq<Byte>, body: seq<Byte>, data: seq<Byte>)
    requires |body| == Round4(|data|) && |f| >= 12 + |body|
    requires forall k | 0 <= k < |body| :: f[12 + k] == body[k]
    requires forall i | 0 <= i < |data| :: body[Partner(i)] == data[i]
    requires forall j | SwapSpan(|data|) <= j < |body| :: body[j] == 0
    ensures forall i | 0 <= i < |data| :: f[12 + Partner(i)] == data[i]
    ensures forall j | 12 + SwapSpan(|data|) <= j < 12 + |body| :: f[j] == 0
  {
    forall i | 0 <= i < |data|
      ensures f[12 + Partner(i)] == data[i]
    {
      PartnerInSpan(i, |data|);
      assert f[12 + Partner(i)] == body[Partner(i)];
    }
    forall j | 12 + SwapSpan(|data|) <= j < 12 + |body|
      ensures f[j] == 0
    {
      assert f[j] == body[j - 12];
    }
  }

  /** Where the body and the tail of a frame lie. */
  lemma BodyParts(head: seq<Byte>, chk: seq<Byte>, body: seq<Byte>, tail: seq<Byte>)
    requires |head| == 10 && |chk| == 2 && |tail| == 4
    ensures var f := (head + chk) + (body + tail);
            |f| == 16 + |body| && f[12 + |body|..] == tail &&
            forall k | 0 <= k < |body| :: f[12 + k] == body[k]
  {
  }

  lemma CalLoadHeadFields(addr: int, len: nat)
    ensures var h := CalLoadHead(addr, len);
            GetXe32(h[0..4]) == CALLOAD && GetBe16(h[4..6]) == Trunc16((len + 3) / 4) && GetXe32(h[6..10]) == Trunc32(addr)
  {
    var h := CalLoadHead(addr, len);
    assert h[0..4] == Xe32(CALLOAD) && h[4..6] == Be16((len + 3) / 4) && h[6..10] == Xe32(addr);
    Xe32RoundTrip(CALLOAD);
    Be16RoundTrip((len + 3) / 4);
    Xe32RoundTrip(addr);
  }

  /** `mtfw_item_add_regwr`: the frame is built in a 16-byte buffer and appended as WRITE_ACK. */
  method AddRegWr(list: ItemList, addr: int, mask: int, val: int)
    requires 0 <= addr < U32 && 0 <= mask < U32 && 0 <= val < U32
    modifies list
    ensures list.items == old(list.items) + [Item(WRITE_ACK, RegWrFrame(addr, mask, val))]
  {
    var buf := new Byte[16](_ => 0);
    Put16be(buf, 0, REGWR);
    Put32xe(buf, 2, addr);
    Put32xe(buf, 6, mask);
    Put32xe(buf, 10, val);
    ghost var fields := Xe32(addr) + Xe32(mask) + Xe32(val);
    assert buf[2..14] == fields;
    var sum := Sum32(buf[2..14]);
    BeTrunc(Sum(fields));
    Put16be(buf, 14, Trunc16(sum));
    assert buf[..] == Be16(REGWR) + fields + Be16(Sum(fields));
    list.Add(WRITE_ACK, buf[..]);
  }

  /** A 16-bit field of a 32-bit-truncated sum is the 16-bit field of the sum. */
  lemma BeTrunc(s: int)
    ensures Be16(Trunc16(Trunc32(s))) == Be16(s)
  {
    TruncTrunc(s);
    Be16Trunc(s);
  }

  /** The low 16 bits of the low 32 bits are the low 16 bits. */
  lemma TruncTrunc(s: int)
    ensures Trunc16(Trunc32(s)) == Trunc16(s)
  {
    var t := Trunc32(s);
    assert s == U32 * (s / U32) + t;
    assert t == U16 * (t / U16) + t % U16;
    assert s == U16 * (0x1_0000 * (s / U32) + t / U16) + t % U16;
    DivModUnique(s, U16, 0x1_0000 * (s / U32) + t / U16, t % U16);
  }

  /** `Be16` only sees the low 16 bits. */
  lemma Be16Trunc(s: int)
    ensures Be16(s % U16) == Be16(s)
  {
    var q := s / U16;
    assert s == U16 * q + s % U16;
    assert s == 256 * (256 * q + (s % U16) / 256) + (s % U16) % 256;
    DivModUnique(s, 256, 256 * q + (s % U16) / 256, (s % U16) % 256);
    DivModUnique(s / 256, 256, q, (s % U16) / 256);
  }

  /** `Xe32` only sees the low 32 bits. */
  lemma XeTrunc(s: int)
    ensures Xe32(Trunc32(s)) == Xe32(s)
  {
    ByteOfTrunc(s, 1, 0x100_0000);
    ByteOfTrunc(s, 0x100, 0x1_0000);
    ByteOfTrunc(s, 0x1_0000, 0x100);
    ByteOfTrunc(s, 0x100_0000, 1);
  }

  /** Any byte of the low 32 bits is the same byte of the whole value. */
  lemma ByteOfTrunc(s: int, k: int, m: int)
    requires k > 0 && m > 0 && k * 256 * m == U32
    ensures (Trunc32(s) / k) % 256 == (s / k) % 256
  {
    var q, t := s / U32, Trunc32(s);
    var h := t / k;
    assert t == h * k + t % k;
    assert U32 * q == (256 * m * q) * k;
    assert s == (256 * m * q + h) * k + t % k;
    DivModUnique(s, k, 256 * m * q + h, t % k);
    assert h == t / k < U32 / k == 256 * m by {
      DivModUnique(U32, k, 256 * m, 0);
    }
    assert s / k == (m * q + h / 256) * 256 + h % 256;
    DivModUnique(s / k, 256, m * q + h / 256, h % 256);
  }

  /** `mtfw_item_add_calload`: a zero-filled WRITE_ACK item of 16 + Round4(len) bytes, then the frame written into it. */
  method AddCalLoad(list: ItemList, addr: int, data: seq<Byte>)
    requires 0 <= addr < U32 && |data| + 3 < U32
    modifies list
    ensures list.items == old(list.items) + [Item(WRITE_ACK, CalLoadFrame(addr, data))]
  {
    var r4 := (|data| + 3) / 4 * 4;
    var buf := new Byte[16 + r4](_ => 0);
    WriteCalHead(buf, addr, |data|);
    WriteCalBody(buf, data);
    assert buf[..] == buf[..12] + buf[12..];
    list.Add(WRITE_ACK, buf[..]);
  }

  /** From byte 12 of a zero-filled calibration load: the swapped payload, then its 32-bit sum after the padding. */
  method WriteCalBody(buf: array<Byte>, data: seq<Byte>)
    requires buf.Length == 16 + Round4(|data|)
    requires forall j | 12 <= j < buf.Length :: buf[j] == 0
    modifies buf
    ensures buf[..12] == old(buf[..12])
    ensures buf[12..] == CalLoadBody(data) + Xe32(Sum(data))
  {
    var r4 := (|data| + 3) / 4 * 4;
    WriteCalPayload(buf, data);
    var sum := Sum32(data);
    XeTrunc(Sum(data));
    ghost var before := buf[..];
    Put32xe(buf, 12 + r4, sum);
    SameSlice(before, buf[..], 0, 12);
    SameSlice(before, buf[..], 12, 12 + r4);
    SplitTail(buf[..], 12, 12 + r4);
  }

  /** Two sequences that agree on every index of [lo, hi) have the same slice there. */
  lemma SameSlice(a: seq<Byte>, b: seq<Byte>, lo: nat, hi: nat)
    requires lo <= hi <= |a| == |b|
    requires forall j | lo <= j < hi :: a[j] == b[j]
    ensures a[lo..hi] == b[lo..hi]
  {
  }

  lemma SplitTail(s: seq<Byte>, lo: nat, mid: nat)
    requires lo <= mid <= |s|
    ensures s[lo..] == s[lo..mid] + s[mid..]
  {
  }

  /** Bytes 12 to 12 + Round4(|data|) of a zero-filled calibration load become its body. */
  method WriteCalPayload(buf: array<Byte>, data: seq<Byte>)
    requires buf.Length == 16 + Round4(|data|)
    requires forall j | 12 <= j < buf.Length :: buf[j] == 0
    modifies buf
    ensures buf[..12] == old(buf[..12])
    ensures buf[12..12 + Round4(|data|)] == CalLoadBody(data)
  {
    ghost var span := SwapSpan(|data|);
    ZeroSlice(buf[..], 12, 12 + span);
    ZeroSlice(buf[..], 12 + span, buf.Length);
    ghost var pre, mid, post := buf[..12], buf[12..12 + span], buf[12 + span..];
    Copy16be(buf, 12, data);
    PayloadPlaced(pre, mid, post, buf[..], data);
  }

  /** What `copy16be` leaves in a zero-filled calibration load: the header untouched, then the body. */
  lemma PayloadPlaced(pre: seq<Byte>, mid: seq<Byte>, post: seq<Byte>, after: seq<Byte>, data: seq<Byte>)
    requires |pre| == 12 && mid == Zeros(SwapSpan(|data|)) && post == Zeros(4 + Round4(|data|) - SwapSpan(|data|))
    requires after == pre + Swapped(mid, data) + post
    ensures after[..12] == pre
    ensures after[12..12 + Round4(|data|)] == CalLoadBody(data)
  {
    var k := Round4(|data|) - SwapSpan(|data|);
    assert post[..k] == Zeros(k);
    ThreeParts(after, pre, Swapped(mid, data), post, k);
  }

  /** A run of zero bytes is `Zeros` of its length. */
  lemma ZeroSlice(s: seq<Byte>, lo: nat, hi: nat)
    requires lo <= hi <= |s| && forall j | lo <= j < hi :: s[j] == 0
    ensures s[lo..hi] == Zeros(hi - lo)
  {
  }

  /** The middle of `pre + w + post` and what follows it. */
  lemma ThreeParts(s: seq<Byte>, pre: seq<Byte>, w: seq<Byte>, post: seq<Byte>, k: nat)
    requires s == pre + w + post && k <= |post|
    ensures s[..|pre|] == pre
    ensures s[|pre|..|pre| + |w| + k] == w + post[..k]
  {
    assert s[|pre|..|pre| + |w| + k] == (w + post)[..|w| + k];
  }

  /** The first 12 bytes of a calibration load: opcode, word count, address and header checksum. */
  method WriteCalHead(buf: array<Byte>, addr: int, len: nat)
    requires buf.Length >= 12
    modifies buf
    ensures var head := CalLoadHead(addr, len); buf[..12] == head + Be16(Sum(head[4..10]))
    ensures buf[12..] == old(buf[12..])
  {
    Put32xe(buf, 0, CALLOAD);
    Put16be(buf, 4, (len + 3) / 4);
    Put32xe(buf, 6, addr);
    ghost var head := CalLoadHead(addr, len);
    assert buf[..10] == head;
    assert buf[4..10] == head[4..10];
    var sum := Sum32(buf[4..10]);
    BeTrunc(Sum(head[4..10]));
    Put16be(buf, 10, Trunc16(sum));
    assert buf[..10] == head;
    assert buf[..12] == buf[..10] + buf[10..12];
  }
}
