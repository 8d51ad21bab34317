// The Broadcom firmware pack scanner `autohcd` (hcdpack/hcdpack.c). A pack is
// a byte stream of HCD records `[op16 little-endian][len8][payload]`; an image
// starts at a WRITE_RAM record (4C FC) carrying "BRCMcfgS" at bytes 7..15 and
// runs until a LAUNCH_RAM record, an unknown opcode or the next image header.
// A "BRCMcfgD" record inside an image carries the image's name.
module HcdPack {
  import opened Wrappers
  import opened Bytes
  import opened CStr

  const MAX_IMAGES: nat := 128
  const WRITE_RAM: int := 0xFC4C
  const LAUNCH_RAM: int := 0xFC4E
  /** "BRCMcfgS", the signature of an image header. */
  const CFG_S: seq<Byte> := [0x42, 0x52, 0x43, 0x4D, 0x63, 0x66, 0x67, 0x53]
  /** "BRCMcfgD", the signature of the record holding the name. */
  const CFG_D: seq<Byte> := [0x42, 0x52, 0x43, 0x4D, 0x63, 0x66, 0x67, 0x44]

  /** The record at `offs` is a WRITE_RAM record with `sig` at its bytes 7..15. */
  predicate Signed(buf: seq<Byte>, offs: nat, sig: seq<Byte>)
  {
    offs + 15 <= |buf| && buf[offs] == 0x4C && buf[offs + 1] == 0xFC && buf[offs + 7..offs + 15] == sig
  }

  // ---------------------------------------------------------------------------
  // Names

  /**
   * `process_cfgd(rec, size, name)`: when the `size` bytes of the record hold
   * the length byte at 10 and that many bytes after it, they are the name;
   * otherwise the name is kept.
   */
  function ProcessCfgd(rec: seq<Byte>, size: nat, name: seq<Byte>): (r: seq<Byte>)
    requires size <= |rec|
    ensures r == name || (size >= 11 && |r| == rec[10] && 11 + |r| <= size && r == rec[11..11 + |r|])
    ensures r != name ==> size >= 11
    ensures size >= 11 && rec[10] <= size - 11 ==> r == rec[11..11 + rec[10]]
    ensures size < 11 || rec[10] > size - 11 ==> r == name
  {
    if size < 11 then name
    else
      var len := rec[10];
      if len > size - 11 then name else rec[11..11 + len]
  }

  /** A name record body: ten leading bytes, the length byte, the name. */
  function CfgdBody(lead: seq<Byte>, name: seq<Byte>): seq<Byte>
    requires |lead| == 10 && |name| < 256
  {
    lead + [|name|] + name
  }

  /** A well-formed name record yields its name. */
  lemma CfgdRoundTrip(lead: seq<Byte>, name: seq<Byte>, old_name: seq<Byte>)
    requires |lead| == 10 && |name| < 256
    ensures ProcessCfgd(CfgdBody(lead, name), |CfgdBody(lead, name)|, old_name) == name
  {
    var b := CfgdBody(lead, name);
    assert b[10] == |name| && b[11..11 + |name|] == name;
  }

  /** The characters of a C string held in `b`: everything before the first zero byte. */
  function CName(b: seq<Byte>): (s: string)
    ensures |s| <= |b| && forall k | 0 <= k < |s| :: b[k] != 0 && s[k] == b[k] as char
    ensures |s| < |b| ==> b[|s|] == 0
  {
    if b == [] || b[0] == 0 then "" else [b[0] as char] + CName(b[1..])
  }

  // ---------------------------------------------------------------------------
  // One image

  /** Where a walk stopped and the name it found. */
  datatype Scan = Scan(end: nat, name: seq<Byte>)

  /** The payload length of the record at `offs`, clamped to the bytes left. */
  function RecordLen(img: seq<Byte>, offs: nat): (n: nat)
    requires offs + 3 <= |img|
    ensures offs + 3 + n <= |img|
  {
    if img[offs + 2] > |img| - offs - 3 then |img| - offs - 3 else img[offs + 2]
  }

  /** The opcode of the record at `offs`. */
  function OpAt(img: seq<Byte>, offs: nat): int
    requires offs + 2 <= |img|
  {
    GetLe16(img[offs], img[offs + 1])
  }

  /**
   * `process_image` from record `offs` on: an unknown opcode or a later image
   * header stops before the record, a LAUNCH_RAM record stops after it, and
   * a name record sets the name. A name record too short for its 12 header
   * bytes leaves the name alone.
   */
  function Walk(img: seq<Byte>, offs: nat, name: seq<Byte>): (r: Scan)
    requires offs <= |img|
    ensures offs <= r.end <= |img|
    decreases |img| - offs
  {
    if offs + 3 > |img| then Scan(offs, name)
    else
      var op := OpAt(img, offs);
      var len := RecordLen(img, offs);
      if op != LAUNCH_RAM && op != WRITE_RAM then Scan(offs, name)
      else if offs > 0 && Signed(img, offs, CFG_S) then Scan(offs, name)
      else
        var name' := if Signed(img, offs, CFG_D) && len >= 12 then ProcessCfgd(img[offs + 15..], len - 12, name) else name;
        if op == LAUNCH_RAM then Scan(offs + len + 3, name') else Walk(img, offs + len + 3, name')
  }

  /** An image that starts with its header consumes at least that record. */
  lemma WalkProgress(img: seq<Byte>, name: seq<Byte>)
    requires Signed(img, 0, CFG_S)
    ensures Walk(img, 0, name).end >= 3
  {
    assert OpAt(img, 0) == WRITE_RAM;
  }

  /** An unknown opcode, or a later header, ends the image before that record. */
  lemma WalkStops(img: seq<Byte>, offs: nat, name: seq<Byte>)
    requires offs + 3 <= |img|
    requires (OpAt(img, offs) != LAUNCH_RAM && OpAt(img, offs) != WRITE_RAM) || (offs > 0 && Signed(img, offs, CFG_S))
    ensures Walk(img, offs, name) == Scan(offs, name)
  {
  }

  /**
   * A WRITE_RAM or LAUNCH_RAM record that is not a later header is consumed,
   * a name record in it setting the name to `name'`; the walk goes on after
   * it, or ends there at a LAUNCH_RAM record.
   */
  lemma WalkNext(img: seq<Byte>, offs: nat, name: seq<Byte>, name': seq<Byte>)
    requires offs + 3 <= |img| && (OpAt(img, offs) == LAUNCH_RAM || OpAt(img, offs) == WRITE_RAM)
    requires !(offs > 0 && Signed(img, offs, CFG_S))
    requires name' == if Signed(img, offs, CFG_D) && RecordLen(img, offs) >= 12
      then ProcessCfgd(img[offs + 15..], RecordLen(img, offs) - 12, name) else name
    ensures var next := offs + RecordLen(img, offs) + 3;
      Walk(img, offs, name) == if OpAt(img, offs) == LAUNCH_RAM then Scan(next, name') else Walk(img, next, name')
  {
  }

  /** A LAUNCH_RAM record ends the image just after it. */
  lemma WalkLaunch(img: seq<Byte>, offs: nat, name: seq<Byte>)
    requires offs + 3 <= |img| && OpAt(img, offs) == LAUNCH_RAM && !(offs > 0 && Signed(img, offs, CFG_S))
    ensures Walk(img, offs, name).end == offs + RecordLen(img, offs) + 3
  {
  }

  /**
   * The name a walk ends with is the one it started with or the contents of a
   * name record inside the walked bytes.
   */
  lemma {:induction false} WalkName(img: seq<Byte>, offs: nat, name: seq<Byte>)
    requires offs <= |img|
    ensures var r := Walk(img, offs, name); r.name == name || NamedIn(img, offs, r)
    decreases |img| - offs
  {
    if offs + 3 <= |img| {
      var op := OpAt(img, offs);
      var len := RecordLen(img, offs);
      if (op == LAUNCH_RAM || op == WRITE_RAM) && !(offs > 0 && Signed(img, offs, CFG_S)) {
        var name' := if Signed(img, offs, CFG_D) && len >= 12 then ProcessCfgd(img[offs + 15..], len - 12, name) else name;
        var next := offs + len + 3;
        WalkNext(img, offs, name, name');
        if name' != name {
          RecordName(img, offs, name);
        }
        var r := Walk(img, offs, name);
        if op == WRITE_RAM {
          WalkName(img, next, name');
          assert r == Walk(img, next, name');
        } else {
          assert r == Scan(next, name');
        }
        NamedLater(img, offs, next, name, name', r);
      } else {
        WalkStops(img, offs, name);
      }
    }
  }

  /**
   * A walk that reaches `next` with the name `name'` (set by a name record at
   * `offs` when it differs from `name`) and then ends in `r`.
   */
  lemma NamedLater(img: seq<Byte>, offs: nat, next: nat, name: seq<Byte>, name': seq<Byte>, r: Scan)
    requires offs <= next <= r.end
    requires name' == name || (NameAt(img, offs, name') && offs + 26 + |name'| <= next)
    requires r.name == name' || NamedIn(img, next, r)
    ensures r.name == name || NamedIn(img, offs, r)
  {
    if r.name != name {
      if r.name == name' {
        assert offs + 26 + |r.name| <= r.end && NameAt(img, offs, r.name);
      } else {
        var o :| next <= o && o + 26 + |r.name| <= r.end && NameAt(img, o, r.name);
        assert offs <= o;
      }
    }
  }

  /** A name record that changes the name holds the new name within its own bytes. */
  lemma RecordName(img: seq<Byte>, offs: nat, name: seq<Byte>)
    requires offs + 3 <= |img| && Signed(img, offs, CFG_D) && RecordLen(img, offs) >= 12
    requires ProcessCfgd(img[offs + 15..], RecordLen(img, offs) - 12, name) != name
    ensures var n := ProcessCfgd(img[offs + 15..], RecordLen(img, offs) - 12, name);
      NameAt(img, offs, n) && offs + 26 + |n| <= offs + RecordLen(img, offs) + 3
  {
    var rec := img[offs + 15..];
    var n := ProcessCfgd(rec, RecordLen(img, offs) - 12, name);
    assert rec[10] == img[offs + 25];
    assert rec[11..11 + |n|] == img[offs + 26..offs + 26 + |n|];
  }

  /** Some name record between `offs` and the end of walk `r` spells its name. */
  predicate NamedIn(img: seq<Byte>, offs: nat, r: Scan)
  {
    exists o :: offs <= o && o + 26 + |r.name| <= r.end && NameAt(img, o, r.name)
  }

  /** A name record at `o` whose bytes spell `n`. */
  predicate NameAt(img: seq<Byte>, o: nat, n: seq<Byte>)
  {
    Signed(img, o, CFG_D) && o + 26 + |n| <= |img| && img[o + 25] == |n| && img[o + 26..o + 26 + |n|] == n
  }

  /**
   * `process_image(img, size, name)`: the walk from the first record. The
   * caller only passes a buffer of at least 15 bytes.
   */
  method ProcessImage(img: seq<Byte>, name: seq<Byte>) returns (end: nat, name': seq<Byte>)
    requires |img| >= 15
    ensures Scan(end, name') == Walk(img, 0, name)
    ensures end <= |img|
  {
    var offs := 0;
    name' := name;
    while offs <= |img| - 3
      invariant offs <= |img| && Walk(img, offs, name') == Walk(img, 0, name)
      decreases |img| - offs
    {
      var stop;
      stop, offs, name' := Advance(img, offs, name');
      if stop {
        return offs, name';
      }
    }
    end := offs;
  }

  /**
   * One pass of the loop of `process_image`: either the walk ends (`stop`,
   * before or after the record at `offs`) or it goes on at the next record.
   */
  method Advance(img: seq<Byte>, offs: nat, name: seq<Byte>) returns (stop: bool, offs': nat, name': seq<Byte>)
    requires |img| >= 15 && offs <= |img| - 3
    ensures offs' <= |img|
    ensures stop ==> Scan(offs', name') == Walk(img, offs, name)
    ensures !stop ==> offs < offs' && Walk(img, offs', name') == Walk(img, offs, name)
  {
    var op := GetLe16(img[offs], img[offs + 1]);
    var itsz: nat := img[offs + 2];
    if itsz > |img| - offs - 3 {
      itsz := |img| - offs - 3;
    }
    assert op == OpAt(img, offs) && itsz == RecordLen(img, offs);
    if op != LAUNCH_RAM && op != WRITE_RAM {
      WalkStops(img, offs, name);
      return true, offs, name;
    }
    if offs > 0 && Signed(img, offs, CFG_S) {
      WalkStops(img, offs, name);
      return true, offs, name;
    }
    name' := name;
    if Signed(img, offs, CFG_D) && itsz >= 12 {
      name' := ProcessCfgd(img[offs + 15..], itsz - 12, name);
    }
    WalkNext(img, offs, name, name');
    offs' := offs + itsz + 3;
    stop := op == LAUNCH_RAM;
  }

  // ---------------------------------------------------------------------------
  // The pack

  /** A table entry: where the image starts, how many bytes it has, its name. */
  datatype Image = Image(offs: nat, size: nat, name: string)

  /** The image the walk from a header at `offs` yields. */
  function ImageAt(buf: seq<Byte>, offs: nat): (m: Image)
    requires Signed(buf, offs, CFG_S)
    ensures m.offs == offs && m.size >= 3 && offs + m.size <= |buf|
  {
    var s := Walk(buf[offs..], 0, []);
    WalkProgress(buf[offs..], []);
    Image(offs, s.end, CName(s.name))
  }

  /**
   * Each image starts at a header and has at least that record's bytes
   * within the buffer; they are in order and do not overlap.
   */
  predicate Laid(buf: seq<Byte>, ims: seq<Image>)
  {
    (forall k | 0 <= k < |ims| :: Signed(buf, ims[k].offs, CFG_S) && 3 <= ims[k].size && ims[k].offs + ims[k].size <= |buf|) &&
    (forall k | 0 <= k < |ims| - 1 :: ims[k].offs + ims[k].size <= ims[k + 1].offs)
  }

  /** Every image is the walk from its header. */
  predicate Walked(buf: seq<Byte>, ims: seq<Image>)
  {
    forall k | 0 <= k < |ims| :: Signed(buf, ims[k].offs, CFG_S) && ims[k] == ImageAt(buf, ims[k].offs)
  }

  /** Every image starts at `offs` or later. */
  predicate From(ims: seq<Image>, offs: nat)
  {
    forall k | 0 <= k < |ims| :: offs <= ims[k].offs
  }

  /**
   * Every image the scan in `collect_images` finds from `offs` on: it tries
   * each position, and after an image resumes at its end.
   */
  function Found(buf: seq<Byte>, offs: nat): seq<Image>
    requires offs <= |buf|
    decreases |buf| - offs
  {
    if offs + 15 > |buf| then []
    else if !Signed(buf, offs, CFG_S) then Found(buf, offs + 1)
    else
      var m := ImageAt(buf, offs);
      [m] + Found(buf, offs + m.size)
  }

  /**
   * The images found from `offs` on start there or later, lie in order
   * without overlapping, and are each the walk from their header.
   */
  lemma {:induction false} FoundLaid(buf: seq<Byte>, offs: nat)
    requires offs <= |buf|
    ensures Arranged(buf, Found(buf, offs), offs)
    decreases |buf| - offs
  {
    if offs + 15 > |buf| {
      assert Found(buf, offs) == [];
    } else if !Signed(buf, offs, CFG_S) {
      FoundLaid(buf, offs + 1);
      ArrangedSkip(buf, offs);
    } else {
      FoundLaid(buf, offs + ImageAt(buf, offs).size);
      ArrangedHead(buf, offs);
    }
  }

  lemma ArrangedSkip(buf: seq<Byte>, offs: nat)
    requires offs + 15 <= |buf| && !Signed(buf, offs, CFG_S)
    requires Arranged(buf, Found(buf, offs + 1), offs + 1)
    ensures Arranged(buf, Found(buf, offs), offs)
  {
    FoundSkip(buf, offs);
    ArrangedLater(buf, Found(buf, offs + 1), offs);
  }

  lemma ArrangedHead(buf: seq<Byte>, offs: nat)
    requires Signed(buf, offs, CFG_S)
    requires Arranged(buf, Found(buf, offs + ImageAt(buf, offs).size), offs + ImageAt(buf, offs).size)
    ensures Arranged(buf, Found(buf, offs), offs)
  {
    var m := ImageAt(buf, offs);
    FoundHead(buf, offs);
    LaidCons(buf, m, Found(buf, offs + m.size));
  }

  lemma ArrangedLater(buf: seq<Byte>, ims: seq<Image>, offs: nat)
    requires Arranged(buf, ims, offs + 1)
    ensures Arranged(buf, ims, offs)
  {
  }

  /** Laid out, from `offs` on, and each the walk from its header. */
  predicate Arranged(buf: seq<Byte>, ims: seq<Image>, offs: nat)
  {
    Laid(buf, ims) && From(ims, offs) && Walked(buf, ims)
  }

  lemma LaidCons(buf: seq<Byte>, m: Image, rest: seq<Image>)
    requires Signed(buf, m.offs, CFG_S) && m == ImageAt(buf, m.offs)
    requires Arranged(buf, rest, m.offs + m.size)
    ensures Arranged(buf, [m] + rest, m.offs)
  {
    var r := [m] + rest;
    assert forall k | 1 <= k < |r| :: r[k] == rest[k - 1];
    LaidHead(buf, m, rest);
    FromHead(m, rest);
    WalkedHead(buf, m, rest);
  }

  lemma LaidHead(buf: seq<Byte>, m: Image, rest: seq<Image>)
    requires Signed(buf, m.offs, CFG_S) && 3 <= m.size && m.offs + m.size <= |buf|
    requires Laid(buf, rest) && From(rest, m.offs + m.size)
    requires forall k | 1 <= k < |rest| + 1 :: ([m] + rest)[k] == rest[k - 1]
    ensures Laid(buf, [m] + rest)
  {
  }

  lemma FromHead(m: Image, rest: seq<Image>)
    requires From(rest, m.offs + m.size)
    requires forall k | 1 <= k < |rest| + 1 :: ([m] + rest)[k] == rest[k - 1]
    ensures From([m] + rest, m.offs)
  {
  }

  lemma WalkedHead(buf: seq<Byte>, m: Image, rest: seq<Image>)
    requires Signed(buf, m.offs, CFG_S) && m == ImageAt(buf, m.offs) && Walked(buf, rest)
    requires forall k | 1 <= k < |rest| + 1 :: ([m] + rest)[k] == rest[k - 1]
    ensures Walked(buf, [m] + rest)
  {
  }

  /** A position without a header is passed over. */
  lemma FoundSkip(buf: seq<Byte>, offs: nat)
    requires offs + 15 <= |buf| && !Signed(buf, offs, CFG_S)
    ensures Found(buf, offs) == Found(buf, offs + 1)
  {
  }

  /** At a header, the image there comes first and the scan resumes at its end. */
  lemma FoundHead(buf: seq<Byte>, offs: nat)
    requires Signed(buf, offs, CFG_S)
    ensures var m := ImageAt(buf, offs); Found(buf, offs) == [m] + Found(buf, offs + m.size)
  {
  }

  /** The same, for the image as `process_image` walks it. */
  lemma FoundAt(buf: seq<Byte>, offs: nat, end: nat, name: seq<Byte>)
    requires Signed(buf, offs, CFG_S) && Scan(end, name) == Walk(buf[offs..], 0, [])
    ensures 3 <= end && offs + end <= |buf| && Found(buf, offs) == [Image(offs, end, CName(name))] + Found(buf, offs + end)
  {
    FoundHead(buf, offs);
  }

  /** The table keeps the first MAX_IMAGES images found. */
  function Table(buf: seq<Byte>): (t: seq<Image>)
    ensures |t| <= MAX_IMAGES && Laid(buf, t) && Walked(buf, t)
  {
    FoundLaid(buf, 0);
    var t := Keep(Found(buf, 0));
    assert Laid(buf, t);
    t
  }

  /** The first MAX_IMAGES images of `all`. */
  function Keep(all: seq<Image>): (t: seq<Image>)
    ensures |t| == if |all| > MAX_IMAGES then MAX_IMAGES else |all|
    ensures forall k | 0 <= k < |t| :: t[k] == all[k]
  {
    if |all| > MAX_IMAGES then all[..MAX_IMAGES] else all
  }

  /** Keeping one more image found: it is kept while there is room. */
  lemma KeepStep(all: seq<Image>, m: Image)
    ensures Keep(all + [m]) == if |all| < MAX_IMAGES then Keep(all) + [m] else Keep(all)
  {
    if |all| > MAX_IMAGES {
      assert (all + [m])[..MAX_IMAGES] == all[..MAX_IMAGES];
    }
  }

  /** The line printed for each image found in listing mode. */
  function Line(m: Image): string
  {
    "Found sig at " + Decimal(m.offs) + " (" + Decimal(m.size) + "): " + m.name + "\n"
  }

  function Lines(ims: seq<Image>): string
  {
    if ims == [] then "" else Lines(ims[..|ims| - 1]) + Line(ims[|ims| - 1])
  }

  /**
   * `collect_images(print)`: the table, and what is printed when `listed`
   * is set (every image found, also past the table's capacity).
   */
  method CollectImages(buf: seq<Byte>, listed: bool) returns (images: seq<Image>, listing: string)
    ensures images == Table(buf)
    ensures listing == if listed then Lines(Found(buf, 0)) else ""
  {
    images := [];
    listing := "";
    ghost var seen: seq<Image> := [];
    var offs := 0;
    while offs + 15 <= |buf|
      invariant Collected(buf, listed, seen, offs, images, listing)
      decreases |buf| - offs
    {
      seen, offs, images, listing := CollectAt(buf, listed, seen, offs, images, listing);
    }
    CollectedDone(buf, listed, seen, offs, images, listing);
  }

  /** One pass of the loop of `collect_images`, at position `offs`. */
  method CollectAt(buf: seq<Byte>, listed: bool, ghost seen: seq<Image>, offs: nat, images: seq<Image>, listing: string)
    returns (ghost seen': seq<Image>, offs': nat, images': seq<Image>, listing': string)
    requires offs + 15 <= |buf| && Collected(buf, listed, seen, offs, images, listing)
    ensures offs < offs' && Collected(buf, listed, seen', offs', images', listing')
  {
    seen', offs', images', listing' := seen, offs, images, listing;
    if !Signed(buf, offs, CFG_S) {
      CollectedSkip(buf, listed, seen, offs, images, listing);
      offs' := offs + 1;
      return;
    }
    var m := WalkImage(buf, offs);
    if listed {
      listing' := listing + Line(m);
    }
    if |images| < MAX_IMAGES {
      images' := images + [m];
    }
    seen' := seen + [m];
    offs' := offs + m.size - 1;
    offs' := offs' + 1;
    CollectedImage(buf, listed, seen, offs, images, listing, m, images', listing');
  }

  /** The state of the scan at `offs`: `seen` found so far, kept and listed. */
  predicate Collected(buf: seq<Byte>, listed: bool, seen: seq<Image>, offs: nat, images: seq<Image>, listing: string)
  {
    Scanned(buf, seen, offs) && images == Keep(seen) && listing == (if listed then Lines(seen) else "")
  }

  lemma CollectedDone(buf: seq<Byte>, listed: bool, seen: seq<Image>, offs: nat, images: seq<Image>, listing: string)
    requires Collected(buf, listed, seen, offs, images, listing) && offs + 15 > |buf|
    ensures images == Table(buf) && listing == if listed then Lines(Found(buf, 0)) else ""
  {
    assert Found(buf, offs) == [];
    assert Found(buf, 0) == seen;
  }

  lemma CollectedSkip(buf: seq<Byte>, listed: bool, seen: seq<Image>, offs: nat, images: seq<Image>, listing: string)
    requires Collected(buf, listed, seen, offs, images, listing) && offs + 15 <= |buf| && !Signed(buf, offs, CFG_S)
    ensures Collected(buf, listed, seen, offs + 1, images, listing)
  {
    ScannedSkip(buf, seen, offs);
  }

  lemma CollectedImage(buf: seq<Byte>, listed: bool, seen: seq<Image>, offs: nat, images: seq<Image>, listing: string, m: Image,
                        images': seq<Image>, listing': string)
    requires Collected(buf, listed, seen, offs, images, listing) && offs + m.size <= |buf|
    requires Found(buf, offs) == [m] + Found(buf, offs + m.size)
    requires images' == if |images| < MAX_IMAGES then images + [m] else images
    requires listing' == if listed then listing + Line(m) else listing
    ensures Collected(buf, listed, seen + [m], offs + m.size, images', listing')
  {
    ScannedImage(buf, seen, offs, m);
    KeepStep(seen, m);
    assert (seen + [m])[..|seen|] == seen;
  }

  /** The images found before `offs` are `seen`. */
  predicate Scanned(buf: seq<Byte>, seen: seq<Image>, offs: nat)
  {
    offs <= |buf| && Found(buf, 0) == seen + Found(buf, offs)
  }

  lemma ScannedSkip(buf: seq<Byte>, seen: seq<Image>, offs: nat)
    requires Scanned(buf, seen, offs) && offs + 15 <= |buf| && !Signed(buf, offs, CFG_S)
    ensures Scanned(buf, seen, offs + 1)
  {
    FoundSkip(buf, offs);
  }

  lemma ScannedImage(buf: seq<Byte>, seen: seq<Image>, offs: nat, m: Image)
    requires Scanned(buf, seen, offs) && offs + m.size <= |buf|
    requires Found(buf, offs) == [m] + Found(buf, offs + m.size)
    ensures Scanned(buf, seen + [m], offs + m.size)
  {
    assert (seen + [m]) + Found(buf, offs + m.size) == seen + ([m] + Found(buf, offs + m.size));
  }

  /** The image at a header, as `collect_images` records it. */
  method WalkImage(buf: seq<Byte>, offs: nat) returns (m: Image)
    requires Signed(buf, offs, CFG_S)
    ensures m.offs == offs && 3 <= m.size && offs + m.size <= |buf|
    ensures Found(buf, offs) == [m] + Found(buf, offs + m.size)
  {
    var imsz, name := ProcessImage(buf[offs..], []);
    FoundAt(buf, offs, imsz, name);
    m := Image(offs, imsz, CName(name));
  }

  // ---------------------------------------------------------------------------
  // Tags and selection

  /** The length of the leading run without `_` (`strchr(s, '_')`, or the end). */
  function Span(s: string): (n: nat)
    ensures n <= |s| && (n < |s| ==> s[n] == '_') && forall k | 0 <= k < n :: s[k] != '_'
  {
    if s == [] || s[0] == '_' then 0 else 1 + Span(s[1..])
  }

  /** At most `max` leading characters. */
  function Clip(v: string, max: nat): (r: string)
    ensures |r| <= max && |r| <= |v| && r == v[..|r|]
    ensures |v| <= max ==> r == v
  {
    if |v| > max then v[..max] else v
  }

  /**
   * `get_tag(str, id, out, outlen)`: fields `X-value` separated by `_`; the
   * value of the first field whose letter is `id`, clipped to `outlen - 1`
   * characters; empty when no field matches or a field's second character is
   * not `-`.
   */
  function GetTag(s: string, id: char, outlen: nat): (r: string)
    requires outlen >= 1
    ensures |r| <= outlen - 1
    decreases |s|
  {
    if s == [] then ""
    else if s[0] == '_' then GetTag(s[1..], id, outlen)
    else if |s| < 2 || s[1] != '-' then ""
    else
      var n := 2 + Span(s[2..]);
      if s[0] == id then Clip(s[2..n], outlen - 1) else GetTag(s[n..], id, outlen)
  }

  /** A `_` between fields is skipped. */
  lemma TagSkipsSeparator(s: string, id: char, outlen: nat)
    requires outlen >= 1
    ensures GetTag("_" + s, id, outlen) == GetTag(s, id, outlen)
  {
    assert ("_" + s)[1..] == s;
  }

  /** A field whose second character is not `-` ends the search with an empty tag. */
  lemma TagMalformedField(c: char, d: char, s: string, id: char, outlen: nat)
    requires outlen >= 1 && c != '_' && d != '-'
    ensures GetTag([c, d] + s, id, outlen) == ""
  {
  }

  /** A field that ends the string after its letter also gives an empty tag. */
  lemma TagTruncatedField(c: char, id: char, outlen: nat)
    requires outlen >= 1 && c != '_'
    ensures GetTag([c], id, outlen) == ""
  {
  }

  /** The loop of `get_tag`, one field at a time. */
  method ReadTag(s: string, id: char, outlen: nat) returns (out: string)
    requires outlen >= 1
    ensures out == GetTag(s, id, outlen)
  {
    var p := 0;
    while p < |s|
      invariant p <= |s| && GetTag(s[p..], id, outlen) == GetTag(s, id, outlen)
      decreases |s| - p
    {
      ghost var t := s[p..];
      if s[p] == '_' {
        assert t[1..] == s[p + 1..];
        p := p + 1;
        continue;
      }
      if p + 1 == |s| || s[p + 1] != '-' {
        return "";
      }
      var n := p + 2 + Span(s[p + 2..]);
      assert t[2..] == s[p + 2..] && t[2..n - p] == s[p + 2..n] && t[n - p..] == s[n..];
      if s[p] == id {
        var l := n - (p + 2);
        if l + 1 > outlen {
          l := outlen - 1;
        }
        return s[p + 2..p + 2 + l];
      }
      p := n;
    }
    return "";
  }

  /** One tag field: its letter and its value. */
  datatype Field = Field(id: char, value: string)

  /** Fields written out as `X-value` joined with `_`. */
  function Tags(fs: seq<Field>): string
  {
    if fs == [] then ""
    else if |fs| == 1 then [fs[0].id, '-'] + fs[0].value
    else [fs[0].id, '-'] + fs[0].value + "_" + Tags(fs[1..])
  }

  /** No letter is `_` and no value holds `_`. */
  predicate Plain(fs: seq<Field>)
  {
    forall k | 0 <= k < |fs| :: fs[k].id != '_' && forall j | 0 <= j < |fs[k].value| :: fs[k].value[j] != '_'
  }

  /** The value of the first field with letter `id`. */
  function Lookup(fs: seq<Field>, id: char): Option<string>
  {
    if fs == [] then None else if fs[0].id == id then Some(fs[0].value) else Lookup(fs[1..], id)
  }

  lemma {:induction false} SpanPlain(v: string, t: string)
    requires forall j | 0 <= j < |v| :: v[j] != '_'
    requires t == [] || t[0] == '_'
    ensures Span(v + t) == |v|
  {
    if v != [] {
      assert (v + t)[1..] == v[1..] + t;
      SpanPlain(v[1..], t);
    }
  }

  /** Reading a tag out of written-out fields gives the first matching value, clipped. */
  lemma {:induction false} TagsRoundTrip(fs: seq<Field>, id: char, outlen: nat)
    requires Plain(fs) && outlen >= 1
    ensures GetTag(Tags(fs), id, outlen) == if Lookup(fs, id).Some? then Clip(Lookup(fs, id).value, outlen - 1) else ""
  {
    if fs != [] {
      var f, rest := fs[0], fs[1..];
      var tail: string := if rest == [] then "" else "_" + Tags(rest);
      assert Tags(fs) == [f.id, '-'] + f.value + tail;
      assert f.id != '_' && forall j | 0 <= j < |f.value| :: f.value[j] != '_';
      GetTagField(f.id, f.value, tail, id, outlen);
      if f.id != id && rest != [] {
        assert Plain(rest) by {
          forall k | 0 <= k < |rest| ensures rest[k] == fs[k + 1] { }
        }
        assert GetTag(tail, id, outlen) == GetTag(Tags(rest), id, outlen) by {
          assert tail[1..] == Tags(rest);
        }
        TagsRoundTrip(rest, id, outlen);
      }
    }
  }

  /** A field `c-v`, followed by nothing or by a separator, is read as one field. */
  lemma GetTagField(c: char, v: string, tail: string, id: char, outlen: nat)
    requires c != '_' && (forall j | 0 <= j < |v| :: v[j] != '_') && (tail == [] || tail[0] == '_') && outlen >= 1
    ensures GetTag([c, '-'] + v + tail, id, outlen) == if c == id then Clip(v, outlen - 1) else GetTag(tail, id, outlen)
  {
    var s := [c, '-'] + v + tail;
    assert s[2..] == v + tail;
    SpanPlain(v, tail);
    var n := 2 + |v|;
    assert s[2..n] == v && s[n..] == tail;
  }

  /** `tolower` on one character in the C locale. */
  function Lower(c: char): char
  {
    if 'A' <= c <= 'Z' then (c as int + 32) as char else c
  }

  /** `toupper` on one character in the C locale. */
  function Upper(c: char): char
  {
    if 'a' <= c <= 'z' then (c as int - 32) as char else c
  }

  /** The vendor code for a vendor tag: Murata, USI, TDK, or unknown. */
  function Vendor(vend: string): (r: string)
    ensures r == "MUR" <==> vend != [] && Lower(vend[0]) == 'm'
    ensures r == "USI" <==> vend != [] && Lower(vend[0]) == 'u'
    ensures r == "TDK" <==> vend != [] && Lower(vend[0]) == 't'
    ensures r == "MUR" || r == "USI" || r == "TDK" || r == "UNK"
  {
    var c := if vend == [] then '\0' else Lower(vend[0]);
    if c == 'm' then "MUR" else if c == 'u' then "USI" else if c == 't' then "TDK" else "UNK"
  }

  predicate StartsWith(s: string, p: string)
  {
    |p| <= |s| && s[..|p|] == p
  }

  /** `strstr(s, p) != NULL`. */
  predicate Contains(s: string, p: string)
    decreases |s|
  {
    StartsWith(s, p) || (s != [] && Contains(s[1..], p))
  }

  lemma {:induction false} ContainsAt(s: string, p: string, k: nat)
    requires k + |p| <= |s| && s[k..k + |p|] == p
    ensures Contains(s, p)
  {
    if k > 0 {
      assert s[1..][k - 1..k - 1 + |p|] == p;
      ContainsAt(s[1..], p, k - 1);
    }
  }

  /** An image matches when its name starts with the chip string and contains the module string. */
  predicate Matches(m: Image, chipstr: string, modstr: string)
  {
    StartsWith(m.name, chipstr) && Contains(m.name, modstr)
  }

  /** The index of the first matching image, or `|ims|` when none matches. */
  function Choose(ims: seq<Image>, chipstr: string, modstr: string): (i: nat)
    ensures i <= |ims|
    ensures forall k | 0 <= k < i :: !Matches(ims[k], chipstr, modstr)
    ensures i < |ims| ==> Matches(ims[i], chipstr, modstr)
  {
    if ims == [] then 0
    else if Matches(ims[0], chipstr, modstr) then 0
    else 1 + Choose(ims[1..], chipstr, modstr)
  }

  /** How `autohcd` ends: its exit status, standard output, and the bytes written to the output file. */
  datatype Run = Run(status: int, stdout: string, written: Option<seq<Byte>>)

  /** "BCM<chip><rev> " for the OTP chip string. */
  function ChipString(otpChip: string): string
  {
    "BCM" + GetTag(otpChip, 'C', 8) + GetTag(otpChip, 's', 4) + " "
  }

  /** The module name with its first letter upper-cased. */
  function Capitalized(s: string): (r: string)
    ensures |r| == |s| && (s != [] ==> r[0] == Upper(s[0]) && r[1..] == s[1..])
  {
    if s == [] then s else [Upper(s[0])] + s[1..]
  }

  /** " <Module> <vendor>" for the module name and the OTP NVRAM string. */
  function ModuleString(module_: string, otpNvram: string): string
  {
    " " + Capitalized(module_) + " " + Vendor(GetTag(otpNvram, 'V', 4))
  }

  /**
   * `autohcd <pack>` lists the images; `autohcd <pack> <otp-chip> <module>
   * <otp-nvram> <outfile>` writes the first matching image of the table.
   * `pack` is the pack file's content (None when it cannot be opened) and
   * `outOpens` whether the output file can be created.
   */
  function AutoHcd(argv: seq<string>, pack: Option<seq<Byte>>, outOpens: bool): Run
  {
    if |argv| != 2 && |argv| != 6 then Run(1, "", None)
    else if pack.None? then Run(1, "", None)
    else if |argv| == 2 then Run(0, Lines(Found(pack.value, 0)), None)
    else Installed(argv, pack.value, outOpens)
  }

  /** The selecting form: the first matching table image goes to the output file. */
  function Installed(argv: seq<string>, buf: seq<Byte>, outOpens: bool): Run
    requires |argv| == 6
  {
    var t := Table(buf);
    var i := Choose(t, ChipString(argv[2]), ModuleString(argv[3], argv[4]));
    Pick(buf, t, i, GetTag(argv[2], 'C', 8) + GetTag(argv[2], 's', 4), outOpens)
  }

  /** The outcome once image `i` of table `t` is chosen (`|t|` when none is). */
  function Pick(buf: seq<Byte>, t: seq<Image>, i: nat, stem: string, outOpens: bool): Run
    requires Laid(buf, t)
  {
    if i >= |t| || !outOpens then Run(1, "", None)
    else Run(0, "BCM" + stem + ".hcd", Some(buf[t[i].offs..t[i].offs + t[i].size]))
  }

  /**
   * What is written is the first table image whose name starts with
   * "BCM<chip><rev> " and contains " <Module> <vendor>"; nothing is written
   * when no image matches.
   */
  lemma Written(argv: seq<string>, buf: seq<Byte>, outOpens: bool)
    requires |argv| == 6
    ensures var r := Installed(argv, buf, outOpens);
      var t := Table(buf);
      var chip := ChipString(argv[2]);
      var mod := ModuleString(argv[3], argv[4]);
      (r.status == 0 <==> r.written.Some?) &&
      (r.written.Some? <==> outOpens && exists k | 0 <= k < |t| :: Matches(t[k], chip, mod)) &&
      (r.written.Some? ==> exists k | 0 <= k < |t| ::
         Matches(t[k], chip, mod) && (forall j | 0 <= j < k :: !Matches(t[j], chip, mod)) &&
         r.written.value == buf[t[k].offs..t[k].offs + t[k].size])
  {
    var t := Table(buf);
    var chip := ChipString(argv[2]);
    var mod := ModuleString(argv[3], argv[4]);
    var i := Choose(t, chip, mod);
    if i < |t| {
      assert Matches(t[i], chip, mod);
    }
  }

  /**
   * `main` of `autohcd`. The module argument must fit the 32-byte buffer it
   * is copied into.
   */
  method AutoHcdMain(argv: seq<string>, pack: Option<seq<Byte>>, outOpens: bool) returns (r: Run)
    requires |argv| == 6 ==> |argv[3]| < 32
    ensures r == AutoHcd(argv, pack, outOpens)
  {
    if |argv| != 2 && |argv| != 6 {
      return Run(1, "", None);
    }
    if pack.None? {
      return Run(1, "", None);
    }
    if |argv| < 6 {
      var images, listing := CollectImages(pack.value, true);
      return Run(0, listing, None);
    }
    r := Install(argv, pack.value, outOpens);
  }

  /** The selecting form of `main`, from the collected table on. */
  method Install(argv: seq<string>, buf: seq<Byte>, outOpens: bool) returns (r: Run)
    requires |argv| == 6 && |argv[3]| < 32
    ensures r == Installed(argv, buf, outOpens)
  {
    var images, listing := CollectImages(buf, false);
    var chip := ReadTag(argv[2], 'C', 8);
    var rev := ReadTag(argv[2], 's', 4);
    var mod := Capitalized(argv[3]);
    var vend := ReadTag(argv[4], 'V', 4);
    var chipstr := "BCM" + chip + rev + " ";
    var modstr := " " + mod + " " + Vendor(vend);
    var i := SelectImage(images, chipstr, modstr);
    r := Pick(buf, images, i, chip + rev, outOpens);
  }

  /** The selection loop of `main`: the first image whose name matches. */
  method SelectImage(images: seq<Image>, chipstr: string, modstr: string) returns (i: nat)
    ensures i == Choose(images, chipstr, modstr)
  {
    i := 0;
    while i < |images|
      invariant i <= |images| && forall k | 0 <= k < i :: !Matches(images[k], chipstr, modstr)
    {
      if !StartsWith(images[i].name, chipstr) {
        i := i + 1;
        continue;
      }
      if Contains(images[i].name, modstr) {
        break;
      }
      i := i + 1;
    }
    ChooseFirst(images, chipstr, modstr, i);
  }

  /** An index before which nothing matches and at which something does is the first match. */
  lemma ChooseFirst(ims: seq<Image>, chipstr: string, modstr: string, i: nat)
    requires i <= |ims| && forall k | 0 <= k < i :: !Matches(ims[k], chipstr, modstr)
    requires i < |ims| ==> Matches(ims[i], chipstr, modstr)
    ensures i == Choose(ims, chipstr, modstr)
  {
  }

  // ---------------------------------------------------------------------------
  // The scan bounds as written

  /**
   * The loop test `offs <= size - 15` of `collect_images`, evaluated in
   * `size_t` (64-bit) arithmetic as written.
   */
  predicate ScanGuard(offs: nat, size: nat)
  {
    offs <= (size - 15) % U64
  }

  /**
   * For a pack shorter than 15 bytes, `size - 15` wraps and the test admits
   * the position just past the end, so the scan reads outside the buffer; from
   * 15 bytes on, the test is the in-bounds test the model uses.
   */
  lemma ShortPackOverreads(size: nat)
    requires size < U64
    ensures size < 15 ==> ScanGuard(size, size) && ScanGuard(0, size)
    ensures size >= 15 ==> forall offs: nat :: ScanGuard(offs, size) <==> offs + 15 <= size
  {
  }

  /**
   * The size `process_cfgd` is handed for a name record whose payload has
   * `len` bytes, `len - 12` in `size_t` arithmetic as written.
   */
  function CfgdSize(len: nat): nat
  {
    (len - 12) % U64
  }

  /** An image whose second record is a name record with an empty payload. */
  const SHORT_CFGD: seq<Byte> := HEADER_REC + EMPTY_NAME_REC
  /** A name record with no payload. */
  const EMPTY_NAME_REC: seq<Byte> := [0x4C, 0xFC, 0x00, 0, 0, 0, 0] + CFG_D

  /**
   * As written, a name record with fewer than 12 payload bytes hands
   * `process_cfgd` a size of at least 2^64 - 12, which passes both of its
   * checks whatever the length byte says.
   */
  lemma ShortCfgdSize(len: nat)
    requires len < 12
    ensures CfgdSize(len) >= U64 - 12 && CfgdSize(len) >= 11 + 255
  {
  }

  /**
   * SHORT_CFGD is a 30-byte image: a header record of 12 payload bytes, then
   * an empty name record at offset 15 whose body would start at offset 30,
   * the end of the image; offset 18 holds no known opcode.
   */
  lemma ShortCfgdShape()
    ensures |SHORT_CFGD| == 30 && Signed(SHORT_CFGD, 0, CFG_S) && RecordLen(SHORT_CFGD, 0) == 12
    ensures Signed(SHORT_CFGD, 15, CFG_D) && RecordLen(SHORT_CFGD, 15) == 0 && 15 + 15 == |SHORT_CFGD|
    ensures OpAt(SHORT_CFGD, 18) == 0
    ensures !Signed(SHORT_CFGD, 0, CFG_D) && !Signed(SHORT_CFGD, 15, CFG_S)
    ensures OpAt(SHORT_CFGD, 0) == WRITE_RAM && OpAt(SHORT_CFGD, 15) == WRITE_RAM
  {
    Halves(HEADER_REC, EMPTY_NAME_REC);
    ShortCfgdHeader(SHORT_CFGD);
    ShortCfgdRecord(SHORT_CFGD);
  }

  /** An image that starts with HEADER_REC has its header record at 0. */
  lemma ShortCfgdHeader(b: seq<Byte>)
    requires |b| == 30 && b[..15] == HEADER_REC
    ensures Signed(b, 0, CFG_S) && RecordLen(b, 0) == 12 && !Signed(b, 0, CFG_D) && OpAt(b, 0) == WRITE_RAM
  {
    RecordBytes(b, 0, [0x4C, 0xFC, 0x0C, 0, 0, 0, 0], CFG_S);
    assert b[7..15][7] == b[14] != CFG_D[7];
  }

  /** An image of 30 bytes that ends with EMPTY_NAME_REC has that record at 15, and no opcode at 18. */
  lemma ShortCfgdRecord(b: seq<Byte>)
    requires |b| == 30 && b[15..] == EMPTY_NAME_REC
    ensures Signed(b, 15, CFG_D) && RecordLen(b, 15) == 0 && !Signed(b, 15, CFG_S) && OpAt(b, 15) == WRITE_RAM
    ensures OpAt(b, 18) == 0
  {
    assert b[15..30] == EMPTY_NAME_REC;
    RecordBytes(b, 15, [0x4C, 0xFC, 0x00, 0, 0, 0, 0], CFG_D);
    assert b[22..30][7] == b[29] != CFG_S[7];
  }

  /** Where the two parts of `a + b` lie. */
  lemma Halves(a: seq<Byte>, b: seq<Byte>)
    ensures (a + b)[..|a|] == a && (a + b)[|a|..] == b
  {
  }

  /**
   * In an image of that shape the walk reaches the empty name record at 15;
   * the model skips the record and stops at offset 18 with no name.
   */
  lemma ShortCfgdWalk(img: seq<Byte>)
    requires Signed(img, 0, CFG_S) && RecordLen(img, 0) == 12
    requires Signed(img, 15, CFG_D) && RecordLen(img, 15) == 0 && 18 + 2 <= |img| && OpAt(img, 18) == 0
    ensures Walk(img, 0, []) == Walk(img, 15, [])
    ensures Walk(img, 15, []) == Scan(18, [])
  {
    assert img[0..15][14] != CFG_D[7];
    assert OpAt(img, 0) == WRITE_RAM;
    WalkNext(img, 0, [], []);
    assert img[15..30][14] != CFG_S[7];
    assert OpAt(img, 15) == WRITE_RAM;
    WalkNext(img, 15, [], []);
    WalkStops(img, 18, []);
  }

  /**
   * `process_cfgd(rec, size, name)` as written, where `size` may exceed the
   * bytes `rec` really has: the name, or None when the call reads past the
   * end of `rec`.
   */
  function CfgdRead(rec: seq<Byte>, size: nat, name: seq<Byte>): (r: Option<seq<Byte>>)
    ensures size <= |rec| ==> r == Some(ProcessCfgd(rec, size, name))
  {
    if size < 11 then Some(name)
    else if |rec| <= 10 then None
    else
      var len := rec[10];
      if len > size - 11 then Some(name)
      else if 11 + len > |rec| then None
      else Some(rec[11..11 + len])
  }

  /**
   * `process_image` from record `offs` on as written: a name record hands
   * `process_cfgd` the rest of the buffer and the size `CfgdSize(len)`, which
   * wraps for a record shorter than 12 payload bytes; None when the walk
   * reads past the end of the buffer.
   */
  function WalkAsWritten(img: seq<Byte>, offs: nat, name: seq<Byte>): (r: Option<Scan>)
    requires offs <= |img|
    decreases |img| - offs
  {
    if offs + 3 > |img| then Some(Scan(offs, name))
    else
      var op := OpAt(img, offs);
      var len := RecordLen(img, offs);
      if op != LAUNCH_RAM && op != WRITE_RAM then Some(Scan(offs, name))
      else if offs > 0 && Signed(img, offs, CFG_S) then Some(Scan(offs, name))
      else
        var step := if Signed(img, offs, CFG_D) then CfgdRead(img[offs + 15..], CfgdSize(len), name) else Some(name);
        if step.None? then None
        else if op == LAUNCH_RAM then Some(Scan(offs + len + 3, step.value))
        else WalkAsWritten(img, offs + len + 3, step.value)
  }

  /**
   * As written, every name record of at least 12 payload bytes is read as
   * the model reads it: the two walks differ only at shorter name records.
   */
  lemma {:induction false} WalkAsWrittenAgrees(img: seq<Byte>, offs: nat, name: seq<Byte>)
    requires offs <= |img|
    requires forall o | offs <= o && o + 3 <= |img| && Signed(img, o, CFG_D) :: RecordLen(img, o) >= 12
    ensures WalkAsWritten(img, offs, name) == Some(Walk(img, offs, name))
    decreases |img| - offs
  {
    if offs + 3 <= |img| {
      var len := RecordLen(img, offs);
      if Signed(img, offs, CFG_D) {
        assert CfgdSize(len) == len - 12;
      }
      if offs + len + 3 <= |img| {
        var name' := if Signed(img, offs, CFG_D) && len >= 12 then ProcessCfgd(img[offs + 15..], len - 12, name) else name;
        WalkAsWrittenAgrees(img, offs + len + 3, name');
      }
    }
  }

  /**
   * A 44-byte pack: an image header, a name record with 5 payload bytes, ten
   * zero bytes, then the length byte 3 and "abc" where the body of a longer
   * name record would hold them.
   */
  const SHORT_NAMED: seq<Byte> := HEADER_REC + SHORT_NAME_REC + NAME_TAIL

  /** An image header record with 12 payload bytes. */
  const HEADER_REC: seq<Byte> := [0x4C, 0xFC, 0x0C, 0, 0, 0, 0] + CFG_S
  /** A name record with 5 payload bytes. */
  const SHORT_NAME_REC: seq<Byte> := [0x4C, 0xFC, 0x05, 0, 0, 0, 0] + CFG_D
  /** Ten zero bytes, then the length byte 3 and "abc". */
  const NAME_TAIL: seq<Byte> := [0, 0, 0, 0, 0, 0, 0, 0, 0, 0, 0x03, 0x61, 0x62, 0x63]

  /**
   * As written, the short name record of SHORT_NAMED names the image "abc",
   * read from bytes 40 to 43, past the record's end at 23; the model skips
   * the record and leaves the name empty. Both walks end at offset 23, whose
   * bytes are no opcode.
   */
  lemma ShortCfgdNamed()
    ensures WalkAsWritten(SHORT_NAMED, 0, []) == Some(Scan(23, [0x61, 0x62, 0x63]))
    ensures Walk(SHORT_NAMED, 0, []) == Scan(23, [])
  {
    var b := SHORT_NAMED;
    ShortNamedShape();
    assert CfgdSize(5) >= 11 + 255;
    var rec := b[30..];
    assert rec[10] == 3;
    assert rec[11..14] == NAME_TAIL[11..] == [0x61, 0x62, 0x63];
    assert CfgdRead(rec, CfgdSize(5), []) == Some([0x61, 0x62, 0x63]);
    assert WalkAsWritten(b, 23, [0x61, 0x62, 0x63]) == Some(Scan(23, [0x61, 0x62, 0x63]));
    assert WalkAsWritten(b, 15, []) == WalkAsWritten(b, 23, [0x61, 0x62, 0x63]);
    assert WalkAsWritten(b, 0, []) == WalkAsWritten(b, 15, []);
    WalkNext(b, 0, [], []);
    WalkNext(b, 15, [], []);
    WalkStops(b, 23, []);
  }

  /** SHORT_NAMED is an image header, then a name record with 5 payload bytes, then no opcode at 23. */
  lemma ShortNamedShape()
    ensures |SHORT_NAMED| == 44 && Signed(SHORT_NAMED, 0, CFG_S) && RecordLen(SHORT_NAMED, 0) == 12
    ensures !Signed(SHORT_NAMED, 0, CFG_D) && OpAt(SHORT_NAMED, 0) == WRITE_RAM
    ensures Signed(SHORT_NAMED, 15, CFG_D) && !Signed(SHORT_NAMED, 15, CFG_S) && RecordLen(SHORT_NAMED, 15) == 5
    ensures OpAt(SHORT_NAMED, 15) == WRITE_RAM
    ensures OpAt(SHORT_NAMED, 23) != WRITE_RAM && OpAt(SHORT_NAMED, 23) != LAUNCH_RAM
    ensures SHORT_NAMED[30..] == NAME_TAIL
  {
    var b := SHORT_NAMED;
    Thirds(HEADER_REC, SHORT_NAME_REC, NAME_TAIL);
    RecordBytes(b, 0, [0x4C, 0xFC, 0x0C, 0, 0, 0, 0], CFG_S);
    RecordBytes(b, 15, [0x4C, 0xFC, 0x05, 0, 0, 0, 0], CFG_D);
    assert b[7..15][7] == b[14] != CFG_D[7];
    assert b[22..30][7] == b[29] != CFG_S[7];
  }

  /** Where the three parts of `a + b + c` lie. */
  lemma Thirds(a: seq<Byte>, b: seq<Byte>, c: seq<Byte>)
    ensures (a + b + c)[..|a|] == a && (a + b + c)[|a|..|a| + |b|] == b && (a + b + c)[|a| + |b|..] == c
  {
  }

  /** The bytes of a record `op + sig` placed at `offs` of `b`. */
  lemma RecordBytes(b: seq<Byte>, offs: nat, op: seq<Byte>, sig: seq<Byte>)
    requires |op| == 7 && |sig| == 8 && offs + 15 <= |b| && b[offs..offs + 15] == op + sig
    ensures b[offs] == op[0] && b[offs + 1] == op[1] && b[offs + 2] == op[2] && b[offs + 3] == op[3] && b[offs + 4] == op[4]
    ensures b[offs + 7..offs + 15] == sig && b[offs + 8] == sig[1] && b[offs + 9] == sig[2] && b[offs + 14] == sig[7]
  {
    assert b[offs + 7..offs + 15] == b[offs..offs + 15][7..15];
    assert b[offs + 3] == b[offs..offs + 15][3] && b[offs + 4] == b[offs..offs + 15][4];
    assert b[offs + 8] == b[offs..offs + 15][8];
    assert b[offs + 9] == b[offs..offs + 15][9];
    assert b[offs + 14] == b[offs..offs + 15][14];
  }

  /** As written, the walk of SHORT_CFGD reads byte 10 of a name body that lies past the end of the image. */
  lemma ShortCfgdOverreads()
    ensures WalkAsWritten(SHORT_CFGD, 0, []) == None
  {
    ShortCfgdShape();
    AsWrittenSkips(SHORT_CFGD, 0, []);
    AsWrittenOverreads(SHORT_CFGD, 15, []);
  }

  /** As written, a WRITE_RAM record that is not a name record is stepped over. */
  lemma AsWrittenSkips(img: seq<Byte>, offs: nat, name: seq<Byte>)
    requires offs + 3 <= |img| && OpAt(img, offs) == WRITE_RAM && !Signed(img, offs, CFG_D)
    requires offs == 0 || !Signed(img, offs, CFG_S)
    ensures WalkAsWritten(img, offs, name) == WalkAsWritten(img, offs + RecordLen(img, offs) + 3, name)
  {
  }

  /** As written, a short name record that ends the image makes the walk read past the end. */
  lemma AsWrittenOverreads(img: seq<Byte>, offs: nat, name: seq<Byte>)
    requires offs > 0 && offs + 15 == |img| && OpAt(img, offs) == WRITE_RAM
    requires Signed(img, offs, CFG_D) && !Signed(img, offs, CFG_S) && RecordLen(img, offs) < 12
    ensures WalkAsWritten(img, offs, name) == None
  {
    ShortCfgdSize(RecordLen(img, offs));
    assert img[offs + 15..] == [];
  }
}
