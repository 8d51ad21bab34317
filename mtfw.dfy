// The firmware-list builder of hx-touchd/mtfw/mtfw.c: `mtfw_request_cal` and
// `mtfw_load_firmware`. The list is built from the personality's entry in the
// firmware property list and, for the second generation, from a configuration
// property list embedded in it; calibration values come from the syscfg store.
//
// XML parsing is outside the model: the firmware file arrives already parsed
// (None when it cannot be opened or parsed), and the embedded configuration
// is parsed by the function `parse`, whose results are only assumed to be
// linked documents.
module Mtfw {
  import opened Wrappers
  import opened Bytes
  import opened EPlist
  import opened MtfwFrame
  import SysCfg
  import Base64

  const GEN_1: int := 1
  const GEN_2: int := 2

  /** `mtfw_providers`: provider names and the syscfg tags their values are stored under. */
  const PROVIDERS: seq<(string, string)> := [
    ("multi-touch-calibration", "MtCl"),
    ("orb-gap-cal", "OrbG"),
    ("orb-force-cal", "OFCl"),
    ("shape-dynamic-accel-cal", "SDAC"),
    ("prox-calibration", "PxCl"),
    ("multi-touch-calibration", "MtCl")]

  /** The syscfg store: the file's content (None when it cannot be opened) and the size `ftell` reports. */
  datatype Store = Store(file: Option<seq<Byte>>, fileSize: nat)

  /** A store small enough that a value's length plus 3 fits in an `unsigned`. */
  predicate Fits(store: Store)
  {
    store.file.Some? ==> |store.file.value| + 3 < U32
  }

  /** Every configuration document the parser produces is linked. */
  ghost predicate ParsesLinked(parse: seq<Byte> -> Option<seq<XNode>>)
  {
    forall b :: parse(b).Some? ==> Linked(parse(b).value)
  }

  // ---------------------------------------------------------------------------
  // Calibration providers

  /** The tag of the first table entry from `i` on whose provider is `name`. */
  function TagFrom(name: string, i: nat): (r: Option<string>)
    ensures r.None? <==> forall j | i <= j < |PROVIDERS| :: PROVIDERS[j].0 != name
    ensures r.Some? ==> exists j | i <= j < |PROVIDERS| ::
              PROVIDERS[j] == (name, r.value) && forall k | i <= k < j :: PROVIDERS[k].0 != name
    decreases |PROVIDERS| - i
  {
    if i >= |PROVIDERS| then None
    else if PROVIDERS[i].0 == name then Some(PROVIDERS[i].1)
    else TagFrom(name, i + 1)
  }

  /** The tag `mtfw_request_cal` forwards to `syscfg_get`: that of the first entry named `name`. */
  function ProviderTag(name: string): Option<string>
  {
    TagFrom(name, 0)
  }

  /** Each of the five providers of the table is found by its name, under its own tag. */
  lemma {:induction false} KnownProviders()
    ensures ProviderTag("multi-touch-calibration") == Some("MtCl")
    ensures ProviderTag("prox-calibration") == Some("PxCl")
    ensures ProviderTag("orb-gap-cal") == Some("OrbG")
    ensures ProviderTag("orb-force-cal") == Some("OFCl")
    ensures ProviderTag("shape-dynamic-accel-cal") == Some("SDAC")
  {
    assert PROVIDERS[0].0 == "multi-touch-calibration";
    assert PROVIDERS[0].0 != "prox-calibration" && PROVIDERS[1].0 != "prox-calibration";
    assert PROVIDERS[2].0 != "prox-calibration" && PROVIDERS[3].0 != "prox-calibration";
    assert PROVIDERS[4].0 == "prox-calibration";
    assert PROVIDERS[0].0 != "orb-gap-cal" && PROVIDERS[1].0 == "orb-gap-cal";
    assert PROVIDERS[0].0 != "orb-force-cal" && PROVIDERS[1].0 != "orb-force-cal" && PROVIDERS[2].0 == "orb-force-cal";
    assert PROVIDERS[0].0 != "shape-dynamic-accel-cal" && PROVIDERS[1].0 != "shape-dynamic-accel-cal";
    assert PROVIDERS[2].0 != "shape-dynamic-accel-cal" && PROVIDERS[3].0 == "shape-dynamic-accel-cal";
  }

  /** What `mtfw_request_cal` hands back: the value stored under the provider's tag, or None for NULL. */
  function Calibration(store: Store, name: string): Option<seq<Byte>>
  {
    match ProviderTag(name)
    case None => None
    case Some(tag) =>
      if store.file.None? then None
      else match SysCfg.Get(SysCfg.Read(store.file.value, store.fileSize), tag, SysCfg.Exact)
        case Value(v) => Some(v)
        case _ => None
  }

  /** A calibration value is a slice of the store, so its length is bounded by the store's. */
  lemma CalibrationFits(store: Store, name: string)
    requires Fits(store) && Calibration(store, name).Some?
    ensures |Calibration(store, name).value| + 3 < U32
  {
    var tag := ProviderTag(name).value;
    var buf := SysCfg.Read(store.file.value, store.fileSize);
    SysCfg.ExactWithinDeclared(buf, tag);
  }

  /** `mtfw_request_cal(syscfg, name, &len)`; `plen` is what is stored in `len`, None when it is left alone. */
  method RequestCal(store: Store, name: string) returns (bits: array?<Byte>, plen: Option<nat>)
    ensures bits == null <==> Calibration(store, name).None?
    ensures bits != null ==> fresh(bits) && bits[..] == Calibration(store, name).value && plen == Some(bits.Length)
  {
    var i := 0;
    while i < |PROVIDERS|
      invariant i <= |PROVIDERS|
      invariant ProviderTag(name) == TagFrom(name, i)
    {
      if PROVIDERS[i].0 == name {
        bits, plen := SysCfg.SyscfgGet(store.file, store.fileSize, PROVIDERS[i].1);
        return;
      }
      i := i + 1;
    }
    return null, None;
  }

  // ---------------------------------------------------------------------------
  // The item list, as specification

  /** Both parts, one after the other; None as soon as either failed. */
  function Join(a: Option<seq<Item>>, b: Option<seq<Item>>): (r: Option<seq<Item>>)
    ensures r.Some? <==> a.Some? && b.Some?
    ensures a == Some([]) ==> r == b
    ensures b == Some([]) ==> r == a
  {
    if a.Some? && b.Some? then
      assert [] + b.value == b.value && a.value + [] == a.value;
      Some(a.value + b.value)
    else None
  }

  /** What `eplist_get_data` decodes from node `h`, None for NULL. */
  ghost function DataOf(p: Plist, h: Handle): Option<seq<Byte>>
    requires Valid(p) && InDoc(p.nodes, h)
  {
    if TypeOf(p.nodes, h) != DATA || TextOf(p, h).None? then None
    else Base64.Decode(TextOf(p, h).value)
  }

  /** The generation-2 blob array from element `l` on: one WRITE_ACK per data element, in order. */
  ghost function Blobs(p: Plist, l: Handle): Option<seq<Item>>
    requires Valid(p) && InDoc(p.nodes, l)
    decreases Measure(p.nodes, l)
  {
    if l.None? then Some([])
    else if TypeOf(p.nodes, l) != DATA then None
    else match DataOf(p, l)
      case None => None
      case Some(d) => Join(Some([Item(WRITE_ACK, d)]), Blobs(p, Next(p.nodes, l)))
  }

  /** The calibration load one Calibration Sequence entry asks for. */
  function CalStep(p: Plist, l: Handle, store: Store): Option<seq<Item>>
    requires Valid(p) && InDoc(p.nodes, l)
  {
    if TypeOf(p.nodes, l) != DICT then None
    else
      var fa := DictFind(p.nodes, l, "Address", INTEGER);
      if fa.None? then None
      else match GetString(p, DictFind(p.nodes, l, "Provider", STRING))
        case None => None
        case Some(name) =>
          match Calibration(store, name)
          case None => None
          case Some(bits) => Some([Item(WRITE_ACK, CalLoadFrame(Trunc32(GetInteger(p, fa)), bits))])
  }

  /** The Calibration Sequence array from element `l` on. */
  function CalItems(p: Plist, l: Handle, store: Store): Option<seq<Item>>
    requires Valid(p) && InDoc(p.nodes, l)
    decreases Measure(p.nodes, l)
  {
    if l.None? then Some([]) else Join(CalStep(p, l, store), CalItems(p, Next(p.nodes, l), store))
  }

  /** The frame of a "RequestCalibration" action. */
  const REQUEST_CAL: seq<Byte> := [0x1F, 0x01]

  /**
   * One Boot Sequence entry: a "RequestCalibration" action, or a register
   * write whose missing mask or value reads as -1, all ones.
   */
  function BootStep(p: Plist, l: Handle): Option<seq<Item>>
    requires Valid(p) && InDoc(p.nodes, l)
  {
    if TypeOf(p.nodes, l) != DICT then None
    else match GetString(p, DictFind(p.nodes, l, "Action", STRING))
      case Some(act) => if act == "RequestCalibration" then Some([Item(WRITE_ACK, REQUEST_CAL)]) else None
      case None =>
        var fa := DictFind(p.nodes, l, "Address", INTEGER);
        if fa.None? then None
        else
          var mask := GetInteger(p, DictFind(p.nodes, l, "Mask", INTEGER));
          var val := GetInteger(p, DictFind(p.nodes, l, "Value", INTEGER));
          Some([Item(WRITE_ACK, RegWrFrame(Trunc32(GetInteger(p, fa)), Trunc32(mask), Trunc32(val)))])
  }

  /** The Boot Sequence array from element `l` on. */
  function BootItems(p: Plist, l: Handle): Option<seq<Item>>
    requires Valid(p) && InDoc(p.nodes, l)
    decreases Measure(p.nodes, l)
  {
    if l.None? then Some([]) else Join(BootStep(p, l), BootItems(p, Next(p.nodes, l)))
  }

  /** The last item of the second generation. */
  const WAIT: Item := Item(WAIT_IRQ, [])

  /** The Boot Sequence of the configuration plist `c`, then WAIT_IRQ. */
  function BootTail(c: Plist, root: Handle): Option<seq<Item>>
    requires Valid(c) && InDoc(c.nodes, root)
  {
    var boot := DictFind(c.nodes, root, "Boot Sequence", ARRAY);
    if boot.None? then None else Join(BootItems(c, ArrayFirst(c.nodes, boot)), Some([WAIT]))
  }

  /** The items the configuration plist `c` yields: its calibration loads, its boot sequence, then WAIT_IRQ. */
  function ConfigItems(c: Plist, store: Store): Option<seq<Item>>
    requires Valid(c)
  {
    var root := Root(c.nodes);
    var cal := DictFind(c.nodes, root, "Calibration Sequence", ARRAY);
    if cal.None? then None else Join(CalItems(c, ArrayFirst(c.nodes, cal), store), BootTail(c, root))
  }

  /** The handshake the second generation starts with. */
  const HANDSHAKE_2: seq<Byte> := [0x1A, 0xA1, 0x18, 0xE1]

  /** The part of the second generation that the embedded "Firmware Config" plist of `fw` yields. */
  ghost function ConfigTail(p: Plist, fw: Handle, store: Store, parse: seq<Byte> -> Option<seq<XNode>>): Option<seq<Item>>
    requires Valid(p) && InDoc(p.nodes, fw) && ParsesLinked(parse)
  {
    var cfg := DataOf(p, DictFind(p.nodes, fw, "Firmware Config", DATA));
    if cfg.None? || parse(cfg.value).None? then None
    else ConfigItems(Loaded(parse(cfg.value).value), store)
  }

  /** The second generation from the personality `fw` whose "Constructed Firmware" is the array `arr`. */
  ghost function Gen2(p: Plist, fw: Handle, arr: Handle, store: Store, parse: seq<Byte> -> Option<seq<XNode>>): Option<seq<Item>>
    requires Valid(p) && InDoc(p.nodes, fw) && InDoc(p.nodes, arr) && ParsesLinked(parse)
  {
    Join(Some([Item(WRITE, HANDSHAKE_2)]), Join(Blobs(p, ArrayFirst(p.nodes, arr)), ConfigTail(p, fw, store, parse)))
  }

  /** The first generation's fixed opening: a 2-byte write and three 16-byte writes. */
  const GEN1_OPEN: seq<Byte> := [0x19, 0xC1]
  const GEN1_INIT: seq<Byte> := [0x1A, 0xA1, 0x18, 0xE1, 0x18, 0xE1, 0x18, 0xE1, 0x18, 0xE1, 0x18, 0xE1, 0x18, 0xE1, 0x18, 0xE1]
  const GEN1_HEAD: seq<Item> := [Item(WRITE, GEN1_OPEN), Item(WRITE, GEN1_INIT), Item(WRITE, GEN1_INIT), Item(WRITE, GEN1_INIT)]

  /** The first generation's closing register writes, calibration request and final write. */
  const GEN1_CLOSE: seq<Byte> := [0x1D, 0x53, 0x34, 0x00, 0x10, 0x00, 0x00, 0x01, 0x00, 0x00, 0x00, 0x45]
  const GEN1_TAIL: seq<Item> := [
    Item(WRITE_ACK, RegWrFrame(0x10003060, 0xFFFF_FFFF, 6099)),
    Item(WRITE_ACK, RegWrFrame(0x1000305c, 0xFFFF_FFFF, 2)),
    Item(WRITE_ACK, RegWrFrame(0x10003058, 0xFFFF_FFFF, 6)),
    Item(WRITE_ACK, RegWrFrame(0x10003000, 0xFFFF_FFFF, 3)),
    Item(WRITE_ACK, RegWrFrame(0x10003518, 0xFFFF_FFFF, 1)),
    Item(WRITE_ACK, REQUEST_CAL),
    Item(WRITE, GEN1_CLOSE)]

  const PROX_ADDR: int := 0x10009600
  const MT_ADDR: int := 0x10009000

  /** The optional proximity calibration load of the first generation. */
  function ProxItems(store: Store): seq<Item>
  {
    match Calibration(store, "prox-calibration")
    case None => []
    case Some(bits) => [Item(WRITE_ACK, CalLoadFrame(PROX_ADDR, bits))]
  }

  /** The mandatory multi-touch calibration load of the first generation. */
  function MtItems(store: Store): Option<seq<Item>>
  {
    match Calibration(store, "multi-touch-calibration")
    case None => None
    case Some(bits) => Some([Item(WRITE_ACK, CalLoadFrame(MT_ADDR, bits))])
  }

  /** The decoded blob as a WRITE_ACK, then the closing items. */
  ghost function BlobTail(p: Plist, blob: Handle): Option<seq<Item>>
    requires Valid(p) && InDoc(p.nodes, blob)
  {
    var data := DataOf(p, blob);
    if data.None? then None else Some([Item(WRITE_ACK, data.value)] + GEN1_TAIL)
  }

  /** The first generation, whose "Constructed Firmware" is the data element `blob`. */
  ghost function Gen1(p: Plist, blob: Handle, store: Store): Option<seq<Item>>
    requires Valid(p) && InDoc(p.nodes, blob)
  {
    Join(Some(GEN1_HEAD + ProxItems(store)), Join(MtItems(store), BlobTail(p, blob)))
  }

  /**
   * The list for the personality `fw`: an array "Constructed Firmware"
   * selects the second generation, a data one the first, and SET_TYPE with
   * the generation comes first.
   */
  ghost function Build(p: Plist, fw: Handle, store: Store, parse: seq<Byte> -> Option<seq<XNode>>): Option<seq<Item>>
    requires Valid(p) && InDoc(p.nodes, fw) && ParsesLinked(parse)
  {
    var arr := DictFind(p.nodes, fw, "Constructed Firmware", ARRAY);
    var blob := DictFind(p.nodes, fw, "Constructed Firmware", DATA);
    if arr.Some? then Join(Some([Item(SET_TYPE, Le32(GEN_2))]), Gen2(p, fw, arr, store, parse))
    else if blob.Some? then Join(Some([Item(SET_TYPE, Le32(GEN_1))]), Gen1(p, blob, store))
    else None
  }

  /**
   * `mtfw_load_firmware(pers, fname, syscfg)`: the list, or None for NULL.
   * `fwDoc` is the parsed firmware file.
   */
  ghost function Firmware(pers: string, fwDoc: Option<seq<XNode>>, store: Store, parse: seq<Byte> -> Option<seq<XNode>>): Option<seq<Item>>
    requires fwDoc.Some? ==> Linked(fwDoc.value)
    requires ParsesLinked(parse)
  {
    if fwDoc.None? then None
    else
      var p := Loaded(fwDoc.value);
      var fw := DictFind(p.nodes, Root(p.nodes), pers, DICT);
      if fw.None? then None else Build(p, fw, store, parse)
  }

  // ---------------------------------------------------------------------------
  // Properties of the list

  /** The elements a sibling walk with `eplist_next` visits from `l` on. */
  function Chain(doc: seq<XNode>, l: Handle): (c: seq<nat>)
    requires Linked(doc) && InDoc(doc, l)
    ensures forall k | 0 <= k < |c| :: c[k] < |doc|
    decreases Measure(doc, l)
  {
    if l.None? then [] else [l.value] + Chain(doc, Next(doc, l))
  }

  /** Every element of `c` is a data node that decodes. */
  ghost predicate AllDecode(p: Plist, c: seq<nat>)
    requires Valid(p) && forall k | 0 <= k < |c| :: c[k] < |p.nodes|
  {
    forall k | 0 <= k < |c| :: DataOf(p, Some(c[k])).Some?
  }

  lemma AllDecodeCons(p: Plist, h: nat, c: seq<nat>)
    requires Valid(p) && h < |p.nodes| && forall k | 0 <= k < |c| :: c[k] < |p.nodes|
    ensures AllDecode(p, [h] + c) <==> DataOf(p, Some(h)).Some? && AllDecode(p, c)
  {
    var hc := [h] + c;
    assert forall k | 0 <= k < |c| :: c[k] == hc[k + 1];
    assert hc[0] == h;
  }

  /**
   * The blob array fails exactly when some visited element is not data or
   * does not decode.
   */
  lemma {:induction false} BlobsDefined(p: Plist, l: Handle)
    requires Valid(p) && InDoc(p.nodes, l)
    ensures Blobs(p, l).Some? <==> AllDecode(p, Chain(p.nodes, l))
    decreases Measure(p.nodes, l)
  {
    if l.Some? {
      var next := Next(p.nodes, l);
      BlobsDefined(p, next);
      assert Chain(p.nodes, l) == [l.value] + Chain(p.nodes, next);
      AllDecodeCons(p, l.value, Chain(p.nodes, next));
    }
  }

  /** Item `k` of `v` is the WRITE_ACK of what element `k` of `c` decodes to. */
  ghost predicate DecodedAt(p: Plist, c: seq<nat>, v: seq<Item>)
    requires Valid(p) && forall k | 0 <= k < |c| :: c[k] < |p.nodes|
  {
    |v| == |c| &&
    forall k | 0 <= k < |c| :: v[k].kind == WRITE_ACK && DataOf(p, Some(c[k])) == Some(v[k].data)
  }

  lemma DecodedAtCons(p: Plist, h: nat, c: seq<nat>, d: seq<Byte>, v: seq<Item>)
    requires Valid(p) && h < |p.nodes| && forall k | 0 <= k < |c| :: c[k] < |p.nodes|
    requires DataOf(p, Some(h)) == Some(d) && DecodedAt(p, c, v)
    ensures DecodedAt(p, [h] + c, [Item(WRITE_ACK, d)] + v)
  {
    var hc := [h] + c;
    var dv := [Item(WRITE_ACK, d)] + v;
    forall k | 0 <= k < |hc| ensures dv[k].kind == WRITE_ACK && DataOf(p, Some(hc[k])) == Some(dv[k].data) {
      if k > 0 { assert hc[k] == c[k - 1] && dv[k] == v[k - 1]; }
    }
  }

  /**
   * A successful blob array yields one WRITE_ACK per visited element,
   * carrying its decoded bytes, in order.
   */
  lemma {:induction false} BlobsPerElement(p: Plist, l: Handle)
    requires Valid(p) && InDoc(p.nodes, l) && Blobs(p, l).Some?
    ensures DecodedAt(p, Chain(p.nodes, l), Blobs(p, l).value)
    decreases Measure(p.nodes, l)
  {
    if l.Some? {
      var next := Next(p.nodes, l);
      BlobsPerElement(p, next);
      assert Chain(p.nodes, l) == [l.value] + Chain(p.nodes, next);
      assert Blobs(p, l).value == [Item(WRITE_ACK, DataOf(p, l).value)] + Blobs(p, next).value;
      DecodedAtCons(p, l.value, Chain(p.nodes, next), DataOf(p, l).value, Blobs(p, next).value);
    }
  }

  /** Every item is a WRITE_ACK. */
  predicate AllAck(items: seq<Item>)
  {
    forall k | 0 <= k < |items| :: items[k].kind == WRITE_ACK
  }

  lemma JoinAck(a: Option<seq<Item>>, b: Option<seq<Item>>)
    requires Join(a, b).Some? && AllAck(a.value) && AllAck(b.value)
    ensures AllAck(Join(a, b).value)
  {
    var v := Join(a, b).value;
    forall k | 0 <= k < |v| ensures v[k].kind == WRITE_ACK {
      if k >= |a.value| {
        assert v[k] == b.value[k - |a.value|];
      }
    }
  }

  lemma {:induction false} BlobsAck(p: Plist, l: Handle)
    requires Valid(p) && InDoc(p.nodes, l) && Blobs(p, l).Some?
    ensures AllAck(Blobs(p, l).value)
    decreases Measure(p.nodes, l)
  {
    if l.Some? {
      BlobsAck(p, Next(p.nodes, l));
      JoinAck(Some([Item(WRITE_ACK, DataOf(p, l).value)]), Blobs(p, Next(p.nodes, l)));
    }
  }

  lemma {:induction false} CalItemsAck(p: Plist, l: Handle, store: Store)
    requires Valid(p) && InDoc(p.nodes, l) && CalItems(p, l, store).Some?
    ensures AllAck(CalItems(p, l, store).value)
    decreases Measure(p.nodes, l)
  {
    if l.Some? {
      CalItemsAck(p, Next(p.nodes, l), store);
      JoinAck(CalStep(p, l, store), CalItems(p, Next(p.nodes, l), store));
    }
  }

  lemma {:induction false} BootItemsAck(p: Plist, l: Handle)
    requires Valid(p) && InDoc(p.nodes, l) && BootItems(p, l).Some?
    ensures AllAck(BootItems(p, l).value)
    decreases Measure(p.nodes, l)
  {
    if l.Some? {
      BootItemsAck(p, Next(p.nodes, l));
      JoinAck(BootStep(p, l), BootItems(p, Next(p.nodes, l)));
    }
  }

  /** `v` is acknowledged writes followed by a single WAIT_IRQ. */
  predicate Tailed(v: seq<Item>)
  {
    |v| >= 1 && v[|v| - 1] == WAIT && AllAck(v[..|v| - 1])
  }

  /** The configuration's items are WRITE_ACKs followed by a single WAIT_IRQ. */
  lemma ConfigShape(c: Plist, store: Store)
    requires Valid(c) && ConfigItems(c, store).Some?
    ensures Tailed(ConfigItems(c, store).value)
  {
    var root := Root(c.nodes);
    var cal := DictFind(c.nodes, root, "Calibration Sequence", ARRAY);
    var boot := DictFind(c.nodes, root, "Boot Sequence", ARRAY);
    var cals := CalItems(c, ArrayFirst(c.nodes, cal), store);
    var boots := BootItems(c, ArrayFirst(c.nodes, boot));
    CalItemsAck(c, ArrayFirst(c.nodes, cal), store);
    BootItemsAck(c, ArrayFirst(c.nodes, boot));
    assert ConfigItems(c, store).value == cals.value + (boots.value + [WAIT]);
    AckThenWait(ConfigItems(c, store).value, cals.value, boots.value);
  }

  lemma AckThenWait(v: seq<Item>, a: seq<Item>, b: seq<Item>)
    requires AllAck(a) && AllAck(b) && v == a + (b + [WAIT])
    ensures Tailed(v)
  {
    assert v[..|v| - 1] == a + b;
    JoinAck(Some(a), Some(b));
  }

  /**
   * The second generation starts with the handshake, ends with WAIT_IRQ, and
   * everything between (blobs, calibration loads, boot steps) is a WRITE_ACK.
   */
  lemma Gen2Shape(p: Plist, fw: Handle, arr: Handle, store: Store, parse: seq<Byte> -> Option<seq<XNode>>)
    requires Valid(p) && InDoc(p.nodes, fw) && InDoc(p.nodes, arr) && ParsesLinked(parse)
    requires Gen2(p, fw, arr, store, parse).Some?
    ensures Framing(Gen2(p, fw, arr, store, parse).value, Item(WRITE, HANDSHAKE_2))
  {
    var blobs := Blobs(p, ArrayFirst(p.nodes, arr));
    var conf := ConfigTail(p, fw, store, parse);
    BlobsAck(p, ArrayFirst(p.nodes, arr));
    ConfigTailShape(p, fw, store, parse);
    JoinFramed(Item(WRITE, HANDSHAKE_2), blobs, conf);
  }

  /** Framing a successful join of acknowledged writes and a WAIT_IRQ-terminated tail. */
  lemma JoinFramed(first: Item, a: Option<seq<Item>>, c: Option<seq<Item>>)
    requires a.Some? ==> AllAck(a.value)
    requires c.Some? ==> Tailed(c.value)
    requires Join(Some([first]), Join(a, c)).Some?
    ensures Framing(Join(Some([first]), Join(a, c)).value, first)
  {
    Framed(Join(Some([first]), Join(a, c)).value, first, a.value, c.value);
  }

  lemma ConfigTailShape(p: Plist, fw: Handle, store: Store, parse: seq<Byte> -> Option<seq<XNode>>)
    requires Valid(p) && InDoc(p.nodes, fw) && ParsesLinked(parse)
    requires ConfigTail(p, fw, store, parse).Some?
    ensures Tailed(ConfigTail(p, fw, store, parse).value)
  {
    var cfg := DataOf(p, DictFind(p.nodes, fw, "Firmware Config", DATA));
    var c := Loaded(parse(cfg.value).value);
    assert ConfigTail(p, fw, store, parse) == ConfigItems(c, store);
    ConfigShape(c, store);
  }

  /** `v` is `first`, then acknowledged writes, then a final WAIT_IRQ. */
  predicate Framing(v: seq<Item>, first: Item)
  {
    |v| >= 2 && v[0] == first && v[|v| - 1] == WAIT && AllAck(v[1..|v| - 1])
  }

  /** A first item, then acknowledged writes, then more of them ending in WAIT_IRQ. */
  lemma Framed(v: seq<Item>, first: Item, a: seq<Item>, c: seq<Item>)
    requires AllAck(a) && Tailed(c)
    requires v == [first] + (a + c)
    ensures Framing(v, first)
  {
    assert v[1..|v| - 1] == a + c[..|c| - 1];
    JoinAck(Some(a), Some(c[..|c| - 1]));
  }

  /**
   * The first generation is the fixed opening, the optional PxCl load, the
   * mandatory MtCl load, the blob and the fixed closing; it fails exactly
   * when MtCl is missing or the blob does not decode.
   */
  lemma Gen1Shape(p: Plist, blob: Handle, store: Store)
    requires Valid(p) && InDoc(p.nodes, blob)
    ensures Gen1(p, blob, store).Some? <==>
            Calibration(store, "multi-touch-calibration").Some? && DataOf(p, blob).Some?
    ensures Gen1(p, blob, store).Some? ==>
            var v := Gen1(p, blob, store).value;
            var prox := Calibration(store, "prox-calibration");
            var n := if prox.Some? then 5 else 4;
            |v| == n + 9 && v[..4] == GEN1_HEAD &&
            (prox.Some? ==> v[4] == Item(WRITE_ACK, CalLoadFrame(PROX_ADDR, prox.value))) &&
            v[n] == Item(WRITE_ACK, CalLoadFrame(MT_ADDR, Calibration(store, "multi-touch-calibration").value)) &&
            v[n + 1] == Item(WRITE_ACK, DataOf(p, blob).value) &&
            v[n + 2..] == GEN1_TAIL
  {
    if Gen1(p, blob, store).Some? {
      var head := GEN1_HEAD + ProxItems(store);
      assert Gen1(p, blob, store).value == head + (MtItems(store).value + BlobTail(p, blob).value);
      Gen1Layout(head, MtItems(store).value, DataOf(p, blob).value);
    }
  }

  lemma Gen1Layout(head: seq<Item>, mt: seq<Item>, data: seq<Byte>)
    requires |head| >= 4 && |mt| == 1
    ensures var v := head + (mt + ([Item(WRITE_ACK, data)] + GEN1_TAIL));
      |v| == |head| + 9 && v[..4] == head[..4] && v[..|head|] == head &&
      v[|head|] == mt[0] && v[|head| + 1] == Item(WRITE_ACK, data) && v[|head| + 2..] == GEN1_TAIL
  {
  }

  /**
   * An array "Constructed Firmware" selects the second generation and a data
   * one the first; with neither the load fails. The first item is SET_TYPE
   * with the generation.
   */
  lemma Selection(p: Plist, fw: Handle, store: Store, parse: seq<Byte> -> Option<seq<XNode>>)
    requires Valid(p) && InDoc(p.nodes, fw) && ParsesLinked(parse)
    ensures var arr := DictFind(p.nodes, fw, "Constructed Firmware", ARRAY);
            var blob := DictFind(p.nodes, fw, "Constructed Firmware", DATA);
            arr.None? && blob.None? ==> Build(p, fw, store, parse).None?
    ensures var arr := DictFind(p.nodes, fw, "Constructed Firmware", ARRAY);
            var b := Build(p, fw, store, parse);
            b.Some? ==> |b.value| >= 1 && b.value[0] == Item(SET_TYPE, Le32(if arr.Some? then GEN_2 else GEN_1))
    ensures var arr := DictFind(p.nodes, fw, "Constructed Firmware", ARRAY);
            var blob := DictFind(p.nodes, fw, "Constructed Firmware", DATA);
            Build(p, fw, store, parse) ==
              if arr.Some? then Join(Some([Item(SET_TYPE, Le32(GEN_2))]), Gen2(p, fw, arr, store, parse))
              else if blob.Some? then Join(Some([Item(SET_TYPE, Le32(GEN_1))]), Gen1(p, blob, store))
              else None
  {
  }

  /**
   * One Boot Sequence entry with an action: "RequestCalibration" gives 1F 01
   * and any other action fails; without an action an address is needed.
   */
  lemma BootStepActions(p: Plist, l: Handle)
    requires Valid(p) && InDoc(p.nodes, l) && TypeOf(p.nodes, l) == DICT
    ensures var act := GetString(p, DictFind(p.nodes, l, "Action", STRING));
      act.Some? ==> BootStep(p, l) == (if act.value == "RequestCalibration" then Some([Item(WRITE_ACK, REQUEST_CAL)]) else None)
    ensures var act := GetString(p, DictFind(p.nodes, l, "Action", STRING));
      act.None? && DictFind(p.nodes, l, "Address", INTEGER).None? ==> BootStep(p, l).None?
  {
  }

  /** A register-write entry without a Mask or Value writes all ones in their place. */
  lemma MissingMaskAllOnes(p: Plist, l: Handle)
    requires Valid(p) && InDoc(p.nodes, l) && TypeOf(p.nodes, l) == DICT
    requires GetString(p, DictFind(p.nodes, l, "Action", STRING)).None?
    requires DictFind(p.nodes, l, "Address", INTEGER).Some?
    requires DictFind(p.nodes, l, "Mask", INTEGER).None? && DictFind(p.nodes, l, "Value", INTEGER).None?
    ensures var fa := DictFind(p.nodes, l, "Address", INTEGER);
      BootStep(p, l) == Some([Item(WRITE_ACK, RegWrFrame(Trunc32(GetInteger(p, fa)), 0xFFFF_FFFF, 0xFFFF_FFFF))])
  {
    var mask := GetInteger(p, DictFind(p.nodes, l, "Mask", INTEGER));
    var val := GetInteger(p, DictFind(p.nodes, l, "Value", INTEGER));
    assert mask == -1 && val == -1;
    assert Trunc32(-1) == 0xFFFF_FFFF;
  }

  // ---------------------------------------------------------------------------
  // The item list, built

  lemma JoinStep(acc: seq<Item>, step: Option<seq<Item>>, rest: Option<seq<Item>>)
    ensures Join(Some(acc), Join(step, rest)) ==
            (if step.None? then None else Join(Some(acc + step.value), rest))
  {
    if step.Some? && rest.Some? {
      assert acc + (step.value + rest.value) == (acc + step.value) + rest.value;
    }
  }

  /** The loop over the blob array: one WRITE_ACK per data element, failing at the first element that is not data or does not decode. */
  method AddBlobs(list: ItemList, p: Plist, first: Handle) returns (ok: bool)
    requires Valid(p) && InDoc(p.nodes, first)
    modifies list
    ensures ok <==> Blobs(p, first).Some?
    ensures ok ==> list.items == old(list.items) + Blobs(p, first).value
  {
    var l := first;
    ghost var acc: seq<Item> := [];
    while l.Some?
      invariant InDoc(p.nodes, l)
      invariant list.items == old(list.items) + acc
      invariant Blobs(p, first) == Join(Some(acc), Blobs(p, l))
      decreases Measure(p.nodes, l)
    {
      if TypeOf(p.nodes, l) != DATA {
        return false;
      }
      var bits, len := GetData(p, l);
      if bits == null {
        return false;
      }
      JoinStep(acc, Some([Item(WRITE_ACK, bits[..len])]), Blobs(p, Next(p.nodes, l)));
      list.Add(WRITE_ACK, bits[..len]);
      acc := acc + [Item(WRITE_ACK, bits[..len])];
      l := Next(p.nodes, l);
    }
    return true;
  }

  /** One Calibration Sequence entry: the address and provider, then the calibration load. */
  method AddCalStep(list: ItemList, p: Plist, l: Handle, store: Store) returns (ok: bool)
    requires Valid(p) && InDoc(p.nodes, l) && Fits(store)
    modifies list
    ensures ok <==> CalStep(p, l, store).Some?
    ensures ok ==> list.items == old(list.items) + CalStep(p, l, store).value
  {
    if TypeOf(p.nodes, l) != DICT {
      return false;
    }
    var fa := DictFind(p.nodes, l, "Address", INTEGER);
    if fa.None? {
      return false;
    }
    var addr := GetInteger(p, fa);
    var acts := GetString(p, DictFind(p.nodes, l, "Provider", STRING));
    if acts.None? {
      return false;
    }
    var bits, len := RequestCal(store, acts.value);
    if bits == null {
      return false;
    }
    CalibrationFits(store, acts.value);
    AddCalLoad(list, Trunc32(addr), bits[..]);
    return true;
  }

  /** The loop over the Calibration Sequence array. */
  method AddCals(list: ItemList, p: Plist, first: Handle, store: Store) returns (ok: bool)
    requires Valid(p) && InDoc(p.nodes, first) && Fits(store)
    modifies list
    ensures ok <==> CalItems(p, first, store).Some?
    ensures ok ==> list.items == old(list.items) + CalItems(p, first, store).value
  {
    var l := first;
    ghost var acc: seq<Item> := [];
    while l.Some?
      invariant InDoc(p.nodes, l)
      invariant list.items == old(list.items) + acc
      invariant CalItems(p, first, store) == Join(Some(acc), CalItems(p, l, store))
      decreases Measure(p.nodes, l)
    {
      JoinStep(acc, CalStep(p, l, store), CalItems(p, Next(p.nodes, l), store));
      ok := AddCalStep(list, p, l, store);
      if !ok {
        return false;
      }
      acc := acc + CalStep(p, l, store).value;
      l := Next(p.nodes, l);
    }
    return true;
  }

  /** One Boot Sequence entry: an action, or a register write. */
  method AddBootStep(list: ItemList, p: Plist, l: Handle) returns (ok: bool)
    requires Valid(p) && InDoc(p.nodes, l)
    modifies list
    ensures ok <==> BootStep(p, l).Some?
    ensures ok ==> list.items == old(list.items) + BootStep(p, l).value
  {
    if TypeOf(p.nodes, l) != DICT {
      return false;
    }
    var acts := GetString(p, DictFind(p.nodes, l, "Action", STRING));
    if acts.Some? {
      if acts.value == "RequestCalibration" {
        list.Add(WRITE_ACK, REQUEST_CAL);
        return true;
      }
      return false;
    }
    var fa := DictFind(p.nodes, l, "Address", INTEGER);
    if fa.None? {
      return false;
    }
    var addr := GetInteger(p, fa);
    var mask := GetInteger(p, DictFind(p.nodes, l, "Mask", INTEGER));
    var val := GetInteger(p, DictFind(p.nodes, l, "Value", INTEGER));
    AddRegWr(list, Trunc32(addr), Trunc32(mask), Trunc32(val));
    return true;
  }

  /** The loop over the Boot Sequence array. */
  method AddBoots(list: ItemList, p: Plist, first: Handle) returns (ok: bool)
    requires Valid(p) && InDoc(p.nodes, first)
    modifies list
    ensures ok <==> BootItems(p, first).Some?
    ensures ok ==> list.items == old(list.items) + BootItems(p, first).value
  {
    var l := first;
    ghost var acc: seq<Item> := [];
    while l.Some?
      invariant InDoc(p.nodes, l)
      invariant list.items == old(list.items) + acc
      invariant BootItems(p, first) == Join(Some(acc), BootItems(p, l))
      decreases Measure(p.nodes, l)
    {
      JoinStep(acc, BootStep(p, l), BootItems(p, Next(p.nodes, l)));
      ok := AddBootStep(list, p, l);
      if !ok {
        return false;
      }
      acc := acc + BootStep(p, l).value;
      l := Next(p.nodes, l);
    }
    return true;
  }

  /** `list` grows by `a` and then by `b`: by their join. */
  lemma Grown(start: seq<Item>, mid: seq<Item>, end: seq<Item>, a: Option<seq<Item>>, b: Option<seq<Item>>)
    requires a.Some? && b.Some? && mid == start + a.value && end == mid + b.value
    ensures Join(a, b).Some? && end == start + Join(a, b).value
  {
  }

  /** The configuration plist's part of the second generation, once it is loaded. */
  method AddConfig(list: ItemList, c: Plist, store: Store) returns (ok: bool)
    requires Valid(c) && Fits(store)
    modifies list
    ensures ok <==> ConfigItems(c, store).Some?
    ensures ok ==> list.items == old(list.items) + ConfigItems(c, store).value
  {
    var root := Root(c.nodes);
    var cal := DictFind(c.nodes, root, "Calibration Sequence", ARRAY);
    if cal.None? {
      return false;
    }
    ghost var start := list.items;
    ok := AddCals(list, c, ArrayFirst(c.nodes, cal), store);
    if !ok {
      return false;
    }
    ghost var mid := list.items;
    ok := AddBootTail(list, c, root);
    if ok {
      Grown(start, mid, list.items, CalItems(c, ArrayFirst(c.nodes, cal), store), BootTail(c, root));
    }
  }

  /** The Boot Sequence and the final WAIT_IRQ. */
  method AddBootTail(list: ItemList, c: Plist, root: Handle) returns (ok: bool)
    requires Valid(c) && InDoc(c.nodes, root)
    modifies list
    ensures ok <==> BootTail(c, root).Some?
    ensures ok ==> list.items == old(list.items) + BootTail(c, root).value
  {
    var boot := DictFind(c.nodes, root, "Boot Sequence", ARRAY);
    if boot.None? {
      return false;
    }
    ok := AddBoots(list, c, ArrayFirst(c.nodes, boot));
    if ok {
      ghost var mid := list.items;
      list.Add(WAIT_IRQ, []);
      Grown(old(list.items), mid, list.items, BootItems(c, ArrayFirst(c.nodes, boot)), Some([WAIT]));
    }
  }

  /** The embedded configuration: decoded, loaded as a plist, then its items. */
  method AddConfigTail(list: ItemList, p: Plist, fw: Handle, store: Store, parse: seq<Byte> -> Option<seq<XNode>>) returns (ok: bool)
    requires Valid(p) && InDoc(p.nodes, fw) && ParsesLinked(parse) && Fits(store)
    modifies list
    ensures ok <==> ConfigTail(p, fw, store, parse).Some?
    ensures ok ==> list.items == old(list.items) + ConfigTail(p, fw, store, parse).value
  {
    var cfgH := DictFind(p.nodes, fw, "Firmware Config", DATA);
    if cfgH.None? {
      return false;
    }
    var bits, len := GetData(p, cfgH);
    if bits == null {
      return false;
    }
    var c := Load(LOAD_STRING, parse(bits[..len]));
    if c.None? {
      return false;
    }
    ok := AddConfig(list, c.value, store);
  }

  /** The second generation: handshake, blobs, then the configuration plist's items. */
  method AddGen2(list: ItemList, p: Plist, fw: Handle, arr: Handle, store: Store, parse: seq<Byte> -> Option<seq<XNode>>) returns (ok: bool)
    requires Valid(p) && InDoc(p.nodes, fw) && InDoc(p.nodes, arr) && ParsesLinked(parse) && Fits(store)
    modifies list
    ensures ok <==> Gen2(p, fw, arr, store, parse).Some?
    ensures ok ==> list.items == old(list.items) + Gen2(p, fw, arr, store, parse).value
  {
    list.Add(WRITE, HANDSHAKE_2);
    ghost var start := list.items;
    ok := AddBlobs(list, p, ArrayFirst(p.nodes, arr));
    if !ok {
      return false;
    }
    ghost var mid := list.items;
    ok := AddConfigTail(list, p, fw, store, parse);
    if ok {
      Grown(start, mid, list.items, Blobs(p, ArrayFirst(p.nodes, arr)), ConfigTail(p, fw, store, parse));
      Grown(old(list.items), start, list.items, Some([Item(WRITE, HANDSHAKE_2)]),
            Join(Blobs(p, ArrayFirst(p.nodes, arr)), ConfigTail(p, fw, store, parse)));
    }
  }

  /** The first generation's items, in the order `mtfw_load_firmware` adds them. */
  method AddGen1(list: ItemList, p: Plist, blob: Handle, store: Store) returns (ok: bool)
    requires Valid(p) && InDoc(p.nodes, blob) && Fits(store)
    modifies list
    ensures ok <==> Gen1(p, blob, store).Some?
    ensures ok ==> list.items == old(list.items) + Gen1(p, blob, store).value
  {
    AddGen1Head(list, store);
    ghost var mid := list.items;
    ok := AddMtCal(list, store);
    if !ok {
      return false;
    }
    ghost var mid2 := list.items;
    ok := AddBlobTail(list, p, blob);
    if ok {
      Grown(mid, mid2, list.items, MtItems(store), BlobTail(p, blob));
      Grown(old(list.items), mid, list.items, Some(GEN1_HEAD + ProxItems(store)), Join(MtItems(store), BlobTail(p, blob)));
    }
  }

  /** The fixed opening writes and the optional proximity calibration load. */
  method AddGen1Head(list: ItemList, store: Store)
    requires Fits(store)
    modifies list
    ensures list.items == old(list.items) + (GEN1_HEAD + ProxItems(store))
  {
    list.Add(WRITE, GEN1_OPEN);
    list.Add(WRITE, GEN1_INIT);
    list.Add(WRITE, GEN1_INIT);
    list.Add(WRITE, GEN1_INIT);
    ghost var mid := list.items;
    assert mid == old(list.items) + GEN1_HEAD;
    var bits, len := RequestCal(store, "prox-calibration");
    if bits != null {
      CalibrationFits(store, "prox-calibration");
      AddCalLoad(list, PROX_ADDR, bits[..]);
    }
  }

  /** The mandatory multi-touch calibration load. */
  method AddMtCal(list: ItemList, store: Store) returns (ok: bool)
    requires Fits(store)
    modifies list
    ensures ok <==> MtItems(store).Some?
    ensures ok ==> list.items == old(list.items) + MtItems(store).value
  {
    var bits, len := RequestCal(store, "multi-touch-calibration");
    if bits == null {
      return false;
    }
    CalibrationFits(store, "multi-touch-calibration");
    AddCalLoad(list, MT_ADDR, bits[..]);
    return true;
  }

  /** The decoded blob, then the closing items. */
  method AddBlobTail(list: ItemList, p: Plist, blob: Handle) returns (ok: bool)
    requires Valid(p) && InDoc(p.nodes, blob)
    modifies list
    ensures ok <==> BlobTail(p, blob).Some?
    ensures ok ==> list.items == old(list.items) + BlobTail(p, blob).value
  {
    var data, size := GetData(p, blob);
    if data == null {
      return false;
    }
    list.Add(WRITE_ACK, data[..size]);
    ghost var mid := list.items;
    AddGen1Tail(list);
    assert list.items == old(list.items) + ([Item(WRITE_ACK, data[..size])] + GEN1_TAIL);
    return true;
  }

  /** The first generation's closing items. */
  method AddGen1Tail(list: ItemList)
    modifies list
    ensures list.items == old(list.items) + GEN1_TAIL
  {
    AddRegWr(list, 0x10003060, 0xFFFF_FFFF, 6099);
    AddRegWr(list, 0x1000305c, 0xFFFF_FFFF, 2);
    AddRegWr(list, 0x10003058, 0xFFFF_FFFF, 6);
    AddRegWr(list, 0x10003000, 0xFFFF_FFFF, 3);
    AddRegWr(list, 0x10003518, 0xFFFF_FFFF, 1);
    list.Add(WRITE_ACK, REQUEST_CAL);
    list.Add(WRITE, GEN1_CLOSE);
  }

  /**
   * `mtfw_load_firmware(pers, fname, syscfg)`: `fwDoc` is the parsed
   * firmware file, None when it cannot be opened or parsed. The result is the
   * item list, or None for NULL; a failure at any step discards what was
   * built.
   */
  method LoadFirmware(pers: string, fwDoc: Option<seq<XNode>>, store: Store, parse: seq<Byte> -> Option<seq<XNode>>)
    returns (r: Option<seq<Item>>)
    requires fwDoc.Some? ==> Linked(fwDoc.value)
    requires ParsesLinked(parse) && Fits(store)
    ensures r == Firmware(pers, fwDoc, store, parse)
  {
    var epl := Load(LOAD_FILE, fwDoc);
    if epl.None? {
      return None;
    }
    var p := epl.value;
    assert p == Loaded(fwDoc.value);
    var fw := DictFind(p.nodes, Root(p.nodes), pers, DICT);
    assert Firmware(pers, fwDoc, store, parse) == if fw.None? then None else Build(p, fw, store, parse);
    if fw.None? {
      return None;
    }
    ghost var built := Build(p, fw, store, parse);
    var list := new ItemList();
    var ok := AddFirmware(list, p, fw, store, parse);
    if !ok {
      assert built.None?;
      return None;
    }
    assert list.items == [] + built.value == built.value;
    return Some(list.items);
  }

  /** The generation selection, SET_TYPE, then the generation's items. */
  method AddFirmware(list: ItemList, p: Plist, fw: Handle, store: Store, parse: seq<Byte> -> Option<seq<XNode>>) returns (ok: bool)
    requires Valid(p) && InDoc(p.nodes, fw) && ParsesLinked(parse) && Fits(store)
    modifies list
    ensures ok <==> Build(p, fw, store, parse).Some?
    ensures ok ==> list.items == old(list.items) + Build(p, fw, store, parse).value
  {
    var sq := DictFind(p.nodes, fw, "Constructed Firmware", ARRAY);
    var mode;
    if sq.None? {
      sq := DictFind(p.nodes, fw, "Constructed Firmware", DATA);
      if sq.None? {
        return false;
      }
      mode := GEN_1;
    } else {
      mode := GEN_2;
    }
    list.Add(SET_TYPE, Le32(mode));
    ghost var mid := list.items;
    if mode == GEN_1 {
      ok := AddGen1(list, p, sq, store);
      if ok {
        Grown(old(list.items), mid, list.items, Some([Item(SET_TYPE, Le32(GEN_1))]), Gen1(p, sq, store));
      }
    } else {
      ok := AddGen2(list, p, fw, sq, store, parse);
      if ok {
        Grown(old(list.items), mid, list.items, Some([Item(SET_TYPE, Le32(GEN_2))]), Gen2(p, fw, sq, store, parse));
      }
    }
  }
}
