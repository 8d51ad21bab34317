// The property-list accessor of hx-touchd/mtfw/eplist.c. The XML itself is
// parsed by the mxml library, which is not part of this model: a parsed
// document is an arena of nodes numbered in the order `mxmlWalkNext` visits
// them (pre-order, the document node first), each with its element name, its
// opaque text, its ID/IDREF attributes and links to its first child and next
// sibling. In pre-order both links point forward, which is what `Linked` asks.
module EPlist {
  import opened Wrappers
  import opened Bytes
  import opened CStr
  import QDict
  import Base64

  const LOAD_FILE: int := 1
  const LOAD_STRING: int := 2

  /** The type codes of `eplist_type`. */
  const ARRAY: int := 1
  const DICT: int := 2
  const STRING: int := 3
  const INTEGER: int := 4
  const BOOL: int := 5
  const DATA: int := 6

  /** A node pointer; `None` is NULL. */
  type Handle = Option<nat>

  datatype XNode = XNode(
    element: Option<string>,  // `mxmlGetElement`: None for text and other non-element nodes
    text: Option<string>,   // `mxmlGetOpaque`
    id: Option<string>,       // the `ID` attribute
    idref: Option<string>,    // the `IDREF` attribute
    first: Handle,            // `mxmlGetFirstChild`
    next: Handle)             // `mxmlGetNextSibling`

  predicate InDoc(doc: seq<XNode>, h: Handle)
  {
    h.None? || h.value < |doc|
  }

  /** A link from node `i` points to a later node of the document. */
  predicate Forward(doc: seq<XNode>, i: nat, l: Handle)
  {
    l.None? || i < l.value < |doc|
  }

  predicate Linked(doc: seq<XNode>)
  {
    forall i | 0 <= i < |doc| :: Forward(doc, i, doc[i].first) && Forward(doc, i, doc[i].next)
  }

  /** A loaded plist: the document and the user data `eplist_load` attaches to each node. */
  datatype Plist = Plist(nodes: seq<XNode>, user: seq<Handle>)

  predicate Valid(p: Plist)
  {
    Linked(p.nodes) && |p.user| == |p.nodes| &&
    forall i | 0 <= i < |p.user| :: InDoc(p.nodes, p.user[i])
  }

  // ---------------------------------------------------------------- types

  /** The type code of an element name. */
  function TypeCode(name: string): (c: int)
    ensures 0 <= c <= 6
    ensures c == ARRAY <==> name == "array"
    ensures c == DICT <==> name == "dict"
    ensures c == STRING <==> name == "string"
    ensures c == INTEGER <==> name == "integer"
    ensures c == BOOL <==> name == "true" || name == "false"
    ensures c == DATA <==> name == "data"
  {
    if name == "array" then ARRAY
    else if name == "dict" then DICT
    else if name == "integer" then INTEGER
    else if name == "string" then STRING
    else if name == "true" || name == "false" then BOOL
    else if name == "data" then DATA
    else 0
  }

  /** `eplist_type`: 0 for NULL, for non-element nodes and for unknown names. */
  function TypeOf(doc: seq<XNode>, h: Handle): (c: int)
    requires InDoc(doc, h)
    ensures c != 0 <==> h.Some? && doc[h.value].element.Some? && TypeCode(doc[h.value].element.value) != 0
  {
    if h.None? then 0
    else match doc[h.value].element
      case None => 0
      case Some(name) => TypeCode(name)
  }

  // ---------------------------------------------------------------- sibling lists

  function Measure(doc: seq<XNode>, l: Handle): nat
  {
    if l.Some? && l.value < |doc| then |doc| - l.value else 0
  }

  /** The sibling list that starts at `l`, following `next` links. */
  function Siblings(doc: seq<XNode>, l: Handle): (s: seq<nat>)
    requires Linked(doc) && InDoc(doc, l)
    ensures forall k | 0 <= k < |s| :: s[k] < |doc|
    ensures l.None? <==> s == []
    decreases Measure(doc, l)
  {
    if l.None? then [] else [l.value] + Siblings(doc, doc[l.value].next)
  }

  /** The children of node `i`, in document order. */
  function Children(doc: seq<XNode>, i: nat): seq<nat>
    requires Linked(doc) && i < |doc|
  {
    Siblings(doc, doc[i].first)
  }

  /** The element nodes of a node list (text between elements dropped). */
  function Elements(doc: seq<XNode>, s: seq<nat>): (e: seq<nat>)
    requires forall k | 0 <= k < |s| :: s[k] < |doc|
    ensures forall k | 0 <= k < |e| :: e[k] < |doc| && doc[e[k]].element.Some?
  {
    if s == [] then []
    else (if doc[s[0]].element.Some? then [s[0]] else []) + Elements(doc, s[1..])
  }

  /** What a sibling walk stops at: any element, or a value element (an element not named `key`). */
  datatype Want = AnyElement | ValueElement

  predicate Matches(n: XNode, want: Want)
  {
    n.element.Some? && (want == ValueElement ==> n.element.value != "key")
  }

  /** The position of the first node of `s` that `want` stops at, or `|s|`. */
  function FirstMatch(doc: seq<XNode>, s: seq<nat>, want: Want): (k: nat)
    requires forall k | 0 <= k < |s| :: s[k] < |doc|
    ensures k <= |s|
    ensures k < |s| ==> Matches(doc[s[k]], want)
    ensures forall m | 0 <= m < k :: !Matches(doc[s[m]], want)
  {
    if s == [] then 0
    else if Matches(doc[s[0]], want) then 0
    else 1 + FirstMatch(doc, s[1..], want)
  }

  function At(s: seq<nat>, k: nat): Handle
  {
    if k < |s| then Some(s[k]) else None
  }

  /**
   * The sibling loop shared by `eplist_next` and `eplist_array_first`: from
   * `l` on, the first node `want` stops at, or NULL at the end of the list.
   */
  function Scan(doc: seq<XNode>, l: Handle, want: Want): (r: Handle)
    requires Linked(doc) && InDoc(doc, l)
    ensures r.Some? ==> l.Some? && l.value <= r.value < |doc| && Matches(doc[r.value], want)
    decreases Measure(doc, l)
  {
    if l.None? then None
    else if Matches(doc[l.value], want) then l
    else Scan(doc, doc[l.value].next, want)
  }

  /** The sibling walk finds the first node of the list that it should stop at. */
  lemma {:induction false} ScanFirst(doc: seq<XNode>, l: Handle, want: Want)
    requires Linked(doc) && InDoc(doc, l)
    ensures Scan(doc, l, want) == At(Siblings(doc, l), FirstMatch(doc, Siblings(doc, l), want))
    decreases Measure(doc, l)
  {
    if l.Some? && !Matches(doc[l.value], want) {
      var s := Siblings(doc, l);
      assert s[1..] == Siblings(doc, doc[l.value].next);
      ScanFirst(doc, doc[l.value].next, want);
    }
  }

  /** When the first element of a list is a stopping point, the walk stops there, and what follows it holds the remaining elements. */
  lemma {:induction false} ScanElement(doc: seq<XNode>, l: Handle, want: Want)
    requires Linked(doc) && InDoc(doc, l)
    requires Elements(doc, Siblings(doc, l)) != []
    requires Matches(doc[Elements(doc, Siblings(doc, l))[0]], want)
    ensures var e := Elements(doc, Siblings(doc, l));
      Scan(doc, l, want) == Some(e[0]) && Elements(doc, Siblings(doc, doc[e[0]].next)) == e[1..]
    decreases Measure(doc, l)
  {
    var s := Siblings(doc, l);
    var e := Elements(doc, s);
    assert s[1..] == Siblings(doc, doc[l.value].next);
    if doc[l.value].element.None? {
      assert e == Elements(doc, s[1..]);
      ScanElement(doc, doc[l.value].next, want);
    } else {
      assert e == [l.value] + Elements(doc, s[1..]);
      assert e[1..] == Elements(doc, s[1..]);
    }
  }

  // ---------------------------------------------------------------- navigation

  /** `eplist_root`: the first node, in walk order, that has a type. */
  function Root(doc: seq<XNode>): (r: Handle)
    ensures r.Some? ==> r.value < |doc| && TypeOf(doc, r) != 0
    ensures r.Some? ==> forall j | 0 <= j < r.value :: TypeOf(doc, Some(j)) == 0
    ensures r.None? ==> forall j | 0 <= j < |doc| :: TypeOf(doc, Some(j)) == 0
  {
    RootFrom(doc, 0)
  }

  function RootFrom(doc: seq<XNode>, i: nat): (r: Handle)
    ensures r.Some? ==> i <= r.value < |doc| && TypeOf(doc, r) != 0
    ensures r.Some? ==> forall j | i <= j < r.value :: TypeOf(doc, Some(j)) == 0
    ensures r.None? ==> forall j | i <= j < |doc| :: TypeOf(doc, Some(j)) == 0
    decreases |doc| - i
  {
    if i >= |doc| then None
    else if TypeOf(doc, Some(i)) != 0 then Some(i)
    else RootFrom(doc, i + 1)
  }

  /** `eplist_next`: the next sibling that is an element not named `key`, or NULL. */
  function Next(doc: seq<XNode>, h: Handle): (r: Handle)
    requires Linked(doc) && InDoc(doc, h)
    ensures r.Some? ==> h.Some? && h.value < r.value < |doc| && Matches(doc[r.value], ValueElement)
  {
    if h.None? then None else Scan(doc, doc[h.value].next, ValueElement)
  }

  /** `Next` is the first value element among the later siblings. */
  lemma NextIsFirstValue(doc: seq<XNode>, i: nat)
    requires Linked(doc) && i < |doc|
    ensures var s := Siblings(doc, doc[i].next);
      Next(doc, Some(i)) == At(s, FirstMatch(doc, s, ValueElement))
  {
    ScanFirst(doc, doc[i].next, ValueElement);
  }

  /** `eplist_array_first`: the first element child of an array, NULL for anything else. */
  function ArrayFirst(doc: seq<XNode>, h: Handle): (r: Handle)
    requires Linked(doc) && InDoc(doc, h)
    ensures TypeOf(doc, h) != ARRAY ==> r.None?
    ensures r.Some? ==> h.Some? && h.value < r.value < |doc| && doc[r.value].element.Some?
  {
    if TypeOf(doc, h) != ARRAY then None else Scan(doc, doc[h.value].first, AnyElement)
  }

  /** An array's first element is the first of its element children. */
  lemma ArrayFirstIsFirstElement(doc: seq<XNode>, i: nat)
    requires Linked(doc) && i < |doc| && TypeOf(doc, Some(i)) == ARRAY
    ensures var e := Elements(doc, Children(doc, i));
      ArrayFirst(doc, Some(i)) == (if e == [] then None else Some(e[0]))
  {
    var e := Elements(doc, Children(doc, i));
    if e != [] {
      ScanElement(doc, doc[i].first, AnyElement);
    } else {
      NoElements(doc, doc[i].first);
    }
  }

  /** A list without elements gives the walk nothing to stop at. */
  lemma {:induction false} NoElements(doc: seq<XNode>, l: Handle)
    requires Linked(doc) && InDoc(doc, l)
    requires Elements(doc, Siblings(doc, l)) == []
    ensures Scan(doc, l, AnyElement).None?
    decreases Measure(doc, l)
  {
    if l.Some? {
      var s := Siblings(doc, l);
      assert s[1..] == Siblings(doc, doc[l.value].next);
      NoElements(doc, doc[l.value].next);
    }
  }

  /** `eplist_dict_find`: NULL unless `h` is a dict; then the key/value scan of its children. */
  function DictFind(doc: seq<XNode>, h: Handle, key: string, expected: int): (r: Handle)
    requires Linked(doc) && InDoc(doc, h)
    ensures TypeOf(doc, h) != DICT ==> r.None?
    ensures r.Some? ==> h.Some? && h.value < r.value < |doc| && Matches(doc[r.value], ValueElement)
    ensures r.Some? && expected != 0 ==> TypeOf(doc, r) == expected
  {
    if TypeOf(doc, h) != DICT then None else DictScan(doc, doc[h.value].first, key, expected)
  }

  /**
   * The loop of `eplist_dict_find` from child `l` on: text nodes are skipped,
   * an element other than `key` ends the search, and a `key` is paired with
   * the value `eplist_next` finds after it. A `key` element without text
   * never matches.
   */
  function DictScan(doc: seq<XNode>, l: Handle, key: string, expected: int): (r: Handle)
    requires Linked(doc) && InDoc(doc, l)
    ensures r.Some? ==> l.Some? && l.value < r.value < |doc| && Matches(doc[r.value], ValueElement)
    ensures r.Some? && expected != 0 ==> TypeOf(doc, r) == expected
    decreases Measure(doc, l)
  {
    if l.None? then None
    else
      var n := doc[l.value];
      if n.element.None? then DictScan(doc, n.next, key, expected)
      else if n.element.value != "key" then None
      else
        var v := Next(doc, l);
        if v.None? then None
        else if n.text == Some(key) then
          (if expected != 0 && TypeOf(doc, v) != expected then None else v)
        else DictScan(doc, doc[v.value].next, key, expected)
  }

  /** A well-formed plist dict: its element children alternate `key`, value, `key`, value, ... */
  ghost predicate KeyValuePairs(doc: seq<XNode>, e: seq<nat>)
    requires forall k | 0 <= k < |e| :: e[k] < |doc|
  {
    |e| % 2 == 0 &&
    forall k | 0 <= k < |e| ::
      if k % 2 == 0 then doc[e[k]].element == Some("key") else Matches(doc[e[k]], ValueElement)
  }

  /** Dictionary lookup on a list of key/value pairs: the value after the first key with the text `key`. */
  function PairLookup(doc: seq<XNode>, e: seq<nat>, key: string, expected: int): Handle
    requires forall k | 0 <= k < |e| :: e[k] < |doc|
  {
    if |e| < 2 then None
    else if doc[e[0]].text == Some(key) then
      (if expected != 0 && TypeOf(doc, Some(e[1])) != expected then None else Some(e[1]))
    else PairLookup(doc, e[2..], key, expected)
  }

  /**
   * On a well-formed dict, `eplist_dict_find` is a lookup: the first matching
   * key wins, and a value of the wrong type gives NULL without looking further.
   */
  lemma DictFindPairs(doc: seq<XNode>, i: nat, key: string, expected: int)
    requires Linked(doc) && i < |doc| && TypeOf(doc, Some(i)) == DICT
    requires KeyValuePairs(doc, Elements(doc, Children(doc, i)))
    ensures DictFind(doc, Some(i), key, expected) == PairLookup(doc, Elements(doc, Children(doc, i)), key, expected)
  {
    DictScanPairs(doc, doc[i].first, key, expected);
  }

  lemma {:induction false} DictScanPairs(doc: seq<XNode>, l: Handle, key: string, expected: int)
    requires Linked(doc) && InDoc(doc, l)
    requires KeyValuePairs(doc, Elements(doc, Siblings(doc, l)))
    ensures DictScan(doc, l, key, expected) == PairLookup(doc, Elements(doc, Siblings(doc, l)), key, expected)
    decreases Measure(doc, l)
  {
    if l.Some? {
      var s := Siblings(doc, l);
      var e := Elements(doc, s);
      var n := doc[l.value];
      assert s[1..] == Siblings(doc, n.next);
      if n.element.None? {
        assert e == Elements(doc, s[1..]);
        DictScanPairs(doc, n.next, key, expected);
      } else {
        KeyStep(doc, l);
        if n.text != Some(key) {
          DictScanPairs(doc, doc[e[1]].next, key, expected);
        }
      }
    }
  }

  /** In a well-formed dict list that starts with an element, that element is a `key`, and its value is the next element. */
  lemma KeyStep(doc: seq<XNode>, l: Handle)
    requires Linked(doc) && InDoc(doc, l) && l.Some? && doc[l.value].element.Some?
    requires KeyValuePairs(doc, Elements(doc, Siblings(doc, l)))
    ensures var e := Elements(doc, Siblings(doc, l));
      |e| >= 2 && e[0] == l.value && Next(doc, l) == Some(e[1]) &&
      Elements(doc, Siblings(doc, doc[e[1]].next)) == e[2..] && KeyValuePairs(doc, e[2..])
  {
    var s := Siblings(doc, l);
    var e := Elements(doc, s);
    var n := doc[l.value];
    assert s[1..] == Siblings(doc, n.next);
    assert e[0] == l.value;
    assert |e| >= 2;
    var rest := Elements(doc, Siblings(doc, n.next));
    assert rest == e[1..];
    ScanElement(doc, n.next, ValueElement);
    PairsTail(doc, e);
  }

  lemma PairsTail(doc: seq<XNode>, e: seq<nat>)
    requires forall k | 0 <= k < |e| :: e[k] < |doc|
    requires KeyValuePairs(doc, e) && |e| >= 2
    ensures KeyValuePairs(doc, e[2..])
  {
    forall k | 0 <= k < |e| - 2 ensures e[2..][k] == e[k + 2] {
    }
  }

  // ---------------------------------------------------------------- getters

  /** `eplist_deref`: the node an IDREF resolved to, else the node itself. */
  function Deref(p: Plist, h: Handle): (r: Handle)
    requires Valid(p) && InDoc(p.nodes, h)
    ensures InDoc(p.nodes, r) && (r.None? <==> h.None?)
    ensures h.Some? && p.user[h.value].None? ==> r == h
    ensures h.Some? && p.user[h.value].Some? ==> r == p.user[h.value]
  {
    if h.None? then None
    else if p.user[h.value].Some? then p.user[h.value]
    else h
  }

  /** The text text of the node an element stands for. */
  function TextOf(p: Plist, h: Handle): Option<string>
    requires Valid(p) && InDoc(p.nodes, h)
  {
    var d := Deref(p, h);
    if d.None? then None else p.nodes[d.value].text
  }

  /** `eplist_get_string`: the text of a string element (following an IDREF), NULL for any other node. */
  function GetString(p: Plist, h: Handle): (r: Option<string>)
    requires Valid(p) && InDoc(p.nodes, h)
    ensures TypeOf(p.nodes, h) != STRING ==> r.None?
    ensures TypeOf(p.nodes, h) == STRING ==> r == TextOf(p, h)
  {
    if TypeOf(p.nodes, h) != STRING then None else TextOf(p, h)
  }

  const I64_MIN: int := -0x8000_0000_0000_0000
  const I64_MAX: int := 0x7fff_ffff_ffff_ffff

  /** Conversion of an `unsigned long long` to `long long` (two's complement). */
  function Signed64(x: nat): (r: int)
    requires x < U64
    ensures I64_MIN <= r <= I64_MAX && (r - x) % U64 == 0
  {
    if x <= I64_MAX then x else x - U64
  }

  /**
   * `eplist_get_integer`: -1 for anything but an integer element or when there
   * is no text; otherwise `strtoull` of the text, base chosen by its prefix.
   */
  function GetInteger(p: Plist, h: Handle): (r: int)
    requires Valid(p) && InDoc(p.nodes, h)
    ensures I64_MIN <= r <= I64_MAX
    ensures TypeOf(p.nodes, h) != INTEGER || TextOf(p, h).None? ==> r == -1
    ensures TypeOf(p.nodes, h) == INTEGER && TextOf(p, h).Some? ==> (r - Strtoull(TextOf(p, h).value)) % U64 == 0
  {
    if TypeOf(p.nodes, h) != INTEGER then -1
    else match TextOf(p, h)
      case None => -1
      case Some(text) => Signed64(Strtoull(text))
  }

  /** An integer element whose text is the decimal rendering of a non-negative `long long` reads back as that number. */
  lemma GetIntegerDecimal(p: Plist, i: nat, n: nat)
    requires Valid(p) && i < |p.nodes| && TypeOf(p.nodes, Some(i)) == INTEGER
    requires TextOf(p, Some(i)) == Some(Decimal(n)) && n <= I64_MAX
    ensures GetInteger(p, Some(i)) == n
  {
    StrtoullDecimal(n);
  }

  /** `eplist_get_bool`: 0 for `false`, 1 for `true`, -1 otherwise; an IDREF is not followed. */
  function GetBool(doc: seq<XNode>, h: Handle): (r: int)
    requires InDoc(doc, h)
    ensures r == 0 <==> h.Some? && doc[h.value].element == Some("false")
    ensures r == 1 <==> h.Some? && doc[h.value].element == Some("true")
    ensures r == -1 || r == 0 || r == 1
  {
    if h.None? then -1
    else match doc[h.value].element
      case None => -1
      case Some(name) => if name == "false" then 0 else if name == "true" then 1 else -1
  }

  /**
   * `eplist_get_data`: NULL for anything but a data element, when there is no
   * text or when the base64 text is malformed; otherwise the decoded bytes
   * followed by a 0 byte, and their number.
   */
  method GetData(p: Plist, h: Handle) returns (out: array?<Byte>, size: nat)
    requires Valid(p) && InDoc(p.nodes, h)
    ensures TypeOf(p.nodes, h) != DATA || TextOf(p, h).None? ==> out == null
    ensures TypeOf(p.nodes, h) == DATA && TextOf(p, h).Some? ==>
      (out == null <==> Base64.Decode(TextOf(p, h).value).None?)
    ensures out != null ==> fresh(out) && out.Length == size + 1 && out[size] == 0
    ensures out != null ==> TextOf(p, h).Some? && Base64.Decode(TextOf(p, h).value) == Some(out[..size])
  {
    if TypeOf(p.nodes, h) != DATA {
      return null, 0;
    }
    var text := TextOf(p, h);
    if text.None? {
      return null, 0;
    }
    out, size := Base64.DecodeText(text.value);
  }

  // ---------------------------------------------------------------- loading

  /** The IDs declared by the first `n` nodes, each bound to its first declaring node (see `DeclsFirst`). */
  function Decls(doc: seq<XNode>, n: nat): map<string, nat>
    requires n <= |doc|
  {
    if n == 0 then map[]
    else
      var m := Decls(doc, n - 1);
      match doc[n - 1].id
        case None => m
        case Some(k) => if k in m then m else m[k := n - 1]
  }

  /** Every ID declared among the first `n` nodes is bound to the first node that declares it. */
  lemma {:induction false} DeclsFirst(doc: seq<XNode>, n: nat)
    requires n <= |doc|
    ensures forall k | k in Decls(doc, n) :: Decls(doc, n)[k] < n && doc[Decls(doc, n)[k]].id == Some(k)
    ensures forall k | k in Decls(doc, n) :: forall j | 0 <= j < Decls(doc, n)[k] :: doc[j].id != Some(k)
    ensures forall j | 0 <= j < n :: doc[j].id.Some? ==> doc[j].id.value in Decls(doc, n)
  {
    if n > 0 {
      DeclsFirst(doc, n - 1);
    }
  }

  /** The user data of node `j` once IDREFs are resolved against the declarations `ids`. */
  function Resolved(doc: seq<XNode>, ids: map<string, nat>, j: nat): Handle
    requires j < |doc|
  {
    match doc[j].idref
      case None => None
      case Some(r) => if r in ids then Some(ids[r]) else None
  }

  /** The plist `eplist_load` builds from a parsed document; every resolved IDREF names a node of it. */
  function Loaded(doc: seq<XNode>): (p: Plist)
    requires Linked(doc)
    ensures Valid(p) && p.nodes == doc
    ensures forall j | 0 <= j < |doc| :: p.user[j] == Resolved(doc, Decls(doc, |doc|), j)
  {
    DeclsFirst(doc, |doc|);
    Plist(doc, seq(|doc|, j requires 0 <= j < |doc| => Resolved(doc, Decls(doc, |doc|), j)))
  }

  /**
   * `eplist_load` after parsing: the first walk enters every ID into a fresh
   * dictionary with `QDICT_ADD` (which leaves an existing entry alone), the
   * second attaches to every node with an IDREF the node its ID names. An
   * unknown source kind or a failed parse gives NULL.
   */
  method Load(srctype: int, parsed: Option<seq<XNode>>) returns (p: Option<Plist>)
    requires parsed.Some? ==> Linked(parsed.value)
    ensures p.None? <==> (srctype != LOAD_FILE && srctype != LOAD_STRING) || parsed.None?
    ensures p.Some? ==> Valid(p.value) && p.value == Loaded(parsed.value)
    ensures p.Some? ==> forall j | 0 <= j < |p.value.nodes| ::
      p.value.user[j] == Resolved(parsed.value, Decls(parsed.value, |parsed.value|), j)
  {
    if (srctype != LOAD_FILE && srctype != LOAD_STRING) || parsed.None? {
      return None;
    }
    var doc := parsed.value;
    var ids := DeclareAll(doc);
    var user := ResolveAll(ids, doc);
    DeclsFirst(doc, |doc|);
    assert user == Loaded(doc).user;
    p := Some(Plist(doc, user));
  }

  /** The first walk: a fresh dictionary holding every node's ID with its first declaring node. */
  method DeclareAll(doc: seq<XNode>) returns (ids: QDict.Dict<nat>)
    ensures fresh(ids) && ids.Valid() && ids.Entries() == Decls(doc, |doc|)
  {
    ids := new QDict.Dict<nat>(0);
    var i := 0;
    while i < |doc|
      invariant i <= |doc|
      invariant ids.Valid() && ids.Entries() == Decls(doc, i)
    {
      Declare(ids, doc, i);
      i := i + 1;
    }
  }

  /** The second walk: every node's resolved IDREF, in document order. */
  method ResolveAll(ids: QDict.Dict<nat>, doc: seq<XNode>) returns (user: seq<Handle>)
    requires ids.Valid() && ids.Entries() == Decls(doc, |doc|)
    modifies ids
    ensures |user| == |doc|
    ensures forall j | 0 <= j < |doc| :: user[j] == Resolved(doc, Decls(doc, |doc|), j)
  {
    ghost var decls := Decls(doc, |doc|);
    user := [];
    var i := 0;
    while i < |doc|
      invariant i <= |doc| && |user| == i
      invariant ids.Valid() && ids.Entries() == decls
      invariant forall j | 0 <= j < i :: user[j] == Resolved(doc, decls, j)
    {
      var r := Resolve(ids, doc, i);
      assert forall j | 0 <= j < i :: (user + [r])[j] == user[j];
      user := user + [r];
      i := i + 1;
    }
  }

  /** One step of the first walk: node `i`'s ID, if any, is added unless already declared. */
  method Declare(ids: QDict.Dict<nat>, doc: seq<XNode>, i: nat)
    requires i < |doc| && ids.Valid() && ids.Entries() == Decls(doc, i)
    modifies ids
    ensures ids.Valid() && ids.Entries() == Decls(doc, i + 1)
  {
    DeclsNext(doc, i);
    if doc[i].id.Some? {
      var k := doc[i].id.value;
      var ptr := ids.Find(k, QDict.ADD);
      if ptr.Payload? {
        ids.Store(ptr, i);
      }
    }
  }

  lemma DeclsNext(doc: seq<XNode>, i: nat)
    requires i < |doc|
    ensures QDict.HasAdd(QDict.ADD) && !QDict.HasFind(QDict.ADD)
    ensures var m := Decls(doc, i);
      Decls(doc, i + 1) == if doc[i].id.None? || doc[i].id.value in m then m else m[doc[i].id.value := i]
  {
  }

  /** One step of the second walk: the node that node `i`'s IDREF names, if it is declared. */
  method Resolve(ids: QDict.Dict<nat>, doc: seq<XNode>, i: nat) returns (r: Handle)
    requires i < |doc| && ids.Valid() && ids.Entries() == Decls(doc, |doc|)
    modifies ids
    ensures ids.Valid() && ids.Entries() == Decls(doc, |doc|)
    ensures r == Resolved(doc, Decls(doc, |doc|), i)
  {
    r := None;
    if doc[i].idref.Some? {
      var ptr := ids.Find(doc[i].idref.value, QDict.FIND);
      if ptr.Payload? {
        r := Some(ids.Get(ptr));
      }
    }
  }

  /**
   * Resolution does not depend on where the ID is declared: any declaring
   * node, before or after the referring one, makes the reference resolve, and
   * it resolves to the first declaring node.
   */
  lemma ResolvedFirst(doc: seq<XNode>, j: nat, d: nat)
    requires j < |doc| && d < |doc| && doc[j].idref.Some? && doc[d].id == doc[j].idref
    ensures var u := Resolved(doc, Decls(doc, |doc|), j);
      u.Some? && u.value <= d && doc[u.value].id == doc[j].idref &&
      forall x | 0 <= x < u.value :: doc[x].id != doc[j].idref
  {
    DeclsFirst(doc, |doc|);
  }

  /** A reference to an ID no node declares leaves the node's user data NULL, so accessors read its own text. */
  lemma UnresolvedReadsOwnText(p: Plist, doc: seq<XNode>, j: nat)
    requires Valid(p) && p.nodes == doc && j < |doc|
    requires p.user[j] == Resolved(doc, Decls(doc, |doc|), j)
    requires doc[j].idref.Some? && forall x | 0 <= x < |doc| :: doc[x].id != doc[j].idref
    ensures Deref(p, Some(j)) == Some(j) && TextOf(p, Some(j)) == doc[j].text
  {
    DeclsFirst(doc, |doc|);
  }
}
