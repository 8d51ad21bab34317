// The start-up of the touch-controller daemon (`main` of hx-touchd/hx-touchd.c):
// choosing the firmware, either from the command line or from a firmware-list
// file, then bringing the controller up, retrying when it does not answer its
// status report, and handing the screen metrics to the driver.
//
// The outside world is given as parameters:
// - the text of the firmware list (None when it cannot be opened);
// - `present`, whether a path names an existing file (`stat`);
// - `files`, the parsed property list a path holds (None when it cannot be
//   opened or parsed), read by the firmware builder;
// - the syscfg store the builder reads calibration values from;
// - the driver, as the `Device` of the HxTouchd module.
module HxDaemon {
  import opened Wrappers
  import opened Bytes
  import opened EPlist
  import opened MtfwFrame
  import opened HxTouchd
  import Mtfw

  /** `fgets` into a 256-byte buffer reads at most 255 characters. */
  const LINE_MAX: nat := 255

  /** Status reads that may fail, each followed by a fresh start. */
  const RETRIES: nat := 3

  /** A line ends at its first `#`, line feed or carriage return, and at a NUL, where the C string ends. */
  const STOPS: set<char> := {'#', '\n', '\r', '\0'}

  /** The characters that separate the personality from the path. */
  const BLANKS: set<char> := {' ', '\t'}

  // ---------------------------------------------------------------------------
  // The firmware list

  /** One entry of the firmware list. */
  datatype Entry = Entry(pers: string, path: string)

  /**
   * The length of the chunk `fgets` reads from `text`: up to and including
   * the first line feed, but no more than `LINE_MAX` characters.
   */
  function LineEnd(text: string): (n: nat)
    requires text != []
    ensures 0 < n <= |text| && n <= LINE_MAX
    ensures forall k | 0 <= k < n - 1 :: text[k] != '\n'
    ensures n < |text| && n < LINE_MAX ==> text[n - 1] == '\n'
  {
    ScanLine(text, 0)
  }

  function ScanLine(text: string, i: nat): (n: nat)
    requires i < |text| && i < LINE_MAX
    ensures i < n <= |text| && n <= LINE_MAX
    ensures forall k | i <= k < n - 1 :: text[k] != '\n'
    ensures n < |text| && n < LINE_MAX ==> text[n - 1] == '\n'
    decreases LINE_MAX - i
  {
    if text[i] == '\n' || i + 1 == |text| || i + 1 == LINE_MAX then i + 1 else ScanLine(text, i + 1)
  }

  /** The chunks successive `fgets` calls return on `text`. */
  function Lines(text: string): seq<string>
    decreases |text|
  {
    if text == [] then [] else var n := LineEnd(text); [text[..n]] + Lines(text[n..])
  }

  function Concat(ls: seq<string>): string
  {
    if ls == [] then [] else ls[0] + Concat(ls[1..])
  }

  /** The chunks cover the text exactly and in order. */
  lemma {:induction false} LinesCover(text: string)
    ensures Concat(Lines(text)) == text
    decreases |text|
  {
    if text != [] {
      var n := LineEnd(text);
      LinesCover(text[n..]);
      ConcatCons(text[..n], Lines(text[n..]));
      TakeDrop(text, n);
    }
  }

  lemma TakeDrop(s: string, n: nat)
    requires n <= |s|
    ensures s[..n] + s[n..] == s
  {
  }

  /** Each chunk holds 1 to 255 characters. */
  lemma {:induction false} LinesSized(text: string)
    ensures forall j | 0 <= j < |Lines(text)| :: 0 < |Lines(text)[j]| <= LINE_MAX
    decreases |text|
  {
    if text != [] {
      var n := LineEnd(text);
      var rest := Lines(text[n..]);
      LinesSized(text[n..]);
      var ls := Lines(text);
      assert ls == [text[..n]] + rest;
      forall j | 0 <= j < |ls|
        ensures 0 < |ls[j]| <= LINE_MAX
      {
        if j > 0 {
          assert ls[j] == rest[j - 1];
        }
      }
    }
  }

  lemma ConcatCons(l: string, ls: seq<string>)
    ensures Concat([l] + ls) == l + Concat(ls)
  {
    assert ([l] + ls)[1..] == ls;
  }

  /** The index of the first character of `s` in `cs`, or `|s|` (`strpbrk`). */
  function Before(s: string, cs: set<char>): (n: nat)
    ensures n <= |s| && (forall k | 0 <= k < n :: s[k] !in cs) && (n < |s| ==> s[n] in cs)
    decreases |s|
  {
    if s == [] || s[0] in cs then 0 else 1 + Before(s[1..], cs)
  }

  /** The number of leading characters of `s` that are in `cs`. */
  function Leading(s: string, cs: set<char>): (n: nat)
    ensures n <= |s| && (forall k | 0 <= k < n :: s[k] in cs) && (n < |s| ==> s[n] !in cs)
    decreases |s|
  {
    if s == [] || s[0] !in cs then 0 else 1 + Leading(s[1..], cs)
  }

  /**
   * A firmware-list line: cut at its first stop character; the personality is
   * what precedes the first blank, the path what follows it once further
   * blanks are skipped. A line without a blank gives no entry.
   */
  function ParseLine(chunk: string): (r: Option<Entry>)
    ensures var cut := Before(chunk, STOPS);
      r.None? <==> forall k | 0 <= k < cut :: chunk[k] !in BLANKS
    ensures r.Some? ==>
      (forall k | 0 <= k < |r.value.pers| :: r.value.pers[k] !in BLANKS && r.value.pers[k] !in STOPS)
      && (forall k | 0 <= k < |r.value.path| :: r.value.path[k] !in STOPS)
      && (r.value.path == [] || r.value.path[0] !in BLANKS)
  {
    var line := chunk[..Before(chunk, STOPS)];
    var sep := Before(line, BLANKS);
    if sep == |line| then None
    else
      var rest := line[sep + 1..];
      Some(Entry(line[..sep], rest[Leading(rest, BLANKS)..]))
  }

  lemma BeforeIs(s: string, cs: set<char>, n: nat)
    requires n <= |s| && (forall k | 0 <= k < n :: s[k] !in cs) && (n < |s| ==> s[n] in cs)
    ensures Before(s, cs) == n
  {
    var m := Before(s, cs);
  }

  lemma LeadingIs(s: string, cs: set<char>, n: nat)
    requires n <= |s| && (forall k | 0 <= k < n :: s[k] in cs) && (n < |s| ==> s[n] !in cs)
    ensures Leading(s, cs) == n
  {
    var m := Leading(s, cs);
  }

  /**
   * A line written as a personality, one blank, any further blanks, a path and
   * a comment or line end parses back to that personality and path.
   */
  lemma ParseLineRoundTrip(pers: string, sep: char, blanks: string, path: string, tail: string)
    requires sep in BLANKS && forall k | 0 <= k < |blanks| :: blanks[k] in BLANKS
    requires forall k | 0 <= k < |pers| :: pers[k] !in BLANKS && pers[k] !in STOPS
    requires forall k | 0 <= k < |path| :: path[k] !in STOPS
    requires path == [] || path[0] !in BLANKS
    requires tail == [] || tail[0] in STOPS
    ensures ParseLine(pers + [sep] + blanks + path + tail) == Some(Entry(pers, path))
  {
    var chunk := pers + [sep] + blanks + path + tail;
    var line := pers + [sep] + blanks + path;
    var rest := blanks + path;
    assert chunk == line + tail;
    forall k | 0 <= k < |line|
      ensures line[k] !in STOPS
    {
      if k < |pers| {
        assert line[k] == pers[k];
      } else if k == |pers| {
        assert line[k] == sep;
      } else if k < |pers| + 1 + |blanks| {
        assert line[k] == blanks[k - |pers| - 1];
      } else {
        assert line[k] == path[k - |pers| - 1 - |blanks|];
      }
    }
    BeforeIs(chunk, STOPS, |line|);
    assert chunk[..|line|] == line;
    assert line[|pers|] == sep;
    BeforeIs(line, BLANKS, |pers|);
    assert line[|pers| + 1..] == rest;
    LeadingIs(rest, BLANKS, |blanks|);
    assert line[..|pers|] == pers && rest[|blanks|..] == path;
  }

  /**
   * `main`'s handling of one chunk: the cut at the first stop character, the
   * split at the first blank, and the loop that skips further blanks.
   */
  method ParseEntry(chunk: string) returns (r: Option<Entry>)
    ensures r == ParseLine(chunk)
  {
    var line := chunk[..Before(chunk, STOPS)];
    var sep := Before(line, BLANKS);
    if sep == |line| {
      return None;
    }
    var i := SkipBlanks(line, sep + 1);
    r := Some(Entry(line[..sep], line[i..]));
  }

  /** The loop that skips the blanks of `line` from position `from` on. */
  method SkipBlanks(line: string, from: nat) returns (i: nat)
    requires from <= |line|
    ensures from <= i <= |line| && line[i..] == line[from..][Leading(line[from..], BLANKS)..]
  {
    i := from;
    while i < |line| && line[i] in BLANKS
      invariant from <= i <= |line|
      invariant forall k | from <= k < i :: line[k] in BLANKS
    {
      i := i + 1;
    }
    LeadingIs(line[from..], BLANKS, i - from);
    assert line[from..][i - from..] == line[i..];
  }

  /** Every path names a linked document or none. */
  ghost predicate FilesLinked(files: string -> Option<seq<XNode>>)
  {
    forall p :: files(p).Some? ==> Linked(files(p).value)
  }

  /** The firmware a list chunk yields: an entry whose path exists and whose build succeeds. */
  ghost function Built(chunk: string, present: string -> bool, files: string -> Option<seq<XNode>>, store: Mtfw.Store,
                       parse: seq<Byte> -> Option<seq<XNode>>): Option<seq<Item>>
    requires FilesLinked(files) && Mtfw.ParsesLinked(parse)
  {
    var e := ParseLine(chunk);
    if e.None? || !present(e.value.path) then None
    else Mtfw.Firmware(e.value.pers, files(e.value.path), store, parse)
  }

  /** `Built` as a function of the chunk alone. */
  ghost function Builder(present: string -> bool, files: string -> Option<seq<XNode>>, store: Mtfw.Store,
                         parse: seq<Byte> -> Option<seq<XNode>>): string -> Option<seq<Item>>
    requires FilesLinked(files) && Mtfw.ParsesLinked(parse)
  {
    chunk => Built(chunk, present, files, store, parse)
  }

  /** The firmware of the first chunk that yields one under `build`. */
  function FirstBuilt(lines: seq<string>, build: string -> Option<seq<Item>>): Option<seq<Item>>
  {
    if lines == [] then None
    else
      var b := build(lines[0]);
      if b.Some? then b else FirstBuilt(lines[1..], build)
  }

  /**
   * The list gives the firmware of the first chunk that yields one, and no
   * firmware exactly when no chunk yields one.
   */
  lemma {:induction false} FirstBuiltMeaning(lines: seq<string>, build: string -> Option<seq<Item>>)
    ensures FirstBuilt(lines, build).None? <==> forall j | 0 <= j < |lines| :: build(lines[j]).None?
    ensures FirstBuilt(lines, build).Some? ==>
      exists i | 0 <= i < |lines| ::
        build(lines[i]) == FirstBuilt(lines, build) && forall j | 0 <= j < i :: build(lines[j]).None?
  {
    if lines != [] {
      var rest := lines[1..];
      FirstBuiltMeaning(rest, build);
      assert forall j | 1 <= j < |lines| :: lines[j] == rest[j - 1];
      var f := FirstBuilt(lines, build);
      if build(lines[0]).None? && f.Some? {
        var i :| 0 <= i < |rest| && build(rest[i]) == f && forall j | 0 <= j < i :: build(rest[j]).None?;
        assert build(lines[i + 1]) == f;
      } else if f.Some? {
        assert build(lines[0]) == f;
      }
    }
  }

  /**
   * The firmware-list loop of `main`: reads the list chunk by chunk and keeps
   * the firmware of the first entry whose file exists and builds.
   */
  method ChooseFromList(text: string, present: string -> bool, files: string -> Option<seq<XNode>>,
                        store: Mtfw.Store, parse: seq<Byte> -> Option<seq<XNode>>)
    returns (fw: Option<seq<Item>>)
    requires FilesLinked(files) && Mtfw.ParsesLinked(parse) && Mtfw.Fits(store)
    ensures fw == FirstBuilt(Lines(text), Builder(present, files, store, parse))
  {
    ghost var build := Builder(present, files, store, parse);
    var rest := text;
    while rest != []
      invariant FirstBuilt(Lines(rest), build) == FirstBuilt(Lines(text), build)
      decreases |rest|
    {
      var n := LineEnd(rest);
      var chunk := rest[..n];
      assert Lines(rest) == [chunk] + Lines(rest[n..]);
      assert Lines(rest)[1..] == Lines(rest[n..]);
      rest := rest[n..];
      var e := ParseEntry(chunk);
      if e.Some? && present(e.value.path) {
        fw := Mtfw.LoadFirmware(e.value.pers, files(e.value.path), store, parse);
        if fw.Some? {
          return;
        }
      }
    }
    return None;
  }

  /**
   * The firmware `main` runs with: with three arguments, the build of the
   * named personality and file; with two, the first that the list yields;
   * none otherwise, or when the list cannot be opened.
   */
  ghost function Chosen(args: seq<string>, list: Option<string>, present: string -> bool,
                        files: string -> Option<seq<XNode>>, store: Mtfw.Store,
                        parse: seq<Byte> -> Option<seq<XNode>>): Option<seq<Item>>
    requires FilesLinked(files) && Mtfw.ParsesLinked(parse)
  {
    if |args| == 3 then Mtfw.Firmware(args[0], files(args[1]), store, parse)
    else if |args| == 2 && list.Some? then FirstBuilt(Lines(list.value), Builder(present, files, store, parse))
    else None
  }

  // ---------------------------------------------------------------------------
  // Bringing the controller up

  /** The calls `main` makes and its status; 0 stands for reaching the idle loop it never leaves. */
  datatype Outcome = Outcome(ops: seq<Op>, status: int)

  /** The `(short)` cast of a 16-bit word. */
  function Signed16(v: int): (s: int)
    requires 0 <= v < U16
    ensures -0x8000 <= s < 0x8000 && (s - v) % U16 == 0
  {
    if v < 0x8000 then v else v - U16
  }

  /** The rectangle in the `D9` report: left, bottom, right and top, little-endian, at offsets 8, 10, 12 and 14. */
  function MetricsOf(d9: seq<Byte>): Metrics
    requires |d9| == 16
  {
    Metrics(Signed16(GetLe16(d9[8], d9[9])), Signed16(GetLe16(d9[12], d9[13])),
            Signed16(GetLe16(d9[14], d9[15])), Signed16(GetLe16(d9[10], d9[11])))
  }

  /** A signed 16-bit value stored little-endian reads back unchanged. */
  lemma Signed16RoundTrip(x: int)
    requires -0x8000 <= x < 0x8000
    ensures Signed16(GetLe16(Le16(x)[0], Le16(x)[1])) == x
  {
    Le16RoundTrip(x);
    if x < 0 {
      assert Trunc16(x) == x + U16;
    }
  }

  /** The report that holds each field of `m` at its offset gives `m` back. */
  lemma MetricsRoundTrip(d9: seq<Byte>, m: Metrics)
    requires |d9| == 16
    requires -0x8000 <= m.left < 0x8000 && -0x8000 <= m.right < 0x8000
    requires -0x8000 <= m.top < 0x8000 && -0x8000 <= m.bottom < 0x8000
    requires d9[8..10] == Le16(m.left) && d9[10..12] == Le16(m.bottom)
    requires d9[12..14] == Le16(m.right) && d9[14..16] == Le16(m.top)
    ensures MetricsOf(d9) == m
  {
    Signed16RoundTrip(m.left);
    Signed16RoundTrip(m.bottom);
    Signed16RoundTrip(m.right);
    Signed16RoundTrip(m.top);
    assert d9[8] == d9[8..10][0] && d9[9] == d9[8..10][1];
    assert d9[10] == d9[10..12][0] && d9[11] == d9[10..12][1];
    assert d9[12] == d9[12..14][0] && d9[13] == d9[12..14][1];
    assert d9[14] == d9[14..16][0] && d9[15] == d9[14..16][1];
  }

  /** The report a `read_report` into a buffer of `cap` bytes delivers fits it. */
  lemma ReportFits(l: Link, t: nat, rpt: Byte, cap: nat)
    ensures |Report(l, t, rpt, cap).data| <= cap
  {
    ReadingFits(l, t, Cmd(REP_INFO, rpt, 0), cap);
  }

  lemma ReadingFits(l: Link, t: nat, c: seq<Byte>, cap: nat)
    requires |c| == 16
    ensures |Reading(l, t, c, cap).data| <= cap
  {
    if Then(Z2Run(l, t, c), Z2Run(l, t + 4, c)).ok {
      var rsp := Reply(l, t + 6, 16);
      if rsp[2] == 0 {
        var rlen := Min(GetLe16(rsp[3], rsp[4]), cap);
        assert |Fetched(l, t + 8, rlen)| == rlen;
      }
    }
  }

  /** The write of report `AF` with the one-byte payload 0 that ends the start-up. */
  function Finale(l: Link, t: nat): Run
  {
    var c := WriteCmd(0xAF, [0]);
    Then(Z2Run(l, t, c), Z2Run(l, t + 4, Terminator(c)))
  }

  /** One pass from the `retry` label up to the status read. */
  datatype Pass = Fatal(ops: seq<Op>) | Status(ops: seq<Op>, rep: Reported)

  /** Pass `p` with the calls `o` made before it. */
  function Prefix(o: seq<Op>, p: Pass): (r: Pass)
    ensures r.ops == o + p.ops && r.Fatal? == p.Fatal? && (r.Status? ==> r.rep == p.rep)
  {
    match p
    case Fatal(ops) => Fatal(o + ops)
    case Status(ops, rep) => Status(o + ops, rep)
  }

  /** The wake command, whose failure is ignored, then the read of report `D9`. */
  function Probe(l: Link, t: nat): (p: Pass)
    ensures p.Status? && |p.rep.data| <= 16
  {
    Waking(l, t, Cmd(WAKE_CMD, 0, 0), Cmd(REP_INFO, 0xD9, 0))
  }

  /** The command `wake`, then a 16-byte report read with the report-info command `info`. */
  function Waking(l: Link, t: nat, wake: seq<Byte>, info: seq<Byte>): (p: Pass)
    requires |wake| == 16 && |info| == 16
    ensures p.Status? && |p.rep.data| <= 16
  {
    var w := Z2Run(l, t, wake);
    ReadingFits(l, t + |w.ops|, info, 16);
    Probed(w.ops, Reading(l, t + |w.ops|, info, 16))
  }

  /** The calls `w` of the wake command, then the report read `rep`. */
  function Probed(w: seq<Op>, rep: Reported): (p: Pass)
    ensures p.Status? && p.rep == rep
  {
    Status(w + rep.ops, rep)
  }

  /**
   * What the driver does for one firmware, by trace position: whether `open`
   * succeeds, the bootload, the wake and status read, and the write of
   * report `AF` that start there.
   */
  datatype Driver = Driver(link: Link, boot: nat -> Run, probe: nat -> Pass, finale: nat -> Run)

  function DriverOf(l: Link, items: seq<Item>): (dr: Driver)
    ensures Drives(dr, l, items)
  {
    Driver(l, (t: nat) => Boot(l, t, items), (t: nat) => Probe(l, t), (t: nat) => Finale(l, t))
  }

  /** `dr` is what link `l` does for firmware `items`. */
  ghost predicate Drives(dr: Driver, l: Link, items: seq<Item>)
  {
    && dr.link == l
    && (forall u {:trigger Boot(l, u, items)} :: dr.boot(u) == Boot(l, u, items))
    && (forall u {:trigger Probe(l, u)} :: dr.probe(u) == Probe(l, u))
    && (forall u {:trigger Finale(l, u)} :: dr.finale(u) == Finale(l, u))
  }

  /**
   * A pass from trace position `t`: open the device and bootload, either of
   * which is fatal when it fails; then wake the controller (its failure is
   * ignored) and read the 16-byte `D9` status report.
   */
  function PassAt(dr: Driver, t: nat): Pass
  {
    if !Ok(dr.link, t, Open) then Fatal([Open])
    else Prefix([Open], Booted(dr, t + 1))
  }

  /** The pass once the device is open: the bootload, then the status probe. */
  function Booted(dr: Driver, t: nat): Pass
  {
    var b := dr.boot(t);
    if !b.ok then Fatal(b.ops) else Prefix(b.ops, dr.probe(t + |b.ops|))
  }

  /**
   * The status buffer after a report read into it: the bytes delivered, then
   * what it held (a read never delivers more than the buffer holds).
   */
  function Refill(data: seq<Byte>, d9: seq<Byte>): (r: seq<Byte>)
    ensures |r| == |d9|
  {
    if |data| >= |d9| then data[..|d9|] else data + d9[|data|..]
  }

  /** `fatal`, `st` and the status buffer, `before` and `after`, are what pass `p` yields. */
  predicate Yields(p: Pass, fatal: bool, st: int, before: seq<Byte>, after: seq<Byte>)
  {
    && fatal == p.Fatal?
    && (p.Status? ==> st == p.rep.status && after == Refill(p.rep.data, before))
  }

  /**
   * The start-up from trace position `t` with `retries` retries left and the
   * status buffer holding `d9`: a pass; when its status read fails, close the
   * device and start again while retries are left; when it succeeds, hand
   * over the metrics, write report `AF` and announce readiness.
   */
  function Attempts(dr: Driver, t: nat, d9: seq<Byte>, retries: nat): (r: Outcome)
    requires |d9| == 16
    ensures r.status == 0 || r.status == 1
    decreases retries, 1
  {
    After(dr, t, PassAt(dr, t), d9, retries)
  }

  /** The start-up once pass `p`, which started at trace position `t`, is over. */
  function After(dr: Driver, t: nat, p: Pass, d9: seq<Byte>, retries: nat): (r: Outcome)
    requires |d9| == 16
    ensures r.status == 0 || r.status == 1
    decreases retries, 0
  {
    if p.Fatal? then Outcome(p.ops, 1)
    else
      var buf := Refill(p.rep.data, d9);
      var t4 := t + |p.ops|;
      if p.rep.status != 0 then
        if retries == 0 then Outcome(p.ops, 1)
        else
          var next := Attempts(dr, t4 + 1, buf, retries - 1);
          Outcome(p.ops + [Close] + next.ops, next.status)
      else
        Outcome(p.ops + [Ioctl(SetMetrics(MetricsOf(buf)))] + dr.finale(t4 + 1).ops + [Ioctl(Ready)], 0)
  }

  /** The number of times the calls open the device. */
  function Opens(ops: seq<Op>): nat
  {
    if ops == [] then 0 else (if ops[0] == Open then 1 else 0) + Opens(ops[1..])
  }

  /** None of the calls opens the device. */
  predicate Quiet(ops: seq<Op>)
  {
    forall k | 0 <= k < |ops| :: ops[k] != Open
  }

  lemma {:induction false} QuietNone(ops: seq<Op>)
    requires Quiet(ops)
    ensures Opens(ops) == 0
  {
    if ops != [] {
      QuietNone(ops[1..]);
    }
  }

  lemma OpensSingle(op: Op)
    ensures Opens([op]) == if op == Open then 1 else 0
  {
    assert [op][1..] == [];
  }

  lemma {:induction false} OpensJoin(a: seq<Op>, b: seq<Op>)
    ensures Opens(a + b) == Opens(a) + Opens(b)
  {
    if a == [] {
      assert a + b == b;
    } else {
      OpensJoin(a[1..], b);
      assert (a + b)[1..] == a[1..] + b;
    }
  }

  /** Apart from `open` itself, the driver's runs never open the device. */
  ghost predicate QuietDriver(dr: Driver)
  {
    && (forall u :: Opens(dr.boot(u).ops) == 0)
    && (forall u :: Opens(dr.probe(u).ops) == 0)
    && (forall u :: Opens(dr.finale(u).ops) == 0)
  }

  /** A pass opens the device once. */
  lemma PassOpens(dr: Driver, t: nat)
    requires QuietDriver(dr)
    ensures Opens(PassAt(dr, t).ops) == 1
  {
    OpensSingle(Open);
    if Ok(dr.link, t, Open) {
      var b := dr.boot(t + 1);
      var p := Booted(dr, t + 1);
      if b.ok {
        OpensJoin(b.ops, dr.probe(t + 1 + |b.ops|).ops);
      }
      OpensJoin([Open], p.ops);
    }
  }

  /**
   * The device is opened at most `retries + 1` times: a failed status read
   * is retried at most `retries` times.
   */
  lemma {:induction false} AttemptsOpens(dr: Driver, t: nat, d9: seq<Byte>, retries: nat)
    requires |d9| == 16 && QuietDriver(dr)
    ensures Opens(Attempts(dr, t, d9, retries).ops) <= retries + 1
    decreases retries, 1
  {
    PassOpens(dr, t);
    AfterOpens(dr, t, PassAt(dr, t), d9, retries);
  }

  lemma {:induction false} AfterOpens(dr: Driver, t: nat, p: Pass, d9: seq<Byte>, retries: nat)
    requires |d9| == 16 && QuietDriver(dr) && Opens(p.ops) == 1
    ensures Opens(After(dr, t, p, d9, retries).ops) <= retries + 1
    decreases retries, 0
  {
    var r := After(dr, t, p, d9, retries);
    if p.Status? {
      var buf := Refill(p.rep.data, d9);
      var t4 := t + |p.ops|;
      if p.rep.status != 0 {
        if retries > 0 {
          var next := Attempts(dr, t4 + 1, buf, retries - 1).ops;
          assert r.ops == p.ops + [Close] + next;
          AttemptsOpens(dr, t4 + 1, buf, retries - 1);
          RetryOpens(p.ops, next);
        } else {
          assert r.ops == p.ops;
        }
      } else {
        var f := dr.finale(t4 + 1).ops;
        assert r.ops == p.ops + [Ioctl(SetMetrics(MetricsOf(buf)))] + f + [Ioctl(Ready)];
        assert Opens(f) == 0;
        DoneOpens(p.ops, SetMetrics(MetricsOf(buf)), f);
      }
    } else {
      assert r.ops == p.ops;
    }
  }

  /** A pass, `close`, then the next attempt. */
  lemma RetryOpens(a: seq<Op>, next: seq<Op>)
    ensures Opens(a + [Close] + next) == Opens(a) + Opens(next)
  {
    OpensSingle(Close);
    OpensJoin(a, [Close]);
    OpensJoin(a + [Close], next);
  }

  /** A pass, the metrics ioctl, the calls `f` and the ready ioctl. */
  lemma DoneOpens(a: seq<Op>, m: Req, f: seq<Op>)
    ensures Opens(a + [Ioctl(m)] + f + [Ioctl(Ready)]) == Opens(a) + Opens(f)
  {
    OpensSingle(Ioctl(m));
    OpensSingle(Ioctl(Ready));
    OpensJoin(a, [Ioctl(m)]);
    OpensJoin(a + [Ioctl(m)], f);
    OpensJoin(a + [Ioctl(m)] + f, [Ioctl(Ready)]);
  }

  /** The bootload, the status probe and the write of report `AF` never open the device. */
  lemma DriverQuiet(dr: Driver, l: Link, items: seq<Item>)
    requires Drives(dr, l, items)
    ensures QuietDriver(dr)
  {
    forall u
      ensures Opens(dr.boot(u).ops) == 0
    {
      BootQuiet(l, u, items);
      QuietNone(dr.boot(u).ops);
    }
    forall u
      ensures Opens(dr.probe(u).ops) == 0
    {
      ProbeQuiet(l, u);
      QuietNone(dr.probe(u).ops);
    }
    forall u
      ensures Opens(dr.finale(u).ops) == 0
    {
      FinaleQuiet(l, u);
      QuietNone(dr.finale(u).ops);
    }
  }

  /** The start-up of `main` bootloads at most four times: once, then once per retry. */
  lemma StartUpOpens(dr: Driver, l: Link, items: seq<Item>, t: nat, d9: seq<Byte>)
    requires |d9| == 16 && Drives(dr, l, items)
    ensures Opens(Attempts(dr, t, d9, RETRIES).ops) <= 4
  {
    DriverQuiet(dr, l, items);
    AttemptsOpens(dr, t, d9, RETRIES);
  }

  lemma ProbeQuiet(l: Link, t: nat)
    ensures Quiet(Probe(l, t).ops)
  {
    WakingQuiet(l, t, Cmd(WAKE_CMD, 0, 0), Cmd(REP_INFO, 0xD9, 0));
  }

  lemma WakingQuiet(l: Link, t: nat, wake: seq<Byte>, info: seq<Byte>)
    requires |wake| == 16 && |info| == 16
    ensures Quiet(Waking(l, t, wake, info).ops)
  {
    var w := Z2Run(l, t, wake).ops;
    var rep := Reading(l, t + |w|, info, 16);
    WakingIs(l, t, wake, info, w, rep);
    Z2Quiet(l, t, wake);
    ReadingQuiet(l, t + |w|, info, 16);
    QuietJoin(w, rep.ops);
  }

  /** A bootload failure is fatal at once: nothing follows it and the status is 1. */
  lemma BootFatal(dr: Driver, t: nat, d9: seq<Byte>, retries: nat)
    requires |d9| == 16 && Ok(dr.link, t, Open) && !dr.boot(t + 1).ok
    ensures Attempts(dr, t, d9, retries) == Outcome([Open] + dr.boot(t + 1).ops, 1)
  {
  }

  // The calls other than `open` never open the device.

  lemma ExecQuiet(l: Link, t: nat, ops: seq<Op>)
    requires Quiet(ops)
    ensures Quiet(Exec(l, t, ops).ops)
  {
    var r := Exec(l, t, ops);
    ExecMeaning(l, t, ops);
    ExecFailure(l, t, ops);
    if !r.ok {
      assert ops == r.ops + ops[|r.ops|..];
    }
  }

  lemma QuietJoin(a: seq<Op>, b: seq<Op>)
    requires Quiet(a) && Quiet(b)
    ensures Quiet(a + b)
  {
  }

  lemma ThenQuiet(a: Run, b: Run)
    requires Quiet(a.ops) && Quiet(b.ops)
    ensures Quiet(Then(a, b).ops)
  {
  }

  lemma Z2Quiet(l: Link, t: nat, cmd: seq<Byte>)
    requires |cmd| >= 14
    ensures Quiet(Z2Run(l, t, cmd).ops)
  {
    ExecQuiet(l, t, Z2(Framed(cmd)));
  }

  lemma XferQuiet(l: Link, t: nat, out: seq<Byte>, n: nat)
    ensures Quiet(Exec(l, t, Xfer(out, n)).ops)
  {
    ExecQuiet(l, t, Xfer(out, n));
  }

  lemma ReadingQuiet(l: Link, t: nat, c: seq<Byte>, cap: nat)
    requires |c| == 16
    ensures Quiet(Reading(l, t, c, cap).ops)
  {
    Z2Quiet(l, t, c);
    Z2Quiet(l, t + 4, c);
    var a := Then(Z2Run(l, t, c), Z2Run(l, t + 4, c));
    ThenQuiet(Z2Run(l, t, c), Z2Run(l, t + 4, c));
    if a.ok {
      var x := Answer(l, t + 8, c, Reply(l, t + 6, 16), cap);
      AnswerQuiet(l, t + 8, c, Reply(l, t + 6, 16), cap);
      QuietJoin(a.ops, x.ops);
    }
  }

  lemma AnswerQuiet(l: Link, t: nat, c: seq<Byte>, rsp: seq<Byte>, cap: nat)
    requires |c| == 16 && |rsp| == 16
    ensures Quiet(Answer(l, t, c, rsp, cap).ops)
  {
    if rsp[2] == 0 {
      FetchQuiet(l, t, c, Min(GetLe16(rsp[3], rsp[4]), cap));
    }
  }

  lemma FetchQuiet(l: Link, t: nat, c: seq<Byte>, rlen: nat)
    requires |c| == 16
    ensures Quiet(Fetch(l, t, c, rlen).ops)
  {
    if rlen <= 11 {
      Z2Quiet(l, t, c[0 := CTRL_READ_SHORT]);
      Z2Quiet(l, t + 4, c[0 := CMD_LAST][1 := 0]);
      ThenQuiet(Z2Run(l, t, c[0 := CTRL_READ_SHORT]), Z2Run(l, t + 4, c[0 := CMD_LAST][1 := 0]));
    } else {
      Z2Quiet(l, t, LongCmd(c, rlen));
      XferQuiet(l, t + 4, Filler(rlen + 5), rlen + 5);
      ThenQuiet(Z2Run(l, t, LongCmd(c, rlen)), Exec(l, t + 4, Xfer(Filler(rlen + 5), rlen + 5)));
    }
  }

  lemma FinaleQuiet(l: Link, t: nat)
    ensures Quiet(Finale(l, t).ops)
  {
    var c := WriteCmd(0xAF, [0]);
    Z2Quiet(l, t, c);
    Z2Quiet(l, t + 4, Terminator(c));
    ThenQuiet(Z2Run(l, t, c), Z2Run(l, t + 4, Terminator(c)));
  }

  lemma {:induction false} ChunksQuiet(d: seq<Byte>, i: nat)
    ensures Quiet(ChunksFrom(d, i))
    decreases |d| - i
  {
    if i < |d| {
      ChunksQuiet(d, i + MAX_DATA_CHUNK);
      QuietJoin(ChunkAt(d, i), ChunksFrom(d, i + MAX_DATA_CHUNK));
    }
  }

  lemma ItemQuiet(it: Item)
    ensures Quiet(ItemOps(it))
  {
    if it.kind == WRITE || it.kind == WRITE_ACK {
      ChunksQuiet(it.data, 0);
      var tail := if it.kind == WRITE_ACK then Ack() else [];
      QuietJoin([Ioctl(SetCs(1))], ChunksFrom(it.data, 0));
      QuietJoin([Ioctl(SetCs(1))] + ChunksFrom(it.data, 0), [Ioctl(SetCs(0))]);
      QuietJoin(Wrapped(it.data), tail);
    }
  }

  lemma {:induction false} ItemsQuiet(items: seq<Item>)
    ensures Quiet(ItemsOps(items))
  {
    if items != [] {
      ItemsQuiet(items[..|items| - 1]);
      ItemQuiet(items[|items| - 1]);
      QuietJoin(ItemsOps(items[..|items| - 1]), ItemOps(items[|items| - 1]));
    }
  }

  lemma BootQuiet(l: Link, t: nat, items: seq<Item>)
    ensures Quiet(Boot(l, t, items).ops)
  {
    ExecQuiet(l, t, Prologue());
    ItemsQuiet(items);
    var x := Xfer([0, 0, 0, 0], 4) + ItemsOps(items);
    QuietJoin(Xfer([0, 0, 0, 0], 4), ItemsOps(items));
    ExecQuiet(l, t + 6, x);
    var a := Exec(l, t, Prologue());
    if a.ok {
      var b := Exec(l, t + 6, x);
      QuietJoin(a.ops, [Ioctl(WaitIrq(500))]);
      QuietJoin(a.ops + [Ioctl(WaitIrq(500))], b.ops);
    }
  }

  // ---------------------------------------------------------------------------
  // main

  /**
   * `main`: chooses the firmware, then runs the start-up with its three
   * retries; the status buffer starts out holding `d9` (it is not
   * initialised).
   */
  method Daemon(dev: Device, args: seq<string>, list: Option<string>, present: string -> bool,
                files: string -> Option<seq<XNode>>, store: Mtfw.Store,
                parse: seq<Byte> -> Option<seq<XNode>>, d9: seq<Byte>) returns (status: int)
    requires FilesLinked(files) && Mtfw.ParsesLinked(parse) && Mtfw.Fits(store)
    requires |d9| == 16
    modifies dev
    ensures var fw := Chosen(args, list, present, files, store, parse);
      && (fw.None? ==> status == 1 && dev.trace == old(dev.trace))
      && (fw.Some? ==>
            var o := Attempts(DriverOf(dev.link, fw.value), |old(dev.trace)|, d9, RETRIES);
            dev.trace == old(dev.trace) + o.ops && status == o.status)
  {
    if |args| != 2 && |args| != 3 {
      return 1;
    }
    var fw: Option<seq<Item>>;
    if |args| == 3 {
      fw := Mtfw.LoadFirmware(args[0], files(args[1]), store, parse);
    } else {
      if list.None? {
        return 1;
      }
      fw := ChooseFromList(list.value, present, files, store, parse);
    }
    if fw.None? {
      return 1;
    }
    status := StartUp(dev, fw.value, d9, DriverOf(dev.link, fw.value));
  }

  /** The retry loop of `main` and what follows it. */
  method StartUp(dev: Device, items: seq<Item>, d9init: seq<Byte>, ghost dr: Driver) returns (status: int)
    requires |d9init| == 16 && Drives(dr, dev.link, items)
    modifies dev
    ensures var o := Attempts(dr, |old(dev.trace)|, d9init, RETRIES);
      dev.trace == old(dev.trace) + o.ops && status == o.status
  {
    ghost var goal := Attempts(dr, |dev.trace|, d9init, RETRIES);
    var d9 := new Byte[16](i requires 0 <= i < 16 => d9init[i]);
    assert d9[..] == d9init;
    var retries := RETRIES;
    while true
      invariant d9.Length == 16 && Drives(dr, dev.link, items)
      invariant old(dev.trace) + goal.ops == dev.trace + Attempts(dr, |dev.trace|, d9[..], retries).ops
      invariant goal.status == Attempts(dr, |dev.trace|, d9[..], retries).status
      decreases retries
    {
      var again;
      status, again := Attempt(dev, items, d9, retries, dr);
      if !again {
        return;
      }
      retries := retries - 1;
    }
  }

  /**
   * One pass from the `retry` label: returns `again` when the status read
   * failed and a retry is left, after closing the device; otherwise the
   * status of `main`.
   */
  method Attempt(dev: Device, items: seq<Item>, d9: array<Byte>, retries: nat, ghost dr: Driver)
    returns (status: int, again: bool)
    requires d9.Length == 16 && Drives(dr, dev.link, items)
    modifies dev, d9
    ensures var o := Attempts(dr, |old(dev.trace)|, old(d9[..]), retries);
      if again then
        retries > 0 &&
        var next := Attempts(dr, |dev.trace|, d9[..], retries - 1);
        old(dev.trace) + o.ops == dev.trace + next.ops && o.status == next.status
      else dev.trace == old(dev.trace) + o.ops && status == o.status
  {
    ghost var o := dev.trace;
    ghost var before := d9[..];
    var fatal, st := OnePass(dev, items, d9, dr);
    status, again := Decide(dev, items, d9, retries, fatal, st, dr, o, PassAt(dr, |o|), before);
  }

  /**
   * What follows pass `p`, which the calls `o` preceded and which turned the
   * status buffer from `before` into `d9`: give up, retry after closing the
   * device, or finish.
   */
  method Decide(dev: Device, items: seq<Item>, d9: array<Byte>, retries: nat, fatal: bool, st: int,
                ghost dr: Driver, ghost o: seq<Op>, ghost p: Pass, ghost before: seq<Byte>)
    returns (status: int, again: bool)
    requires d9.Length == 16 && |before| == 16 && Drives(dr, dev.link, items)
    requires dev.trace == o + p.ops && Yields(p, fatal, st, before, d9[..])
    modifies dev
    ensures var out := After(dr, |o|, p, before, retries);
      if again then
        retries > 0 &&
        var next := Attempts(dr, |dev.trace|, d9[..], retries - 1);
        o + out.ops == dev.trace + next.ops && out.status == next.status
      else dev.trace == o + out.ops && status == out.status
  {
    if fatal {
      return 1, false;
    }
    if st != 0 {
      if retries == 0 {
        return 1, false;
      }
      var ok, data := dev.Call(Close);
      AfterRetry(dr, o, p, before, d9[..], retries);
      return 1, true;
    }
    status := Finish(dev, d9[..], items, dr);
    again := false;
    AfterDone(dr, o, p, before, d9[..], retries);
  }

  lemma AfterRetry(dr: Driver, o: seq<Op>, p: Pass, before: seq<Byte>, after: seq<Byte>, retries: nat)
    requires |before| == 16 && p.Status? && p.rep.status != 0 && retries > 0
    requires after == Refill(p.rep.data, before)
    ensures var out := After(dr, |o|, p, before, retries);
      var trace := o + p.ops + [Close];
      var next := Attempts(dr, |trace|, after, retries - 1);
      o + out.ops == trace + next.ops && out.status == next.status
  {
    var next := Attempts(dr, |o| + |p.ops| + 1, after, retries - 1);
    Regroup(o, p.ops + [Close], next.ops);
    Regroup(o, p.ops, [Close]);
  }

  lemma AfterDone(dr: Driver, o: seq<Op>, p: Pass, before: seq<Byte>, after: seq<Byte>, retries: nat)
    requires |before| == 16 && p.Status? && p.rep.status == 0
    requires after == Refill(p.rep.data, before)
    ensures var out := After(dr, |o|, p, before, retries);
      var t := |o| + |p.ops|;
      o + out.ops == o + p.ops + [Ioctl(SetMetrics(MetricsOf(after)))] + dr.finale(t + 1).ops + [Ioctl(Ready)]
      && out.status == 0
  {
    var m := [Ioctl(SetMetrics(MetricsOf(after)))];
    var f := dr.finale(|o| + |p.ops| + 1).ops;
    assert o + (p.ops + m + f + [Ioctl(Ready)]) == o + p.ops + m + f + [Ioctl(Ready)];
  }

  /**
   * The part of a pass that needs no decision: open, bootload, wake, read the
   * status report into `d9`. `fatal` tells an open or bootload failure; `st`
   * is the status of the report read.
   */
  method OnePass(dev: Device, items: seq<Item>, d9: array<Byte>, ghost dr: Driver) returns (fatal: bool, st: int)
    requires d9.Length == 16 && Drives(dr, dev.link, items)
    modifies dev, d9
    ensures var p := PassAt(dr, |old(dev.trace)|);
      dev.trace == old(dev.trace) + p.ops && Yields(p, fatal, st, old(d9[..]), d9[..])
  {
    ghost var o := dev.trace;
    var ok, data := dev.Call(Open);
    if !ok {
      return true, 1;
    }
    fatal, st := BootAndProbe(dev, items, d9, dr);
    Regroup(o, [Open], Booted(dr, |o| + 1).ops);
  }

  /** The bootload of an open device, then the status probe. */
  method BootAndProbe(dev: Device, items: seq<Item>, d9: array<Byte>, ghost dr: Driver) returns (fatal: bool, st: int)
    requires d9.Length == 16 && Drives(dr, dev.link, items)
    modifies dev, d9
    ensures var p := Booted(dr, |old(dev.trace)|);
      dev.trace == old(dev.trace) + p.ops && Yields(p, fatal, st, old(d9[..]), d9[..])
  {
    ghost var o := dev.trace;
    ghost var held := d9[..];
    var r := BootStep(dev, items, dr);
    if r != 0 {
      return true, 1;
    }
    ghost var b := dr.boot(|o|);
    st := Probing(dev, d9, items, dr);
    fatal := false;
    Compose(o, b, dr.probe(|o| + |b.ops|), dev.trace, st, held, d9[..]);
  }

  /** The bootload, as the driver's run from the current trace position. */
  method BootStep(dev: Device, items: seq<Item>, ghost dr: Driver) returns (r: int)
    requires Drives(dr, dev.link, items)
    modifies dev
    ensures var b := dr.boot(|old(dev.trace)|);
      dev.trace == old(dev.trace) + b.ops && (r == 0 <==> b.ok)
  {
    ghost var t := |dev.trace|;
    r := Bootload(dev, items);
    assert dr.boot(t) == Boot(dev.link, t, items);
  }

  /** The wake command, then the read of report `D9` into `d9`, as the driver's probe. */
  method Probing(dev: Device, d9: array<Byte>, ghost items: seq<Item>, ghost dr: Driver) returns (st: int)
    requires d9.Length == 16 && Drives(dr, dev.link, items)
    modifies dev, d9
    ensures var p := dr.probe(|old(dev.trace)|);
      dev.trace == old(dev.trace) + p.ops && Yields(p, false, st, old(d9[..]), d9[..])
  {
    ghost var t := |dev.trace|;
    st := Wake(dev, d9);
    assert dr.probe(t) == Probe(dev.link, t);
  }

  /** The wake command, then the read of report `D9` into `d9`. */
  method Wake(dev: Device, d9: array<Byte>) returns (st: int)
    requires d9.Length == 16
    modifies dev, d9
    ensures var p := Probe(dev.link, |old(dev.trace)|);
      dev.trace == old(dev.trace) + p.ops && Yields(p, false, st, old(d9[..]), d9[..])
  {
    ghost var o := dev.trace;
    ghost var held := d9[..];
    var r := SendWake(dev);
    ghost var w := dev.trace[|o|..];
    assert dev.trace == o + w;
    var len;
    st, len := ReadReport(dev, 0xD9, d9, 16);
    ghost var rep := Report(dev.link, |o| + |w|, 0xD9, 16);
    WakingIs(dev.link, |o|, Cmd(WAKE_CMD, 0, 0), Cmd(REP_INFO, 0xD9, 0), w, rep);
    ProbePass(o, w, rep, dev.trace, st, held, d9[..]);
  }

  /** The pass of `Waking` is the wake command's calls `w`, then the report read `rep`. */
  lemma WakingIs(l: Link, t: nat, wake: seq<Byte>, info: seq<Byte>, w: seq<Op>, rep: Reported)
    requires |wake| == 16 && |info| == 16
    requires w == Z2Run(l, t, wake).ops && rep == Reading(l, t + |w|, info, 16)
    ensures Waking(l, t, wake, info) == Probed(w, rep)
  {
  }

  /** The bootload `b`, then the probe `q`, after the calls `o`. */
  lemma Compose(o: seq<Op>, b: Run, q: Pass, trace: seq<Op>, st: int, before: seq<Byte>, after: seq<Byte>)
    requires q.Status?
    requires trace == o + b.ops + q.ops && Yields(q, false, st, before, after)
    ensures var p := Prefix(b.ops, q);
      trace == o + p.ops && Yields(p, false, st, before, after)
  {
    Regroup(o, b.ops, q.ops);
  }

  lemma ProbePass(o: seq<Op>, w: seq<Op>, rep: Reported, trace: seq<Op>, st: int, before: seq<Byte>, after: seq<Byte>)
    requires |before| == 16 && |rep.data| <= 16
    requires trace == o + w + rep.ops && st == rep.status && after == rep.data + before[|rep.data|..]
    ensures var p := Probed(w, rep);
      trace == o + p.ops && Yields(p, false, st, before, after)
  {
    Regroup(o, w, rep.ops);
    if |rep.data| == 16 {
      assert after == rep.data;
    }
  }

  /** After the status report: the metrics ioctl, the write of report `AF`, the ready ioctl. */
  method Finish(dev: Device, d9: seq<Byte>, ghost items: seq<Item>, ghost dr: Driver) returns (status: int)
    requires |d9| == 16 && Drives(dr, dev.link, items)
    modifies dev
    ensures dev.trace == old(dev.trace) + [Ioctl(SetMetrics(MetricsOf(d9)))] + dr.finale(|old(dev.trace)| + 1).ops
      + [Ioctl(Ready)]
    ensures status == 0
  {
    var m := Metrics(Signed16(GetLe16(d9[8], d9[9])), Signed16(GetLe16(d9[12], d9[13])),
                     Signed16(GetLe16(d9[14], d9[15])), Signed16(GetLe16(d9[10], d9[11])));
    var ok, data := dev.Call(Ioctl(SetMetrics(m)));
    var r := WriteReport(dev, 0xAF, [0]);
    ok, data := dev.Call(Ioctl(Ready));
    status := 0;
    assert dr.finale(|old(dev.trace)| + 1) == Finale(dev.link, |old(dev.trace)| + 1);
  }
}
