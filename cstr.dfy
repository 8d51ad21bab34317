// The C library string semantics the programs rely on: the `strcmp` order on
// NUL-free strings, `strtoull`/`strtoul` with base 0, and the decimal rendering
// of `printf("%llu")`.
module CStr {
  import opened Bytes

  /** `strcmp(a, b) < 0`: lexicographic order on characters, a proper prefix first. */
  predicate Less(a: string, b: string)
  {
    if |a| == 0 then |b| > 0
    else if |b| == 0 then false
    else if a[0] != b[0] then a[0] < b[0]
    else Less(a[1..], b[1..])
  }

  lemma {:induction false} LessIrreflexive(a: string)
    ensures !Less(a, a)
  {
    if |a| > 0 {
      LessIrreflexive(a[1..]);
    }
  }

  lemma {:induction false} LessAsymmetric(a: string, b: string)
    ensures Less(a, b) ==> !Less(b, a)
  {
    if |a| > 0 && |b| > 0 && a[0] == b[0] {
      LessAsymmetric(a[1..], b[1..]);
    }
  }

  lemma {:induction false} LessTotal(a: string, b: string)
    ensures a == b || Less(a, b) || Less(b, a)
  {
    if |a| > 0 && |b| > 0 && a[0] == b[0] {
      LessTotal(a[1..], b[1..]);
      if a[1..] == b[1..] {
        assert a == [a[0]] + a[1..] && b == [b[0]] + b[1..];
      }
    }
  }

  lemma {:induction false} LessTransitive(a: string, b: string, c: string)
    requires Less(a, b) && Less(b, c)
    ensures Less(a, c)
  {
    if |a| > 0 && a[0] == b[0] && b[0] == c[0] {
      LessTransitive(a[1..], b[1..], c[1..]);
    }
  }

  /** `isspace` in the C locale. */
  predicate IsSpace(c: char)
  {
    c == ' ' || c == '\t' || c == '\n' || c == '\r' || c == '\U{B}' || c == '\U{C}'
  }

  /** The value of a digit or letter in bases up to 36, or 36 for anything else. */
  function DigitValue(c: char): (r: nat)
    ensures r <= 36
  {
    if '0' <= c <= '9' then c as int - '0' as int
    else if 'a' <= c <= 'z' then c as int - 'a' as int + 10
    else if 'A' <= c <= 'Z' then c as int - 'A' as int + 10
    else 36
  }

  /** Length of the longest prefix of `s` made of digits of `base`. */
  function DigitRun(s: string, base: nat): (n: nat)
    ensures n <= |s|
    ensures forall i | 0 <= i < n :: DigitValue(s[i]) < base
    ensures n < |s| ==> DigitValue(s[n]) >= base
  {
    if s == [] || DigitValue(s[0]) >= base then 0 else 1 + DigitRun(s[1..], base)
  }

  /** The number written by the digits `s` in `base`, most significant first. */
  function DigitsValue(s: string, base: nat): nat
  {
    if s == [] then 0
    else DigitsValue(s[..|s| - 1], base) * base + (if DigitValue(s[|s| - 1]) < base then DigitValue(s[|s| - 1]) else 0)
  }

  /** Skips leading white space. */
  function SkipSpace(s: string): (r: string)
    ensures |r| <= |s| && r == s[|s| - |r|..]
    ensures r == [] || !IsSpace(r[0])
  {
    if s != [] && IsSpace(s[0]) then SkipSpace(s[1..]) else s
  }

  /** The base `strtoull` chooses for base 0: `0x`/`0X` is 16, a leading `0` is 8, else 10. */
  function AutoBase(u: string): (b: nat)
    ensures b == 8 || b == 10 || b == 16
  {
    if |u| >= 2 && u[0] == '0' && (u[1] == 'x' || u[1] == 'X') then 16
    else if u != [] && u[0] == '0' then 8
    else 10
  }

  /** The magnitude read from the unsigned part `u` (after any sign). */
  function Magnitude(u: string): nat
  {
    var base := AutoBase(u);
    var digits := if base == 16 then u[2..] else u;
    DigitsValue(digits[..DigitRun(digits, base)], base)
  }

  /**
   * `strtoull(s, NULL, 0)`: optional sign, then the base chosen by `AutoBase`;
   * the longest digit run is read. An out-of-range magnitude gives ULLONG_MAX,
   * a minus sign negates modulo 2^64.
   */
  function Strtoull(s: string): (r: nat)
    ensures r < U64
  {
    var t := SkipSpace(s);
    var neg := t != [] && t[0] == '-';
    var u := if t != [] && (t[0] == '-' || t[0] == '+') then t[1..] else t;
    var v := Magnitude(u);
    if v >= U64 then U64 - 1
    else if neg then (U64 - v) % U64
    else v
  }

  /** The decimal digits of `n` (what `printf("%llu")` prints). */
  function Decimal(n: nat): (r: string)
    ensures |r| >= 1
    ensures forall i | 0 <= i < |r| :: '0' <= r[i] <= '9'
    ensures n > 0 ==> r[0] != '0'
  {
    if n < 10 then [('0' as int + n) as char]
    else Decimal(n / 10) + [('0' as int + n % 10) as char]
  }

  lemma {:induction false} DecimalValue(n: nat)
    ensures DigitsValue(Decimal(n), 10) == n
  {
    if n >= 10 {
      DecimalValue(n / 10);
      assert Decimal(n)[..|Decimal(n)| - 1] == Decimal(n / 10);
    }
  }

  lemma {:induction false} DigitRunAll(s: string, base: nat)
    requires forall i | 0 <= i < |s| :: DigitValue(s[i]) < base
    ensures DigitRun(s, base) == |s|
  {
    if s != [] {
      DigitRunAll(s[1..], base);
    }
  }

  lemma MagnitudeDecimal(n: nat)
    ensures Magnitude(Decimal(n)) == n
  {
    var d := Decimal(n);
    if n == 0 {
      assert d == ['0'];
      assert AutoBase(d) == 8 && DigitRun(d, 8) == 1 && d[..1] == d;
      assert DigitsValue(d, 8) == DigitsValue([], 8) * 8 + 0;
    } else {
      assert AutoBase(d) == 10;
      DigitRunAll(d, 10);
      assert d[..|d|] == d;
      DecimalValue(n);
    }
  }

  /** Reading back what `%llu` prints gives the number: `strtoull` inverts `Decimal`. */
  lemma StrtoullDecimal(n: nat)
    requires n < U64
    ensures Strtoull(Decimal(n)) == n
  {
    var d := Decimal(n);
    assert !IsSpace(d[0]) && d[0] != '-' && d[0] != '+';
    assert SkipSpace(d) == d;
    MagnitudeDecimal(n);
  }
}
