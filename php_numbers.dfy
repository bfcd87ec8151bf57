/** The PHP numeric-string behaviour the importer relies on, restricted to
    plain decimal literals: is_numeric(), the (int) cast and
    number_format($x, 2, '.', ''). Exponents, hexadecimal forms, integer
    overflow and binary floating point are not modelled; arithmetic is exact. */
module PhpNumbers {
  import opened Wrappers

  predicate IsDigit(c: char) { '0' <= c <= '9' }

  function DigitValue(c: char): (d: nat)
    requires IsDigit(c)
    ensures d < 10
  {
    c as int - '0' as int
  }

  function DigitChar(d: nat): (c: char)
    requires d < 10
    ensures IsDigit(c) && DigitValue(c) == d
  {
    ('0' as int + d) as char
  }

  predicate AllDigits(s: string) {
    forall k :: 0 <= k < |s| ==> IsDigit(s[k])
  }

  /** The value of a digit string, most significant digit first. */
  function DigitsValue(s: string): nat
    requires AllDigits(s)
    decreases |s|
  {
    if s == [] then 0 else DigitsValue(s[..|s| - 1]) * 10 + DigitValue(s[|s| - 1])
  }

  /** A digit string without superfluous leading zeros. */
  predicate IsCanonicalDigits(s: string) {
    |s| >= 1 && AllDigits(s) && (s[0] == '0' ==> |s| == 1)
  }

  /** Decimal rendering of a natural number: canonical digits denoting n. */
  function NatToString(n: nat): (s: string)
    ensures IsCanonicalDigits(s) && DigitsValue(s) == n
    decreases n
  {
    if n < 10 then [DigitChar(n)]
    else
      var init := NatToString(n / 10);
      assert init[0] != '0' by {
        if |init| == 1 { assert init[..0] == []; }
      }
      var s := init + [DigitChar(n % 10)];
      assert s[..|s| - 1] == init;
      s
  }

  lemma {:induction false} LeadingNonZero(s: string)
    requires AllDigits(s) && |s| >= 1 && s[0] != '0'
    ensures DigitsValue(s) >= 1
    decreases |s|
  {
    if |s| > 1 {
      assert s[..|s| - 1][0] == s[0];
      LeadingNonZero(s[..|s| - 1]);
    }
  }

  /** Rendering inverts evaluation on canonical digit strings. */
  lemma {:induction false} NatToStringOfValue(s: string)
    requires IsCanonicalDigits(s)
    ensures NatToString(DigitsValue(s)) == s
    decreases |s|
  {
    if |s| > 1 {
      var init := s[..|s| - 1];
      assert init[0] == s[0];
      LeadingNonZero(init);
      NatToStringOfValue(init);
      var n := DigitsValue(s);
      assert n / 10 == DigitsValue(init) && n % 10 == DigitValue(s[|s| - 1]);
    }
  }

  /** The whitespace PHP skips around numeric strings: space, tab, line feed,
      carriage return, vertical tab and form feed. */
  predicate IsNumericSpace(c: char) {
    c == ' ' || c == '\t' || c == '\n' || c == '\r' || c as int == 0x0B || c as int == 0x0C
  }

  function DropLeadingSpace(s: string): (r: string)
    ensures |r| <= |s| && r == s[|s| - |r|..]
    ensures r == [] || !IsNumericSpace(r[0])
    decreases |s|
  {
    if s != [] && IsNumericSpace(s[0]) then DropLeadingSpace(s[1..]) else s
  }

  function DropTrailingSpace(s: string): (r: string)
    ensures |r| <= |s| && r == s[..|r|]
    ensures r == [] || !IsNumericSpace(r[|r| - 1])
    decreases |s|
  {
    if s != [] && IsNumericSpace(s[|s| - 1]) then DropTrailingSpace(s[..|s| - 1]) else s
  }

  /** The longest prefix of s made of digits. */
  function DigitPrefix(s: string): (r: string)
    ensures AllDigits(r) && |r| <= |s| && r == s[..|r|]
    ensures |r| < |s| ==> !IsDigit(s[|r|])
    decreases |s|
  {
    if s != [] && IsDigit(s[0]) then [s[0]] + DigitPrefix(s[1..]) else []
  }

  /** PHP's (int) cast of a string: leading whitespace is skipped, an optional
      sign is read, then the longest run of digits; anything else yields 0.
      Overflow saturation and exponent forms are not modelled. */
  function IntCast(s: string): int
  {
    var t := DropLeadingSpace(s);
    if t != [] && t[0] == '-' then -(DigitsValue(DigitPrefix(t[1..])) as int)
    else if t != [] && t[0] == '+' then DigitsValue(DigitPrefix(t[1..]))
    else DigitsValue(DigitPrefix(t))
  }

  lemma DigitPrefixOfDigits(s: string)
    requires AllDigits(s)
    ensures DigitPrefix(s) == s
  {
  }

  /** (int) inverts decimal rendering, for both signs. */
  lemma IntCastOfRendering(n: nat)
    ensures IntCast(NatToString(n)) == n
    ensures IntCast("-" + NatToString(n)) == -(n as int)
  {
    var s := NatToString(n);
    DigitPrefixOfDigits(s);
    assert IsDigit(s[0]) && !IsNumericSpace(s[0]);
    assert DropLeadingSpace(s) == s;
    assert s[0] != '-' && s[0] != '+';
    var m := "-" + s;
    assert m[0] == '-' && m[1..] == s;
    assert DropLeadingSpace(m) == m;
  }

  lemma {:induction false} DropLeadingPad(pad: string, s: string)
    requires forall k :: 0 <= k < |pad| ==> IsNumericSpace(pad[k])
    requires s == [] || !IsNumericSpace(s[0])
    ensures DropLeadingSpace(pad + s) == s
    decreases |pad|
  {
    if pad == [] {
      assert pad + s == s;
    } else {
      assert (pad + s)[0] == pad[0];
      assert (pad + s)[1..] == pad[1..] + s;
      DropLeadingPad(pad[1..], s);
    }
  }

  /** A run of digits, possibly after whitespace, casts to its value. */
  lemma IntCastOfDigits(pad: string, s: string)
    requires forall k :: 0 <= k < |pad| ==> IsNumericSpace(pad[k])
    requires AllDigits(s) && |s| >= 1
    ensures IntCast(pad + s) == DigitsValue(s)
  {
    assert IsDigit(s[0]);
    DropLeadingPad(pad, s);
    DigitPrefixOfDigits(s);
  }

  /** Text that does not start, after whitespace, with a sign or a digit
      casts to 0. */
  lemma IntCastOfText(s: string)
    requires var t := DropLeadingSpace(s); t == [] || (!IsDigit(t[0]) && t[0] != '-' && t[0] != '+')
    ensures IntCast(s) == 0
  {
  }

  // ---------------------------------------------------------------------
  // Decimal literals: the part of is_numeric() this model covers.

  /** A decimal literal: its sign and the digits before and after the point. */
  datatype Decimal = Decimal(negative: bool, whole: string, fraction: string)

  predicate WellFormed(d: Decimal) {
    AllDigits(d.whole) && AllDigits(d.fraction) && |d.whole| + |d.fraction| >= 1
  }

  /** Position of the first '.' in s, or |s| when there is none. */
  function IndexOfDot(s: string): (k: nat)
    ensures k <= |s| && (k < |s| ==> s[k] == '.')
    ensures forall j :: 0 <= j < k ==> s[j] != '.'
    decreases |s|
  {
    if s == [] then 0 else if s[0] == '.' then 0 else 1 + IndexOfDot(s[1..])
  }

  /** Reads [+-]digits[.digits], where one of the two digit runs may be empty
      but not both, and nothing may surround it. */
  function ParseDecimal(s: string): (r: Option<Decimal>)
    ensures r.Some? ==> WellFormed(r.value)
  {
    var negative := s != [] && s[0] == '-';
    var body := if s != [] && (s[0] == '-' || s[0] == '+') then s[1..] else s;
    var k := IndexOfDot(body);
    var whole := body[..k];
    var fraction := if k < |body| then body[k + 1..] else "";
    if AllDigits(whole) && AllDigits(fraction) && |whole| + |fraction| >= 1
    then Some(Decimal(negative, whole, fraction))
    else None
  }

  /** The literal of s once the whitespace PHP tolerates at both ends is
      removed. */
  function NumericLiteral(s: string): Option<Decimal> {
    ParseDecimal(DropTrailingSpace(DropLeadingSpace(s)))
  }

  /** is_numeric(), for plain decimal literals. */
  predicate IsNumeric(s: string) {
    NumericLiteral(s).Some?
  }

  function Pow10(n: nat): (p: nat)
    ensures p >= 1
  {
    if n == 0 then 1 else 10 * Pow10(n - 1)
  }

  /** The exact value a decimal literal denotes. */
  function Value(d: Decimal): real
    requires WellFormed(d)
  {
    var magnitude := DigitsValue(d.whole) as real + DigitsValue(d.fraction) as real / Pow10(|d.fraction|) as real;
    if d.negative then -magnitude else magnitude
  }

  /** The value of the literal in s (0 for a non-numeric string). */
  function NumericValue(s: string): real {
    match NumericLiteral(s)
    case Some(d) => Value(d)
    case None => 0.0
  }

  // ---------------------------------------------------------------------
  // number_format($x, 2, '.', '')

  /** The first two fraction digits, rounded half away from zero on the
      third; the result may be 100 (a carry into the whole part). */
  function RoundedCents(fraction: string): (c: nat)
    requires AllDigits(fraction)
    ensures c <= 100
  {
    var p := fraction + "000";
    DigitValue(p[0]) * 10 + DigitValue(p[1]) + (if DigitValue(p[2]) >= 5 then 1 else 0)
  }

  /** The magnitude of d in hundredths, rounded half away from zero. */
  function Cents(d: Decimal): nat
    requires WellFormed(d)
  {
    DigitsValue(d.whole) * 100 + RoundedCents(d.fraction)
  }

  /** Fixed two-decimal notation: an optional '-', at least one digit, '.',
      exactly two digits; no thousands separator. */
  predicate IsFixedTwo(r: string) {
    && |r| >= 4
    && r[|r| - 3] == '.' && IsDigit(r[|r| - 2]) && IsDigit(r[|r| - 1])
    && var w := if r[0] == '-' then r[1..|r| - 3] else r[..|r| - 3];
       |w| >= 1 && AllDigits(w)
  }

  /** The digits of an amount of hundredths, with the point before the last
      two. */
  function UnsignedCents(c: nat): (r: string)
    ensures |r| >= 4 && r[0] != '-' && !IsNumericSpace(r[0]) && IsDigit(r[|r| - 1])
    ensures IsFixedTwo(r)
  {
    var w := NatToString(c / 100);
    var r := w + "." + [DigitChar(c % 100 / 10), DigitChar(c % 10)];
    assert r[..|r| - 3] == w && r[0] == w[0];
    r
  }

  /** Renders an amount of hundredths with two decimals; zero carries no
      sign. */
  function FormatCents(negative: bool, c: nat): (r: string)
    ensures IsFixedTwo(r)
    ensures r[0] == '-' <==> negative && c != 0
  {
    var u := UnsignedCents(c);
    if negative && c != 0 then
      var r := "-" + u;
      assert r[1..|r| - 3] == u[..|u| - 3];
      r
    else u
  }

  /** number_format($s, 2, '.', '') of a numeric string. */
  function NumberFormat2(s: string): (r: string)
    requires IsNumeric(s)
    ensures IsFixedTwo(r)
  {
    var d := NumericLiteral(s).value;
    FormatCents(d.negative, Cents(d))
  }

  lemma NoDotInDigits(s: string)
    requires AllDigits(s)
    ensures IndexOfDot(s) == |s|
  {
  }

  lemma {:induction false} IndexOfDotAppend(a: string, b: string)
    requires forall j :: 0 <= j < |a| ==> a[j] != '.'
    ensures IndexOfDot(a + b) == |a| + IndexOfDot(b)
    decreases |a|
  {
    if a != [] {
      assert (a + b)[0] == a[0] && a[0] != '.';
      assert (a + b)[1..] == a[1..] + b;
      assert IndexOfDot(a + b) == 1 + IndexOfDot(a[1..] + b);
      IndexOfDotAppend(a[1..], b);
    } else {
      assert a + b == b;
    }
  }

  /** An unsigned literal with a point splits there into its two digit
      runs. */
  lemma ParseUnsigned(w: string, f: string)
    requires AllDigits(w) && |w| >= 1 && AllDigits(f)
    ensures ParseDecimal(w + "." + f) == Some(Decimal(false, w, f))
  {
    var body := w + "." + f;
    assert body == w + ("." + f);
    assert body[0] == w[0];
    NoDotInDigits(w);
    IndexOfDotAppend(w, "." + f);
    assert body[..|w|] == w;
    assert body[|w| + 1..] == f;
    UnsignedAt(body, |w|);
  }

  /** An unsigned body whose first dot sits at k parses into the runs on
      either side of it. */
  lemma UnsignedAt(s: string, k: nat)
    requires k < |s| && IndexOfDot(s) == k && s[0] != '-' && s[0] != '+'
    requires AllDigits(s[..k]) && AllDigits(s[k + 1..]) && k >= 1
    ensures ParseDecimal(s) == Some(Decimal(false, s[..k], s[k + 1..]))
  {
  }

  /** A string is the text before its dot, the dot and the text after. */
  lemma SplitAtDot(s: string, k: nat)
    requires k < |s| && s[k] == '.'
    ensures s[..k] + "." + s[k + 1..] == s
  {
    assert s[k..] == [s[k]] + s[k + 1..];
    assert s[..k] + s[k..] == s;
  }

  /** The value of a plain literal is its whole digits plus its fraction
      digits over the matching power of ten. */
  lemma PlainDecimalValue(w: string, f: string)
    requires AllDigits(w) && |w| >= 1 && AllDigits(f) && |f| >= 1
    ensures IsNumeric(w + "." + f)
    ensures NumericValue(w + "." + f) == DigitsValue(w) as real + DigitsValue(f) as real / Pow10(|f|) as real
  {
    PlainDecimal(w, f);
  }

  /** A plain literal digits.digits with no surrounding whitespace. */
  lemma PlainDecimal(w: string, f: string)
    requires AllDigits(w) && |w| >= 1 && AllDigits(f) && |f| >= 1
    ensures NumericLiteral(w + "." + f) == Some(Decimal(false, w, f))
  {
    var s := w + "." + f;
    assert !IsNumericSpace(s[0]) by {
      assert s[0] == w[0];
    }
    assert !IsNumericSpace(s[|s| - 1]) by {
      assert s[|s| - 1] == f[|f| - 1];
    }
    assert DropLeadingSpace(s) == s;
    assert DropTrailingSpace(s) == s;
    ParseUnsigned(w, f);
  }

  /** A leading '-' only flips the sign of an unsigned literal. */
  lemma ParseNegated(body: string)
    requires body != [] && body[0] != '-' && body[0] != '+' && ParseDecimal(body).Some?
    ensures ParseDecimal("-" + body) == Some(ParseDecimal(body).value.(negative := true))
  {
    var m := "-" + body;
    assert m[0] == '-' && m[1..] == body;
  }

  /** The literal a two-decimal rendering of c hundredths reads back as. */
  function RenderedDecimal(negative: bool, c: nat): Decimal {
    Decimal(negative && c != 0, NatToString(c / 100), [DigitChar(c % 100 / 10), DigitChar(c % 10)])
  }

  lemma UnsignedCentsParses(c: nat)
    ensures ParseDecimal(UnsignedCents(c)) == Some(RenderedDecimal(false, c))
  {
    var w := NatToString(c / 100);
    var f := [DigitChar(c % 100 / 10), DigitChar(c % 10)];
    assert UnsignedCents(c) == w + "." + f;
    ParseUnsigned(w, f);
  }

  lemma RenderedCents(negative: bool, c: nat)
    ensures WellFormed(RenderedDecimal(negative, c)) && Cents(RenderedDecimal(negative, c)) == c
  {
    RoundedTwoDigits(RenderedDecimal(negative, c).fraction);
  }

  /** Reading back a two-decimal rendering gives the same sign and amount of
      hundredths. */
  lemma FormatCentsParses(negative: bool, c: nat)
    ensures NumericLiteral(FormatCents(negative, c)) == Some(RenderedDecimal(negative, c))
  {
    var r := FormatCents(negative, c);
    FixedTwoUnpadded(r);
    NoOuterSpace(r);
    ParseRendering(negative, c);
  }

  lemma FixedTwoUnpadded(r: string)
    requires IsFixedTwo(r)
    ensures r != [] && !IsNumericSpace(r[0]) && !IsNumericSpace(r[|r| - 1])
  {
    if r[0] != '-' {
      assert r[0] == r[..|r| - 3][0];
    }
  }

  lemma ParseRendering(negative: bool, c: nat)
    ensures ParseDecimal(FormatCents(negative, c)) == Some(RenderedDecimal(negative, c))
  {
    var u := UnsignedCents(c);
    RenderedSign(negative, c);
    UnsignedCentsParses(c);
    if negative && c != 0 {
      ParseNegated(u);
    }
  }

  /** The sign of a rendering is the only thing `negative` changes. */
  lemma RenderedSign(negative: bool, c: nat)
    ensures RenderedDecimal(negative, c) == RenderedDecimal(false, c).(negative := negative && c != 0)
  {
  }

  lemma NoOuterSpace(r: string)
    requires r != [] && !IsNumericSpace(r[0]) && !IsNumericSpace(r[|r| - 1])
    ensures NumericLiteral(r) == ParseDecimal(r)
  {
    assert DropLeadingSpace(r) == r;
    assert DropTrailingSpace(r) == r;
  }

  lemma RoundedTwoDigits(f: string)
    requires |f| == 2 && AllDigits(f)
    ensures RoundedCents(f) == DigitValue(f[0]) * 10 + DigitValue(f[1])
  {
    var p := f + "000";
    assert p[0] == f[0] && p[1] == f[1] && p[2] == '0';
  }

  /** Formatting is idempotent: formatting an already formatted string
      yields the same string. */
  lemma NumberFormat2Idempotent(s: string)
    requires IsNumeric(s)
    ensures IsNumeric(NumberFormat2(s))
    ensures NumberFormat2(NumberFormat2(s)) == NumberFormat2(s)
  {
    var d := NumericLiteral(s).value;
    FormatCentsParses(d.negative, Cents(d));
    RenderedCents(d.negative, Cents(d));
  }

  /** With at most two fraction digits, formatting only pads: the value is
      kept exactly. */
  lemma NumberFormat2KeepsShortValues(s: string)
    requires IsNumeric(s) && |NumericLiteral(s).value.fraction| <= 2
    ensures IsNumeric(NumberFormat2(s))
    ensures NumericValue(NumberFormat2(s)) == NumericValue(s)
  {
    var d := NumericLiteral(s).value;
    var c := Cents(d);
    FormatCentsParses(d.negative, c);
    RenderedCents(d.negative, c);
    var e := RenderedDecimal(d.negative, c);
    assert NumericLiteral(NumberFormat2(s)) == Some(e);
    assert NumericValue(NumberFormat2(s)) == Value(e);
    assert NumericValue(s) == Value(d);
    SameCentsSameValue(d, e);
  }

  /** Two short literals with the same hundredths denote the same value,
      unless only their signs differ on a non-zero amount. */
  lemma SameCentsSameValue(d: Decimal, e: Decimal)
    requires WellFormed(d) && |d.fraction| <= 2
    requires WellFormed(e) && |e.fraction| <= 2
    requires Cents(d) == Cents(e)
    requires e.negative == (d.negative && Cents(d) != 0)
    ensures Value(d) == Value(e)
  {
    TwoDigitValue(d);
    TwoDigitValue(e);
    var c := Cents(d) as real;
    if Cents(d) == 0 {
      assert Value(d) == 0.0 / 100.0;
    }
  }

  /** For at most two fraction digits, the value is the signed number of
      hundredths over one hundred. */
  lemma TwoDigitValue(d: Decimal)
    requires WellFormed(d) && |d.fraction| <= 2
    ensures Value(d) == (if d.negative then -(Cents(d) as real) else Cents(d) as real) / 100.0
  {
    var f := d.fraction;
    var p := f + "000";
    var w := DigitsValue(d.whole) as real;
    if |f| == 0 {
      assert RoundedCents(f) == 0;
    } else if |f| == 1 {
      assert p[0] == f[0] && p[1] == '0' && p[2] == '0';
      assert f[..0] == [];
      assert DigitsValue(f) == DigitValue(f[0]);
      assert RoundedCents(f) == DigitValue(f[0]) * 10;
    } else {
      assert p[0] == f[0] && p[1] == f[1] && p[2] == '0';
      var f1 := f[..1];
      assert f1[..0] == [] && f1[0] == f[0];
      assert DigitsValue(f1) == DigitValue(f[0]);
      assert f[..|f| - 1] == f1;
      assert DigitsValue(f) == DigitValue(f[0]) * 10 + DigitValue(f[1]);
      assert Pow10(2) == 100;
    }
  }
}
