/** JavaScript values as they reach the card through its configuration, and the
    conversions the card applies to them: truthiness, `a || d`,
    `a !== undefined ? a : d`, `String(v)`, `Number(s)`, `parseInt(s, 16)` and
    `n.toString().padStart(2, '0')`. */
module Js {

  datatype Option<T> = None | Some(value: T)

  /** A configuration value. Numbers are integers (see README, "Left out"). */
  datatype JsValue = Undefined | Null | Bool(b: bool) | Num(n: int) | Str(s: string)

  /** The property names of the card's configuration object; every other
      property is `Other(name)`, with a name that is none of those listed. */
  datatype Key =
    | Entity | Use24hFormat | WidthSvg | HeightSvg | MarginDiv | AlignItems
    | JustifyContent | DimmedOpacity | BackgroundColor | DigitColor | DimmedColor
    | DigitWidth | DigitHeight | DigitSpacing | SegmentThickness
    | RectX | RectY | RectWidth | RectHeight | ShowCardBackground
    | Other(name: string)

  /** A configuration object: a key that is absent reads as `undefined`. */
  type RawConfig = map<Key, JsValue>

  function Get(raw: RawConfig, key: Key): JsValue {
    if key in raw then raw[key] else Undefined
  }

  /** The falsy values are undefined, null, false, 0 and the empty string. */
  predicate Truthy(v: JsValue) {
    match v
    case Undefined => false
    case Null => false
    case Bool(b) => b
    case Num(n) => n != 0
    case Str(s) => s != ""
  }

  /** `a || d` */
  function Or(a: JsValue, d: JsValue): JsValue {
    if Truthy(a) then a else d
  }

  /** `a !== undefined ? a : d` */
  function DefinedOr(a: JsValue, d: JsValue): JsValue {
    if a != Undefined then a else d
  }

  // ---------------------------------------------------------------------------
  // Decimal digits and number-to-string

  predicate IsDigit(c: char) {
    '0' <= c <= '9'
  }

  predicate AllDigits(s: string) {
    forall i :: 0 <= i < |s| ==> IsDigit(s[i])
  }

  function DigitChar(d: nat): (c: char)
    requires d < 10
    ensures IsDigit(c) && c as int - '0' as int == d
  {
    ('0' as int + d) as char
  }

  /** `n.toString()` for a non-negative integer. */
  function NatText(n: nat): string
    decreases n
  {
    if n < 10 then [DigitChar(n)] else NatText(n / 10) + [DigitChar(n % 10)]
  }

  /** `n.toString()`; a negative zero prints as "0", which `int` cannot tell apart. */
  function IntText(n: int): string {
    if n < 0 then "-" + NatText(-n) else NatText(n)
  }

  /** The value of a string of decimal digits, as `Number(s)` reads it ("" is 0). */
  function DigitsValue(s: string): nat
    requires AllDigits(s)
    decreases |s|
  {
    if s == [] then 0 else DigitsValue(s[..|s| - 1]) * 10 + (s[|s| - 1] as int - '0' as int)
  }

  /** `NatText` prints a decimal numeral that reads back as the same number. */
  lemma {:induction false} NatTextRoundTrip(n: nat)
    ensures |NatText(n)| >= 1 && AllDigits(NatText(n))
    ensures DigitsValue(NatText(n)) == n
    decreases n
  {
    if n >= 10 {
      NatTextRoundTrip(n / 10);
      var s := NatText(n);
      assert s[..|s| - 1] == NatText(n / 10);
    }
  }

  /** Numbers below 100 print in one or two characters. */
  lemma NatTextSmall(n: nat)
    requires n < 100
    ensures NatText(n) == if n < 10 then [DigitChar(n)] else [DigitChar(n / 10), DigitChar(n % 10)]
  {
  }

  /** `s.padStart(2, '0')` */
  function PadStart2(s: string): string {
    if |s| >= 2 then s else if |s| == 1 then "0" + s else "00"
  }

  /** `n.toString().padStart(2, '0')` for 0 <= n < 100 is the tens digit then the units digit. */
  lemma PadTwoDigits(n: nat)
    requires n < 100
    ensures PadStart2(NatText(n)) == [DigitChar(n / 10), DigitChar(n % 10)]
  {
    NatTextSmall(n);
  }

  /** `(n / 100).toString()`: the decimal numeral with at most two fraction digits and no
      trailing zero. This is what JavaScript prints while |n| < 10^15, where the quotient
      has at most 15 significant digits and so survives the rounding to a double. */
  function HundredthsText(n: int): (r: string)
    ensures n >= 0 && n % 100 == 0 ==> r == NatText(n / 100)
    ensures n < 0 ==> |r| > 1 && r[0] == '-'
  {
    var a: nat := if n < 0 then -n else n;
    (if n < 0 then "-" else "") + NatText(a / 100) + FractionText(a % 100)
  }

  /** The fraction part of `HundredthsText` for f hundredths: nothing, one digit or two. */
  function FractionText(f: nat): string
    requires f < 100
  {
    if f == 0 then ""
    else if f % 10 == 0 then "." + [DigitChar(f / 10)]
    else "." + [DigitChar(f / 10), DigitChar(f % 10)]
  }

  // ---------------------------------------------------------------------------
  // Reading a decimal numeral back

  /** The position of the first '.', or |t| when there is none. */
  function DotIndex(t: string): (k: nat)
    ensures k <= |t| && (k < |t| ==> t[k] == '.')
    decreases |t|
  {
    if t == [] || t[0] == '.' then 0 else 1 + DotIndex(t[1..])
  }

  function Pow10(e: nat): (p: nat)
    ensures p >= 1
  {
    if e == 0 then 1 else 10 * Pow10(e - 1)
  }

  /** `I` or `I.F` with digit runs I (non-empty) and F. */
  predicate UnsignedDecimal(u: string) {
    var k := DotIndex(u);
    k >= 1 && AllDigits(u[..k]) && (k < |u| ==> AllDigits(u[k + 1..]))
  }

  function UnsignedDecimalValue(u: string): real
    requires UnsignedDecimal(u)
  {
    var k := DotIndex(u);
    DigitsValue(u[..k]) as real
    + (if k < |u| then DigitsValue(u[k + 1..]) as real / Pow10(|u| - k - 1) as real else 0.0)
  }

  /** A decimal numeral `[-]I[.F]`. */
  predicate Decimal(t: string) {
    if t != [] && t[0] == '-' then UnsignedDecimal(t[1..]) else UnsignedDecimal(t)
  }

  /** The real number a decimal numeral denotes. */
  function DecimalValue(t: string): real
    requires Decimal(t)
  {
    if t != [] && t[0] == '-' then -UnsignedDecimalValue(t[1..]) else UnsignedDecimalValue(t)
  }

  /** The digits before the first '.', after a leading '-' if there is one. */
  function IntegerPart(t: string): string {
    var u := if t != [] && t[0] == '-' then t[1..] else t;
    u[..DotIndex(u)]
  }

  /** The text of n/100 is a decimal numeral denoting exactly n/100; its integer part has
      no redundant leading zero, it has a fraction part exactly when 100 does not divide
      n, and that part never ends in '0'. */
  lemma HundredthsTextDenotes(n: int)
    ensures Decimal(HundredthsText(n)) && DecimalValue(HundredthsText(n)) == n as real / 100.0
    ensures Numeral(IntegerPart(HundredthsText(n)))
    ensures var r := HundredthsText(n);
      (DotIndex(r) < |r| <==> n % 100 != 0) && (DotIndex(r) < |r| ==> r[|r| - 1] != '0')
  {
    if n < 0 {
      NegativeHundredths(n);
    } else {
      NonNegativeHundredths(n);
    }
  }

  lemma NonNegativeHundredths(n: int)
    requires n >= 0
    ensures Decimal(HundredthsText(n)) && DecimalValue(HundredthsText(n)) == n as real / 100.0
    ensures Numeral(IntegerPart(HundredthsText(n)))
    ensures var r := HundredthsText(n);
      (DotIndex(r) < |r| <==> n % 100 != 0) && (DotIndex(r) < |r| ==> r[|r| - 1] != '0')
  {
    var a: nat := n;
    var u := NatText(a / 100) + FractionText(a % 100);
    assert HundredthsText(n) == u;
    UnsignedHundredths(a);
    Unsigned(u);
  }

  /** A numeral that does not start with '-' reads as its unsigned value. */
  lemma Unsigned(u: string)
    requires UnsignedDecimal(u) && u[0] != '-'
    ensures Decimal(u) && DecimalValue(u) == UnsignedDecimalValue(u)
    ensures IntegerPart(u) == u[..DotIndex(u)]
  {
  }

  lemma NegativeHundredths(n: int)
    requires n < 0
    ensures Decimal(HundredthsText(n)) && DecimalValue(HundredthsText(n)) == n as real / 100.0
    ensures Numeral(IntegerPart(HundredthsText(n)))
    ensures var r := HundredthsText(n);
      (DotIndex(r) < |r| <==> n % 100 != 0) && (DotIndex(r) < |r| ==> r[|r| - 1] != '0')
  {
    var a: nat := -n;
    var u := NatText(a / 100) + FractionText(a % 100);
    assert HundredthsText(n) == "-" + u;
    UnsignedHundredths(a);
    NegatedHundreds(n);
    Negated(u);
    NegatedHundredth(n, a, UnsignedDecimalValue(u));
  }

  /** A minus sign in front of an unsigned numeral negates its value and moves nothing else. */
  lemma Negated(u: string)
    requires UnsignedDecimal(u)
    ensures var r := "-" + u;
      && Decimal(r) && DecimalValue(r) == -UnsignedDecimalValue(u)
      && DotIndex(r) == 1 + DotIndex(u) && |r| == 1 + |u| && r[|r| - 1] == u[|u| - 1]
      && IntegerPart(r) == u[..DotIndex(u)]
  {
    var r := "-" + u;
    assert r[1..] == u && r[0] == '-';
  }

  lemma NegatedHundredth(n: int, a: nat, v: real)
    requires a == -n && v == a as real / 100.0
    ensures -v == n as real / 100.0
  {
  }

  /** 100 divides n exactly when it divides -n. */
  lemma NegatedHundreds(n: int)
    ensures n % 100 == 0 <==> (-n) % 100 == 0
  {
    if n % 100 == 0 {
      assert -n == 100 * -(n / 100);
    }
    if (-n) % 100 == 0 {
      assert n == 100 * -((-n) / 100);
    }
  }

  /** The unsigned part: `NatText(a / 100)` then the fraction text. */
  lemma UnsignedHundredths(a: nat)
    ensures var u := NatText(a / 100) + FractionText(a % 100);
      && UnsignedDecimal(u) && UnsignedDecimalValue(u) == a as real / 100.0 && IsDigit(u[0])
      && Numeral(u[..DotIndex(u)])
      && (DotIndex(u) < |u| <==> a % 100 != 0) && (DotIndex(u) < |u| ==> u[|u| - 1] != '0')
  {
    var q, f := a / 100, a % 100;
    var s, t := NatText(q), FractionText(f);
    NatTextIsNumeral(q);
    FractionTextValue(f);
    DecimalOfParts(s, t);
    assert (s + t)[0] == s[0];
    assert a == 100 * q + f;
    assert a as real / 100.0 == q as real + f as real / 100.0;
    if t != [] {
      assert (s + t)[|s + t| - 1] == t[|t| - 1];
    }
  }

  /** Digits followed by nothing or by '.' and digits read as the integer part plus the
      fraction part. */
  lemma DecimalOfParts(s: string, t: string)
    requires |s| >= 1 && AllDigits(s) && (t == [] || (t[0] == '.' && AllDigits(t[1..])))
    ensures UnsignedDecimal(s + t) && (DotIndex(s + t) < |s + t| <==> t != [])
    ensures (s + t)[..DotIndex(s + t)] == s
    ensures UnsignedDecimalValue(s + t) ==
      DigitsValue(s) as real + (if t == [] then 0.0 else DigitsValue(t[1..]) as real / Pow10(|t| - 1) as real)
  {
    var u := s + t;
    DotAfterDigits(s, t);
    assert u[..|s|] == s;
    if t != [] {
      assert u[|s| + 1..] == t[1..];
    }
  }

  /** The fraction text of f hundredths denotes f/100 and does not end in '0'. */
  lemma FractionTextValue(f: nat)
    requires f < 100
    ensures var t := FractionText(f);
      && (t == [] <==> f == 0)
      && (t != [] ==> && t[0] == '.' && AllDigits(t[1..]) && t[|t| - 1] != '0'
                      && DigitsValue(t[1..]) as real / Pow10(|t| - 1) as real == f as real / 100.0)
  {
    var t := FractionText(f);
    if f != 0 && f % 10 == 0 {
      var d := f / 10;
      assert t[1..] == [DigitChar(d)];
      assert DigitsValue([DigitChar(d)]) == d by {
        assert [DigitChar(d)][..0] == [];
      }
      assert Pow10(1) == 10 && f == 10 * d;
    } else if f != 0 {
      var hi, lo := f / 10, f % 10;
      var w := [DigitChar(hi), DigitChar(lo)];
      assert t[1..] == w;
      assert DigitsValue(w) == f by {
        assert w[..1] == [DigitChar(hi)] && w[..1][..0] == [];
        assert DigitsValue(w[..1]) == hi;
      }
      assert Pow10(2) == 100;
    }
  }

  /** A digit run followed by nothing or by '.' puts the first '.' right after the run. */
  lemma {:induction false} DotAfterDigits(s: string, t: string)
    requires AllDigits(s) && (t == [] || t[0] == '.')
    ensures DotIndex(s + t) == |s|
    decreases |s|
  {
    if s != [] {
      assert (s + t)[1..] == s[1..] + t;
      DotAfterDigits(s[1..], t);
    }
  }

  // ---------------------------------------------------------------------------
  // Number(s) and parseInt(s, 16)

  /** StrWhiteSpaceChar of ECMAScript: WhiteSpace (TAB, VT, FF, ZWNBSP and the
      space separators) and LineTerminator. */
  predicate IsJsWhitespace(c: char) {
    var k := c as int;
    k == 0x09 || k == 0x0B || k == 0x0C || k == 0x20 || k == 0xA0 || k == 0xFEFF
    || k == 0x1680 || (0x2000 <= k <= 0x200A) || k == 0x202F || k == 0x205F || k == 0x3000
    || k == 0x0A || k == 0x0D || k == 0x2028 || k == 0x2029
  }

  /** The characters a string that `Number` converts to a number can contain:
      white space, digits, signs, '.', exponent and radix letters, hex digits and
      the letters of "Infinity". */
  predicate IsNumericLiteralChar(c: char) {
    IsJsWhitespace(c) || IsDigit(c) || c in "+-.eExXoObBaAbBcCdDfFInity"
  }

  /** `Number(s)` is NaN whenever s holds a character outside the numeric-literal alphabet. */
  predicate HasNonNumericChar(s: string) {
    exists i :: 0 <= i < |s| && !IsNumericLiteralChar(s[i])
  }

  datatype Numeric = Finite(n: int) | NaN

  /** The strings whose `Number(s)` the model knows: digit strings short enough to be
      exact in a double, and strings that are certainly not numerals. */
  predicate NumberModelled(s: string) {
    (AllDigits(s) && |s| <= 15) || HasNonNumericChar(s)
  }

  /** `Number(s)` on the strings of `NumberModelled`. */
  function StringToNumber(s: string): (r: Numeric)
    requires NumberModelled(s)
    ensures r.NaN? <==> HasNonNumericChar(s)
  {
    if HasNonNumericChar(s) then NaN
    else
      assert AllDigits(s);
      Finite(DigitsValue(s))
  }

  predicate IsHexDigit(c: char) {
    IsDigit(c) || 'a' <= c <= 'f' || 'A' <= c <= 'F'
  }

  function HexDigitValue(c: char): (v: nat)
    requires IsHexDigit(c)
    ensures v < 16
  {
    if IsDigit(c) then c as int - '0' as int
    else if 'a' <= c <= 'f' then c as int - 'a' as int + 10
    else c as int - 'A' as int + 10
  }

  /** String.prototype.trimStart, as parseInt applies it. */
  function TrimStart(s: string): string {
    if s != [] && IsJsWhitespace(s[0]) then TrimStart(s[1..]) else s
  }

  /** The longest prefix of s made of hex digits. */
  predicate AllHex(z: string) {
    forall i :: 0 <= i < |z| ==> IsHexDigit(z[i])
  }

  function HexRun(s: string): (z: string)
    ensures AllHex(z)
  {
    if s != [] && IsHexDigit(s[0]) then [s[0]] + HexRun(s[1..]) else []
  }

  function HexValue(z: string): nat
    requires AllHex(z)
    decreases |z|
  {
    if z == [] then 0 else HexValue(z[..|z| - 1]) * 16 + HexDigitValue(z[|z| - 1])
  }

  /** `parseInt(s, 16)`: skip leading white space, take one sign, drop a "0x"/"0X"
      prefix, then read the hex digits that follow; `None` stands for NaN. */
  function ParseIntHex(s: string): (r: Option<int>)
    ensures TrimStart(s) == [] ==> r == None
    ensures r.Some? && r.value < 0 ==> TrimStart(s)[0] == '-'
  {
    var t := TrimStart(s);
    var negative := t != [] && t[0] == '-';
    var u := if t != [] && (t[0] == '-' || t[0] == '+') then t[1..] else t;
    var w := if |u| >= 2 && u[0] == '0' && (u[1] == 'x' || u[1] == 'X') then u[2..] else u;
    var z := HexRun(w);
    var v: int := if z == [] then 0 else HexValue(z);
    if z == [] then None else Some(if negative then -v else v)
  }

  /** The pieces of '#FFF' cut at 1-3, 3-5 and 5-7, as `parseInt(_, 16)` reads them. */
  lemma ShortHexPieces()
    ensures ParseIntHex("FF") == Some(255) && ParseIntHex("F") == Some(15) && ParseIntHex("") == None
  {
    ParseHexPair("FF");
    assert TrimStart("F") == "F" by {
      assert !IsJsWhitespace('F');
    }
    assert HexRun("F") == "F" && HexValue("F") == 15 by {
      assert "F"[1..] == [] && "F"[..0] == [];
    }
  }

  /** Two hex digits read as the channel value 16*hi + lo, which lies in 0..255. */
  lemma ParseHexPair(p: string)
    requires |p| == 2 && IsHexDigit(p[0]) && IsHexDigit(p[1])
    ensures ParseIntHex(p) == Some(16 * HexDigitValue(p[0]) + HexDigitValue(p[1]))
    ensures 0 <= 16 * HexDigitValue(p[0]) + HexDigitValue(p[1]) <= 255
  {
    assert !IsJsWhitespace(p[0]);
    assert TrimStart(p) == p;
    assert p[1..][1..] == [];
    assert HexRun(p[1..]) == [p[1]];
    assert HexRun(p) == p;
    assert p[..1] == [p[0]] && [p[0]][..0] == [];
    assert HexValue([p[0]]) == HexDigitValue(p[0]);
    assert HexValue(p) == HexValue([p[0]]) * 16 + HexDigitValue(p[1]);
  }

  /** The longest prefix of s made of decimal digits. */
  function DigitRun(s: string): (z: string)
    ensures AllDigits(z) && |z| <= |s|
  {
    if s != [] && IsDigit(s[0]) then [s[0]] + DigitRun(s[1..]) else []
  }

  /** `parseInt(s)` without a radix: like `parseInt(s, 16)` when the unsigned text starts
      with "0x" or "0X", otherwise the decimal digits after the optional sign. */
  function ParseInt(s: string): (r: Option<int>)
    ensures TrimStart(s) == [] ==> r == None
    ensures r.Some? && r.value < 0 ==> TrimStart(s)[0] == '-'
  {
    var t := TrimStart(s);
    var negative := t != [] && t[0] == '-';
    var u := if t != [] && (t[0] == '-' || t[0] == '+') then t[1..] else t;
    if |u| >= 2 && u[0] == '0' && (u[1] == 'x' || u[1] == 'X') then
      var z := HexRun(u[2..]);
      var v: int := if z == [] then 0 else HexValue(z);
      if z == [] then None else Some(if negative then -v else v)
    else
      var z := DigitRun(u);
      var v: int := DigitsValue(z);
      if z == [] then None else Some(if negative then -v else v)
  }

  lemma {:induction false} DigitRunOfDigits(s: string)
    requires AllDigits(s)
    ensures DigitRun(s) == s
    decreases |s|
  {
    if s != [] {
      DigitRunOfDigits(s[1..]);
    }
  }

  /** A decimal numeral without a redundant leading zero: what `NatText` prints. */
  predicate Numeral(u: string) {
    |u| >= 1 && AllDigits(u) && (u[0] == '0' ==> |u| == 1)
  }

  lemma NatTextIsNumeral(m: nat)
    ensures Numeral(NatText(m)) && DigitsValue(NatText(m)) == m
  {
    NatTextRoundTrip(m);
    if m >= 10 {
      NatTextLeadingDigit(m);
    }
  }

  /** After the sign, `parseInt` reads a numeral as its decimal value. */
  lemma ParseUnsignedNumeral(t: string, u: string, negative: bool)
    requires Numeral(u)
    requires t == (if negative then "-" + u else u)
    ensures ParseInt(t) == Some(if negative then 0 - DigitsValue(u) as int else DigitsValue(u))
  {
    assert TrimStart(t) == t by {
      assert !IsJsWhitespace(t[0]);
    }
    var rest := if t[0] == '-' || t[0] == '+' then t[1..] else t;
    assert rest == u by {
      if negative {
        assert t[1..] == u;
      } else {
        assert t[0] == u[0] && IsDigit(u[0]);
      }
    }
    assert !(|u| >= 2 && u[0] == '0');
    DigitRunOfDigits(u);
    assert DigitRun(u) == u && u != [];
  }

  /** `parseInt(String(n))` gives back the integer n. */
  lemma ParseIntOfText(n: int)
    ensures ParseInt(IntText(n)) == Some(n)
  {
    var m: nat := if n < 0 then -n else n;
    NatTextIsNumeral(m);
    ParseUnsignedNumeral(IntText(n), NatText(m), n < 0);
  }

  /** The numeral of a number of two or more digits does not start with '0'. */
  lemma {:induction false} NatTextLeadingDigit(n: nat)
    requires n >= 10
    ensures NatText(n)[0] != '0'
    decreases n
  {
    NatTextRoundTrip(n / 10);
    if n / 10 >= 10 {
      NatTextLeadingDigit(n / 10);
    }
  }

  /** `String(v)`, as a template literal or a property lookup converts a value. */
  function JsString(v: JsValue): string {
    match v
    case Undefined => "undefined"
    case Null => "null"
    case Bool(b) => if b then "true" else "false"
    case Num(n) => IntText(n)
    case Str(s) => s
  }

  /** `s.slice(i, j)` for 0 <= i <= j: both ends are clamped to the length. */
  function Slice(s: string, i: nat, j: nat): (r: string)
    requires i <= j
    ensures |s| >= j ==> r == s[i..j]
  {
    var a := if i < |s| then i else |s|;
    var b := if j < |s| then j else |s|;
    s[a..b]
  }
}
