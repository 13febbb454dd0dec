/**
  The maximum-price text box: JavaScript's `parseFloat` read over exact
  rationals, the `isNaN` test on its result, and the comparison `price <= max`.

  `parseFloat` skips leading white space, reads an optional sign and then the
  longest prefix that is either `Infinity` or a decimal literal
  (digits, an optional fraction, an optional exponent); whatever follows is
  ignored. When no such prefix exists the result is NaN, modelled as None.
 */
module PriceText {
  import opened Wrappers

  /** The values parseFloat can return other than NaN. */
  datatype Number = Finite(value: real) | PositiveInfinity | NegativeInfinity

  /** `price <= max` for a finite price. */
  predicate AtMost(price: real, max: Number): (b: bool)
    ensures max.Finite? ==> (b <==> price <= max.value)
    ensures max == PositiveInfinity ==> b
    ensures max == NegativeInfinity ==> !b
  {
    match max
    case Finite(m) => price <= m
    case PositiveInfinity => true
    case NegativeInfinity => false
  }

  /** A price within a limit stays within it when the price is lowered or the limit raised. */
  lemma AtMostMonotone(price: real, lower: real, x: real, y: real)
    requires lower <= price && x <= y
    ensures AtMost(price, Finite(x)) ==> AtMost(lower, Finite(y))
  {
  }

  predicate IsDigit(c: char) {
    '0' <= c <= '9'
  }

  /** The white space and line terminators that parseFloat skips. */
  predicate IsWhiteSpace(c: char) {
    c == '\t' || c == '\n' || c == '\U{000B}' || c == '\U{000C}' || c == '\r' || c == ' '
    || c == '\U{00A0}' || c == '\U{1680}' || ('\U{2000}' <= c <= '\U{200A}')
    || c == '\U{2028}' || c == '\U{2029}' || c == '\U{202F}' || c == '\U{205F}'
    || c == '\U{3000}' || c == '\U{FEFF}'
  }

  /** Length of the longest prefix of s whose characters all pass test. */
  function Span(s: string, test: char -> bool): (n: nat)
    ensures n <= |s|
    ensures forall i :: 0 <= i < n ==> test(s[i])
    ensures n < |s| ==> !test(s[n])
  {
    if s == [] || !test(s[0]) then 0 else 1 + Span(s[1..], test)
  }

  /** A string whose characters all pass test is spanned completely. */
  lemma {:induction false} SpanAll(s: string, test: char -> bool)
    requires forall i :: 0 <= i < |s| ==> test(s[i])
    ensures Span(s, test) == |s|
  {
    if s != [] {
      SpanAll(s[1..], test);
    }
  }

  predicate AllDigits(d: string) {
    forall i :: 0 <= i < |d| ==> IsDigit(d[i])
  }

  /** The value of a string of decimal digits, most significant first. */
  function DigitsValue(d: string): nat
    requires AllDigits(d)
  {
    if d == [] then 0 else 10 * DigitsValue(d[..|d| - 1]) + (d[|d| - 1] as int - '0' as int)
  }

  function Pow10(n: nat): (p: nat)
    ensures p >= 1
  {
    if n == 0 then 1 else 10 * Pow10(n - 1)
  }

  /** m times ten to the power e. */
  function Scale(m: real, e: int): real {
    if e >= 0 then m * Pow10(e) as real else m / Pow10(-e) as real
  }

  /** The exponent of an `e`/`E` part at the head of t; 0 when there is none. */
  function Exponent(t: string): int {
    if t == [] || (t[0] != 'e' && t[0] != 'E') then 0
    else
      var u := t[1..];
      var negative := u != [] && u[0] == '-';
      var d := if u != [] && (u[0] == '-' || u[0] == '+') then u[1..] else u;
      var n := Span(d, IsDigit);
      var magnitude: int := if n == 0 then 0 else DigitsValue(d[..n]);
      if negative then -magnitude else magnitude
  }

  /** The value of integer digits i followed by fraction digits f. */
  function Mantissa(i: string, f: string): real
    requires AllDigits(i) && AllDigits(f)
  {
    DigitsValue(i) as real + DigitsValue(f) as real / Pow10(|f|) as real
  }

  /** The rest of a decimal literal after its integer digits i: a fraction, an exponent, or nothing. */
  function AfterInteger(i: string, rest: string): Option<real>
    requires AllDigits(i)
  {
    if rest != [] && rest[0] == '.' then
      var nf := Span(rest[1..], IsDigit);
      if i == [] && nf == 0 then None
      else Some(Scale(Mantissa(i, rest[1..][..nf]), Exponent(rest[1..][nf..])))
    else if i == [] then None
    else Some(Scale(DigitsValue(i) as real, Exponent(rest)))
  }

  /** The unsigned decimal literal at the head of u, if there is one. */
  function UnsignedDecimal(u: string): Option<real> {
    var ni := Span(u, IsDigit);
    AfterInteger(u[..ni], u[ni..])
  }

  /** s without its leading white space. */
  function TrimStart(s: string): string {
    s[Span(s, IsWhiteSpace)..]
  }

  /** u starts with the word `Infinity`. */
  predicate StartsWithInfinity(u: string) {
    |u| >= 8 && u[..8] == "Infinity"
  }

  /** A decimal literal's value with its sign applied. */
  function Signed(negative: bool, v: Option<real>): Option<Number> {
    match v
    case None => None
    case Some(x) => Some(Finite(if negative then -x else x))
  }

  /** The signed literal (`Infinity` or decimal) at the head of t, if there is one. */
  function SignedLiteral(t: string): Option<Number> {
    var negative := t != [] && t[0] == '-';
    var u := if t != [] && (t[0] == '-' || t[0] == '+') then t[1..] else t;
    if StartsWithInfinity(u) then Some(if negative then NegativeInfinity else PositiveInfinity)
    else Signed(negative, UnsignedDecimal(u))
  }

  /** `parseFloat(s)`, with None for NaN. */
  function ParseFloat(s: string): (r: Option<Number>)
    ensures (forall i :: 0 <= i < |s| ==> IsWhiteSpace(s[i])) ==> r == None
  {
    var t := TrimStart(s);
    assert (forall i :: 0 <= i < |s| ==> IsWhiteSpace(s[i])) ==> t == [] by {
      if forall i :: 0 <= i < |s| ==> IsWhiteSpace(s[i]) {
        SpanAll(s, IsWhiteSpace);
      }
    }
    SignedLiteral(t)
  }

  /** The decimal text of a natural number, as a number input holds it. */
  function NatText(n: nat): (t: string)
    ensures t != [] && AllDigits(t)
  {
    var digit := ['0' + (n % 10) as char];
    if n < 10 then digit else NatText(n / 10) + digit
  }

  lemma {:induction false} NatTextValue(n: nat)
    ensures DigitsValue(NatText(n)) == n
  {
    var t := NatText(n);
    if n >= 10 {
      NatTextValue(n / 10);
      assert t[..|t| - 1] == NatText(n / 10);
    }
  }

  /** A whole string of digits is read as the integer it denotes. */
  lemma UnsignedDigits(t: string)
    requires t != [] && AllDigits(t)
    ensures UnsignedDecimal(t) == Some(DigitsValue(t) as real)
  {
    SpanAll(t, IsDigit);
    assert t[..|t|] == t;
    assert t[|t|..] == [];
    PlainInteger(t, []);
  }

  /** A run of digits in front of text starting with a non-digit spans exactly the digits. */
  lemma {:induction false} SpanDigitsPrefix(d: string, t: string)
    requires AllDigits(d)
    requires t != [] ==> !IsDigit(t[0])
    ensures Span(d + t, IsDigit) == |d|
  {
    if d != [] {
      assert (d + t)[1..] == d[1..] + t;
      SpanDigitsPrefix(d[1..], t);
    } else {
      assert d + t == t;
    }
  }

  /** parseFloat reads back the decimal text of every natural number. */
  lemma {:induction false} ParseNatText(n: nat)
    ensures ParseFloat(NatText(n)) == Some(Finite(n as real))
  {
    var t := NatText(n);
    LeadingDigit(t);
    UnsignedDigits(t);
    NatTextValue(n);
  }

  /** A minus sign negates the number that follows. */
  lemma {:induction false} ParseNegativeNatText(n: nat)
    ensures ParseFloat("-" + NatText(n)) == Some(Finite(-(n as real)))
  {
    var t := NatText(n);
    var s := "-" + t;
    assert Span(s, IsWhiteSpace) == 0;
    assert TrimStart(s) == s;
    assert s[1..] == t;
    assert !StartsWithInfinity(t) by {
      if |t| >= 8 { assert t[..8][0] == t[0]; }
    }
    UnsignedDigits(t);
    NatTextValue(n);
  }

  /** Whatever follows an integer is ignored, unless it continues the literal (a digit, `.`, `e`, `E`). */
  lemma {:induction false} ParseIgnoresRest(n: nat, t: string)
    requires t != [] ==> !IsDigit(t[0]) && t[0] != '.' && t[0] != 'e' && t[0] != 'E'
    ensures ParseFloat(NatText(n) + t) == Some(Finite(n as real))
  {
    var d := NatText(n);
    var s := d + t;
    assert s[0] == d[0];
    LeadingDigit(s);
    UnsignedAfterNatText(n, t);
    PlainInteger(d, t);
    NatTextValue(n);
  }

  /** Integer digits followed by neither a fraction nor an exponent are read as that integer. */
  lemma PlainInteger(d: string, t: string)
    requires d != [] && AllDigits(d)
    requires t != [] ==> t[0] != '.' && t[0] != 'e' && t[0] != 'E'
    ensures AfterInteger(d, t) == Some(DigitsValue(d) as real)
  {
    var m := DigitsValue(d) as real;
    assert !(t != [] && t[0] == '.');
    assert AfterInteger(d, t) == Some(Scale(m, Exponent(t)));
    assert Exponent(t) == 0;
    assert Scale(m, 0) == m * 1 as real;
  }

  /** The digits of an integer end where the text after them starts with a non-digit. */
  lemma {:induction false} UnsignedAfterNatText(n: nat, t: string)
    requires t != [] ==> !IsDigit(t[0])
    ensures UnsignedDecimal(NatText(n) + t) == AfterInteger(NatText(n), t)
  {
    var d := NatText(n);
    var s := d + t;
    SpanDigitsPrefix(d, t);
    assert s[..|d|] == d && s[|d|..] == t;
  }

  /** An `e` followed by the text of a natural number is that exponent. */
  lemma {:induction false} ExponentOfNatText(e: nat)
    ensures Exponent("e" + NatText(e)) == e
  {
    var x := NatText(e);
    assert ("e" + x)[1..] == x;
    SpanAll(x, IsDigit);
    assert x[..|x|] == x;
    NatTextValue(e);
  }

  /** An integer with an exponent is scaled by that power of ten. */
  lemma {:induction false} ParseExponentText(a: nat, e: nat)
    ensures ParseFloat(NatText(a) + "e" + NatText(e)) == Some(Finite(Scale(a as real, e)))
  {
    var d, t := NatText(a), "e" + NatText(e);
    var s := d + t;
    assert NatText(a) + "e" + NatText(e) == s;
    assert s[0] == d[0];
    LeadingDigit(s);
    UnsignedAfterNatText(a, t);
    var m := DigitsValue(d) as real;
    assert AfterInteger(d, t) == Some(Scale(m, Exponent(t)));
    ExponentOfNatText(e);
    NatTextValue(a);
  }

  /** `Infinity`, whatever follows it, is read as positive infinity. */
  lemma ParseInfinity(t: string)
    ensures ParseFloat("Infinity" + t) == Some(PositiveInfinity)
  {
    var s := "Infinity" + t;
    assert Span(s, IsWhiteSpace) == 0;
    assert TrimStart(s) == s;
    assert s[..8] == "Infinity";
  }

  /** Digits, a point and digits (leading zeros in either part allowed) are read as their mantissa. */
  lemma ParseDecimalDigits(d: string, f: string)
    requires d != [] && AllDigits(d) && AllDigits(f)
    ensures ParseFloat(d + "." + f) == Some(Finite(Mantissa(d, f)))
  {
    var s := d + "." + f;
    assert s[0] == d[0];
    LeadingDigit(s);
    UnsignedFraction(d, f);
  }

  /** Text that starts with a digit is read as an unsigned decimal literal. */
  lemma LeadingDigit(s: string)
    requires s != [] && IsDigit(s[0])
    ensures ParseFloat(s) == Signed(false, UnsignedDecimal(s))
  {
    assert Span(s, IsWhiteSpace) == 0;
    assert TrimStart(s) == s;
    assert !StartsWithInfinity(s) by {
      if |s| >= 8 { assert s[..8][0] == s[0]; }
    }
  }

  /** Digits, a point and digits: the integer part plus the fraction over its power of ten. */
  lemma UnsignedFraction(d: string, f: string)
    requires d != [] && AllDigits(d) && AllDigits(f)
    ensures UnsignedDecimal(d + "." + f) == Some(Mantissa(d, f))
  {
    var s := d + "." + f;
    assert s == d + ("." + f);
    SpanDigitsPrefix(d, "." + f);
    assert s[..|d|] == d;
    assert s[|d|..] == "." + f;
    assert ("." + f)[1..] == f;
    SpanDigitsPrefix(f, []);
    assert f + [] == f;
    assert f[..|f|] == f;
    assert f[|f|..] == [];
  }

  /** The mantissa of `a.b` is a plus b over the power of ten that matches b's digits. */
  lemma {:induction false} MantissaOfNatTexts(a: nat, b: nat)
    ensures Mantissa(NatText(a), NatText(b)) == a as real + b as real / Pow10(|NatText(b)|) as real
  {
    NatTextValue(a);
    NatTextValue(b);
  }

  /** parseFloat reads `a.b` as a plus the fraction b over the matching power of ten. */
  lemma {:induction false} ParseFractionText(a: nat, b: nat)
    ensures ParseFloat(NatText(a) + "." + NatText(b)) == Some(Finite(Mantissa(NatText(a), NatText(b))))
  {
    ParseDecimalDigits(NatText(a), NatText(b));
  }

  /** A leading white-space character does not change the result. */
  lemma ParseSkipsWhiteSpace(c: char, s: string)
    requires IsWhiteSpace(c)
    ensures ParseFloat([c] + s) == ParseFloat(s)
  {
    assert ([c] + s)[1..] == s;
    assert TrimStart([c] + s) == TrimStart(s);
  }

  /** Text with no digit and no `I` is NaN, whatever else it holds. */
  lemma ParseWithoutDigitsIsNaN(s: string)
    requires forall i :: 0 <= i < |s| ==> !IsDigit(s[i]) && s[i] != 'I'
    ensures ParseFloat(s) == None
  {
    var t := TrimStart(s);
    var u := if t != [] && (t[0] == '-' || t[0] == '+') then t[1..] else t;
    assert forall i :: 0 <= i < |u| ==> !IsDigit(u[i]) && u[i] != 'I';
    assert !StartsWithInfinity(u) by {
      if |u| >= 8 { assert u[..8][0] == u[0]; }
    }
    assert Span(u, IsDigit) == 0;
  }
}
