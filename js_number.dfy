/** JavaScript's `Number(string)` on the decimal part of its grammar:
    surrounding white space is skipped, an empty string is 0, and otherwise
    the string must be an optional sign followed by `Infinity` or by digits
    with an optional fraction and an optional exponent. Anything else is
    `NaN`. */
module JsNumber {
  import opened Wrappers
  import opened JsValues

  /** The result of `Number(s)`: a finite number, or `NaN`/`±Infinity`. */
  datatype Parsed = Finite(x: real) | NotFinite

  predicate IsDigit(c: char) {
    '0' <= c <= '9'
  }

  predicate AllDigits(s: string) {
    forall i | 0 <= i < |s| :: IsDigit(s[i])
  }

  /** The value of a string of decimal digits (0 for the empty string). */
  function DigitsValue(s: string): (r: nat)
    requires AllDigits(s)
  {
    if s == [] then 0 else DigitsValue(s[..|s| - 1]) * 10 + (s[|s| - 1] as int - '0' as int)
  }

  /** The length of the run of digits at the front of `s`. */
  function LeadingDigits(s: string): (n: nat)
    ensures n <= |s|
    ensures AllDigits(s[..n])
    ensures n == |s| || !IsDigit(s[n])
  {
    if s == [] || !IsDigit(s[0]) then 0
    else
      var n := 1 + LeadingDigits(s[1..]);
      assert s[..n] == [s[0]] + s[1..][..n - 1];
      n
  }

  /** `10^e` for a signed exponent. */
  function Scale(e: int): (r: real)
    ensures r > 0.0
  {
    if e >= 0 then Pow10(e) as real else 1.0 / Pow10(-e) as real
  }

  /** The exponent part `[eE][+-]digits`, or 0 when `s` is empty;
      `None` when `s` is anything else. */
  function Exponent(s: string): Option<int> {
    if s == [] then Some(0)
    else if s[0] != 'e' && s[0] != 'E' then None
    else
      var t := s[1..];
      var negative := t != [] && t[0] == '-';
      var digits := if t != [] && (t[0] == '+' || t[0] == '-') then t[1..] else t;
      if digits == [] || !AllDigits(digits) then None
      else if negative then Some(-(DigitsValue(digits) as int))
      else Some(DigitsValue(digits))
  }

  /** An unsigned decimal literal: `Infinity`, or `digits[.digits][exponent]`
      with at least one digit before or after the point. */
  function UnsignedDecimal(s: string): Parsed {
    if s == "Infinity" then NotFinite
    else
      var a := LeadingDigits(s);
      AfterWhole(s[..a], s[a..])
  }

  /** What follows the whole digits: an optional point with its fraction
      digits, then the exponent. */
  function AfterWhole(whole: string, rest: string): Parsed
    requires AllDigits(whole)
  {
    if rest != [] && rest[0] == '.' then
      var afterPoint := rest[1..];
      var b := LeadingDigits(afterPoint);
      WithExponent(whole, afterPoint[..b], afterPoint[b..])
    else
      WithExponent(whole, [], rest)
  }

  function WithExponent(whole: string, fraction: string, tail: string): Parsed
    requires AllDigits(whole) && AllDigits(fraction)
  {
    if |whole| + |fraction| == 0 then NotFinite
    else
      match Exponent(tail)
      case None => NotFinite
      case Some(e) => Finite(DecimalValue(whole, fraction) * Scale(e))
  }

  /** The value of `whole.fraction`. */
  function DecimalValue(whole: string, fraction: string): real
    requires AllDigits(whole) && AllDigits(fraction)
  {
    DigitsValue(whole) as real + DigitsValue(fraction) as real / Pow10(|fraction|) as real
  }

  /** `Number(s)` for a string `s`: blank text is 0 and the infinities are
      not finite. */
  function StringToNumber(s: string): (r: Parsed)
    ensures Trim(s) == [] ==> r == Finite(0.0)
  {
    var t := Trim(s);
    if t == [] then Finite(0.0)
    else if t[0] == '+' then UnsignedDecimal(t[1..])
    else if t[0] == '-' then
      match UnsignedDecimal(t[1..])
      case Finite(x) => Finite(-x)
      case NotFinite => NotFinite
    else UnsignedDecimal(t)
  }

  /** Reading back the digits `NatText` writes gives the number again. */
  lemma {:induction false} DigitsOfNatText(n: nat)
    ensures AllDigits(NatText(n))
    ensures DigitsValue(NatText(n)) == n
    decreases n
  {
    var t := NatText(n);
    if n >= 10 {
      DigitsOfNatText(n / 10);
      assert t[..|t| - 1] == NatText(n / 10);
    }
  }

  /** `Number(String(n))` is `n` for every whole number written without an
      exponent. */
  lemma NatTextRoundTrip(n: nat)
    ensures StringToNumber(NatText(n)) == Finite(n as real)
    ensures StringToNumber("-" + NatText(n)) == Finite(-(n as real))
  {
    DigitsOfNatText(n);
    DigitsRoundTrip(NatText(n));
  }

  /** A non-empty run of digits, with or without a minus sign, reads as its
      value. */
  lemma DigitsRoundTrip(t: string)
    requires t != [] && AllDigits(t)
    ensures StringToNumber(t) == Finite(DigitsValue(t) as real)
    ensures StringToNumber("-" + t) == Finite(-(DigitsValue(t) as real))
  {
    WholeDigits(t);
    UnsignedDigits(t);
    NegatedDigits(t);
  }

  lemma UnsignedDigits(t: string)
    requires t != [] && AllDigits(t) && UnsignedDecimal(t) == Finite(DigitsValue(t) as real)
    ensures StringToNumber(t) == Finite(DigitsValue(t) as real)
  {
    assert IsDigit(t[0]) && IsDigit(t[|t| - 1]);
    TrimKeeps(t);
  }

  lemma NegatedDigits(t: string)
    requires t != [] && AllDigits(t) && UnsignedDecimal(t) == Finite(DigitsValue(t) as real)
    ensures StringToNumber("-" + t) == Finite(-(DigitsValue(t) as real))
  {
    var u := "-" + t;
    assert |u| == |t| + 1 && u[1..] == t;
    assert u[0] == '-' && u[|u| - 1] == t[|t| - 1];
    SignedKeeps(u);
  }

  /** A sign followed by text ending in a digit has nothing to trim. */
  lemma SignedKeeps(u: string)
    requires |u| >= 2 && (u[0] == '-' || u[0] == '+') && IsDigit(u[|u| - 1])
    ensures Trim(u) == u
  {
    TrimKeeps(u);
  }

  /** A decimal fraction `a.b`, with digits after the point and any number
      of digits before it, reads as its value. */
  lemma DecimalRoundTrip(a: string, b: string)
    requires AllDigits(a) && AllDigits(b) && b != []
    ensures StringToNumber(a + "." + b) == Finite(DecimalValue(a, b))
  {
    var t := a + "." + b;
    assert t[|t| - 1] == b[|b| - 1] && IsDigit(b[|b| - 1]);
    assert t[0] == '.' || (t[0] == a[0] && IsDigit(a[0]));
    TrimKeeps(t);
    PointDigits(a, b);
  }

  /** `a.b` without a sign: the digits of `a`, the point, the digits of `b`. */
  lemma PointDigits(a: string, b: string)
    requires AllDigits(a) && AllDigits(b) && b != []
    ensures UnsignedDecimal(a + "." + b) == Finite(DecimalValue(a, b))
  {
    var rest := "." + b;
    var t := a + rest;
    StringAssoc(a, ".", b);
    assert t[0] == '.' || (t[0] == a[0] && IsDigit(a[0]));
    NotInfinity(t);
    LeadingRun(a, rest);
    SplitAt(a, rest);
    AfterPoint(a, b);
  }

  lemma StringAssoc(x: string, y: string, z: string)
    ensures x + y + z == x + (y + z)
  {
  }

  lemma SplitAt(x: string, y: string)
    ensures (x + y)[..|x|] == x && (x + y)[|x|..] == y
  {
  }

  /** Text that does not start with `I` is read as digits, point and
      exponent. */
  lemma NotInfinity(t: string)
    requires t != [] && t[0] != 'I'
    ensures UnsignedDecimal(t) == AfterWhole(t[..LeadingDigits(t)], t[LeadingDigits(t)..])
  {
    assert t != "Infinity" by {
      assert "Infinity"[0] == 'I';
    }
  }

  /** After the whole digits `a` come the point and the fraction digits `b`,
      with no exponent. */
  lemma AfterPoint(a: string, b: string)
    requires AllDigits(a) && AllDigits(b) && b != []
    ensures AfterWhole(a, "." + b) == Finite(DecimalValue(a, b))
  {
    var rest := "." + b;
    assert rest[1..] == b;
    LeadingRun(b, []);
    assert b + [] == b && b[..|b|] == b && b[|b|..] == [];
    assert Exponent([]) == Some(0) && Scale(0) == 1.0;
    assert WithExponent(a, b, []) == Finite(DecimalValue(a, b) * 1.0);
  }

  /** The leading digits of `a + rest` are those of `a` when `rest` does not
      start with a digit. */
  lemma {:induction false} LeadingRun(a: string, rest: string)
    requires AllDigits(a) && (rest == [] || !IsDigit(rest[0]))
    ensures LeadingDigits(a + rest) == |a|
  {
    if a == [] {
      assert a + rest == rest;
    } else {
      assert IsDigit(a[0]) && (a + rest)[0] == a[0];
      assert (a + rest)[1..] == a[1..] + rest;
      LeadingRun(a[1..], rest);
    }
  }

  /** A non-empty run of digits reads as its value. */
  lemma WholeDigits(t: string)
    requires t != [] && AllDigits(t)
    ensures UnsignedDecimal(t) == Finite(DigitsValue(t) as real)
  {
    assert t != "Infinity" by { assert IsDigit(t[0]); }
    LeadingRun(t, []);
    assert t + [] == t;
    assert t[..|t|] == t && t[|t|..] == [];
    NoFraction(t);
  }

  /** Whole digits with neither fraction nor exponent keep their value. */
  lemma NoFraction(t: string)
    requires t != [] && AllDigits(t)
    ensures WithExponent(t, [], []) == Finite(DigitsValue(t) as real)
  {
    assert Exponent([]) == Some(0) && Scale(0) == 1.0;
    assert DecimalValue(t, []) == DigitsValue(t) as real by {
      assert DigitsValue([]) == 0 && Pow10(0) == 1;
    }
  }

  /** A string with no digit in it is never a finite number other than the
      empty string's 0: `Number` turns text without digits into `NaN`,
      `Infinity` or 0. */
  lemma NoDigitsNoValue(s: string)
    requires forall i | 0 <= i < |s| :: !IsDigit(s[i])
    ensures StringToNumber(s) == NotFinite || StringToNumber(s) == Finite(0.0)
  {
    var t := Trim(s);
    TrimShape(s);
    assert forall i | 0 <= i < |t| :: !IsDigit(t[i]) by {
      assert t == TrimEnd(TrimStart(s));
      forall i | 0 <= i < |t| ensures !IsDigit(t[i]) {
        var ts := TrimStart(s);
        assert t[i] == ts[i];
        assert ts[i] == s[|s| - |ts| + i];
      }
    }
    if t != [] {
      var u := if t[0] == '+' || t[0] == '-' then t[1..] else t;
      NoDigitsUnsigned(u);
    }
  }

  lemma NoDigitsUnsigned(s: string)
    requires forall i | 0 <= i < |s| :: !IsDigit(s[i])
    ensures UnsignedDecimal(s) == NotFinite
  {
    if s != "Infinity" {
      var a := LeadingDigits(s);
      var rest := s[a..];
      if rest != [] && rest[0] == '.' {
        var afterPoint := rest[1..];
        var b := LeadingDigits(afterPoint);
      }
    }
  }
}
