/** The JavaScript values a request body, a form field or a stored JSON row can
    hold, with the three conversions the application leans on: truthiness
    (`x || y`), `String(x)` and `String.prototype.trim`. */
module JsValues {

  /** A JavaScript value. A number literal is kept as the exact decimal it
      denotes, `mantissa / 10^scale`; `NaN` and the infinities are the
      non-finite numbers. */
  datatype Value =
    | Undefined
    | Null
    | Bool(b: bool)
    | Num(mantissa: int, scale: nat)
    | NaN
    | Infinity(negative: bool)
    | Str(s: string)
    | List(items: seq<Value>)
    | Object

  function Pow10(n: nat): (r: nat)
    ensures r >= 1
  {
    if n == 0 then 1 else 10 * Pow10(n - 1)
  }

  /** The number a `Num` literal denotes. */
  function NumValue(mantissa: int, scale: nat): real {
    mantissa as real / Pow10(scale) as real
  }

  /** JavaScript truthiness: what `x || y` tests before it falls back to `y`.
      The falsy values are `undefined`, `null`, `false`, `NaN`, a zero and
      the empty string. */
  function Truthy(v: Value): (b: bool)
    ensures !b <==> v == Undefined || v == Null || v == Bool(false) || v == NaN || v == Str("")
                    || (v.Num? && v.mantissa == 0)
  {
    match v
    case Undefined | Null | NaN => false
    case Bool(b) => b
    case Num(m, _) => m != 0
    case Infinity(_) => true
    case Str(s) => s != ""
    case List(_) | Object => true
  }

  /** `x || fallback`, for the text fields that are then passed to `String`. */
  function OrElse(v: Value, fallback: Value): (r: Value)
    ensures Truthy(v) ==> r == v
    ensures !Truthy(v) ==> r == fallback
  {
    if Truthy(v) then v else fallback
  }

  // ---------------------------------------------------------------------------
  // String(x)

  function DigitChar(d: nat): (c: char)
    requires d < 10
    ensures '0' <= c <= '9'
  {
    ('0' as int + d) as char
  }

  /** The decimal digits of a natural number, without leading zeros. */
  function NatText(n: nat): (r: string)
    ensures r != []
    ensures forall i | 0 <= i < |r| :: '0' <= r[i] <= '9'
    decreases n
  {
    if n < 10 then [DigitChar(n)] else NatText(n / 10) + [DigitChar(n % 10)]
  }

  /** `s` with zeros prepended until it is `width` long. */
  function PadZeros(s: string, width: nat): (r: string)
    ensures |r| == if |s| < width then width else |s|
    decreases width - |s|
  {
    if |s| < width then PadZeros("0" + s, width) else s
  }

  /** `s` without its trailing zeros. */
  function StripTrailingZeros(s: string): (r: string)
    ensures |r| <= |s|
    ensures r == s[..|r|]
    ensures r == [] || r[|r| - 1] != '0'
  {
    if s != [] && s[|s| - 1] == '0' then StripTrailingZeros(s[..|s| - 1]) else s
  }

  /** `String(n)` for a finite number written as `mantissa / 10^scale`
      (plain positional notation; see the README for exponent notation). */
  function NumberText(mantissa: int, scale: nat): string {
    var sign := if mantissa < 0 then "-" else "";
    sign + MagnitudeText(if mantissa < 0 then -mantissa else mantissa, scale)
  }

  function Quotient(a: nat, b: nat): (q: nat)
    requires b >= 1
  {
    if a < b then 0 else 1 + Quotient(a - b, b)
  }

  /** The positional digits of `magnitude / 10^scale`. */
  function MagnitudeText(magnitude: nat, scale: nat): string {
    var unit := Pow10(scale);
    var whole := Quotient(magnitude, unit);
    var fraction := magnitude % unit;
    if fraction == 0 then NatText(whole)
    else NatText(whole) + "." + StripTrailingZeros(PadZeros(NatText(fraction), scale))
  }

  /** `String(v)`. An array is joined with commas and shows `null` and
      `undefined` elements as empty strings. */
  function ToText(v: Value): (r: string)
    ensures v.Str? ==> r == v.s
    ensures v.Num? ==> r != []
    decreases v, 1
  {
    match v
    case Undefined => "undefined"
    case Null => "null"
    case Bool(b) => if b then "true" else "false"
    case Num(m, s) => NumberText(m, s)
    case NaN => "NaN"
    case Infinity(negative) => if negative then "-Infinity" else "Infinity"
    case Str(s) => s
    case List(items) => JoinTexts(v, items)
    case Object => "[object Object]"
  }

  function JoinTexts(ghost parent: Value, items: seq<Value>): string
    requires forall i | 0 <= i < |items| :: items[i] < parent
    decreases parent, 0, |items|
  {
    if items == [] then ""
    else
      var head := if items[0].Undefined? || items[0].Null? then "" else ToText(items[0]);
      if |items| == 1 then head else head + "," + JoinTexts(parent, items[1..])
  }

  // ---------------------------------------------------------------------------
  // String.prototype.trim

  /** The white space and line terminators that `trim` and `Number` skip. */
  predicate IsWhiteSpace(c: char) {
    c == '\t' || c == '\n' || c == '\U{B}' || c == '\U{C}' || c == '\r' || c == ' '
    || c == '\U{A0}' || c == '\U{1680}' || ('\U{2000}' <= c <= '\U{200A}')
    || c == '\U{2028}' || c == '\U{2029}' || c == '\U{202F}' || c == '\U{205F}'
    || c == '\U{3000}' || c == '\U{FEFF}'
  }

  /** `s` without its leading white space. */
  function TrimStart(s: string): (r: string)
    ensures |r| <= |s| && r == s[|s| - |r|..]
    ensures forall i | 0 <= i < |s| - |r| :: IsWhiteSpace(s[i])
    ensures r == [] || !IsWhiteSpace(r[0])
  {
    if s != [] && IsWhiteSpace(s[0]) then TrimStart(s[1..]) else s
  }

  /** `s` without its trailing white space. */
  function TrimEnd(s: string): (r: string)
    ensures |r| <= |s| && r == s[..|r|]
    ensures forall i | |r| <= i < |s| :: IsWhiteSpace(s[i])
    ensures r == [] || !IsWhiteSpace(r[|r| - 1])
  {
    if s != [] && IsWhiteSpace(s[|s| - 1]) then TrimEnd(s[..|s| - 1]) else s
  }

  /** `s.trim()`. */
  function Trim(s: string): (r: string)
    ensures |r| <= |s|
  {
    TrimEnd(TrimStart(s))
  }

  /** `trim` returns a piece of its input: the text between two positions
      of it. */
  lemma TrimPiece(s: string)
    ensures exists i, j | 0 <= i <= j <= |s| :: Trim(s) == s[i..j]
  {
    var t := TrimStart(s);
    var i := |s| - |t|;
    assert Trim(s) == t[..|Trim(s)|];
    assert Trim(s) == s[i..i + |Trim(s)|];
  }

  /** What `trim` returns begins and ends with a character other than white
      space, and is empty only when `s` holds nothing but white space. */
  lemma TrimShape(s: string)
    ensures Trim(s) == [] || (!IsWhiteSpace(Trim(s)[0]) && !IsWhiteSpace(Trim(s)[|Trim(s)| - 1]))
    ensures Trim(s) == [] <==> forall i | 0 <= i < |s| :: IsWhiteSpace(s[i])
  {
    var t := TrimStart(s);
    var r := TrimEnd(t);
    if r != [] {
      assert r[0] == t[0];
    }
    if r == [] {
      assert t == [];
    }
  }

  /** Trimming a string that does not start or end with white space keeps it. */
  lemma TrimKeeps(s: string)
    requires s == [] || (!IsWhiteSpace(s[0]) && !IsWhiteSpace(s[|s| - 1]))
    ensures Trim(s) == s
  {
  }
}
