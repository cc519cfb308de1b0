/** The commission arithmetic of server.js: `parseNum`, `clampCredito` and
    `normalizeSaleInput`, which turn a request body into the derived fields
    of a sale (credit, commission total, the six installment statuses). */
module Commission {
  import opened JsValues
  import opened JsNumber

  /** The regulatory credit cap, `LIMIT_CREDITO`. */
  const LimitCredito: real := 1500000.0

  datatype Seguro = Sim | Nao
  datatype Base = Venda | Credito
  /** The status of one commission installment. */
  datatype Parcela = Pago | Pendente | Atrasado

  /** The fields of a request body that the sales handlers read; a field the
      client did not send is `Undefined`. */
  datatype Body = Body(
    cliente: Value, produto: Value, data: Value, seguro: Value,
    cotas: Value, valorUnit: Value, valorVenda: Value,
    baseComissao: Value, taxaPct: Value, parcelas: Value,
    consultorName: Value, userId: Value)

  /** The normalised input fields of a sale. */
  datatype SaleInput = SaleInput(
    cliente: string, produto: string, data: string, seguro: Seguro,
    cotas: int, valorUnit: real, valorVenda: real,
    baseComissao: Base, taxaPct: real,
    creditoRaw: real, credito: real, comissaoTotal: real,
    parcelas: seq<Parcela>)
  {
    /** The amount the commission rate applies to. */
    function BaseAmount(): real {
      if baseComissao == Venda then valorVenda else credito
    }

    /** What every normalised sale satisfies. */
    predicate Valid() {
      && cotas >= 0 && valorUnit >= 0.0 && valorVenda >= 0.0
      && creditoRaw == cotas as real * valorUnit
      && credito == ClampCredito(creditoRaw)
      && 0.0 <= credito <= LimitCredito
      && comissaoTotal == BaseAmount() * (taxaPct / 100.0)
      && |parcelas| == 6
    }
  }

  // ---------------------------------------------------------------------------
  // parseNum

  /** `s` with every `.` removed (`replace(/\./g, "")`). */
  function DropDots(s: string): (r: string)
    ensures '.' !in r
    ensures forall c :: c in r <==> c in s && c != '.'
  {
    if s == [] then []
    else (if s[0] == '.' then [] else [s[0]]) + DropDots(s[1..])
  }

  /** The index of the first `c` in `s`, or `|s|` when there is none. */
  function IndexOf(s: string, c: char): (k: nat)
    ensures k <= |s|
    ensures k < |s| ==> s[k] == c
    ensures forall i | 0 <= i < k :: s[i] != c
  {
    if s == [] then 0
    else if s[0] == c then 0
    else 1 + IndexOf(s[1..], c)
  }

  /** `s` with its first `,` turned into `.` (`replace(",", ".")`). */
  function CommaToPoint(s: string): (r: string)
    ensures |r| == |s|
    ensures forall i | 0 <= i < |s| :: r[i] == if i == IndexOf(s, ',') then '.' else s[i]
  {
    var k := IndexOf(s, ',');
    if k == |s| then s else s[..k] + "." + s[k + 1..]
  }

  /** The pt-BR clean-up: `.` is a thousands separator, `,` the decimal one.
      A `.` is left exactly when the text held a comma. */
  function LocaleClean(s: string): (r: string)
    ensures '.' in r <==> ',' in s
  {
    var d := DropDots(s);
    var k := IndexOf(d, ',');
    var r := CommaToPoint(d);
    assert ',' in s <==> k < |d| by {
      if ',' in s {
        assert ',' in d;
        var i :| 0 <= i < |d| && d[i] == ',';
      }
    }
    assert '.' in r <==> k < |d| by {
      if '.' in r {
        var i :| 0 <= i < |r| && r[i] == '.';
        assert d[i] != '.';
      }
      if k < |d| {
        assert r[k] == '.';
      }
    }
    r
  }

  function FiniteOrZero(p: Parsed): real {
    match p
    case Finite(x) => x
    case NotFinite => 0.0
  }

  /** `parseNum`: a finite number is kept, `null`, `undefined` and the
      non-finite numbers become 0, and anything else is converted to text,
      trimmed, cleaned of pt-BR separators and read by `Number`, with 0 when
      that does not give a finite number. */
  function ParseNum(v: Value): (r: real)
    ensures v == Undefined || v == Null || v == NaN || v.Infinity? ==> r == 0.0
    ensures v.Num? ==> r == NumValue(v.mantissa, v.scale)
    ensures v.Str? ==> r == ParseText(v.s)
  {
    match v
    case Undefined | Null => 0.0
    case Num(m, scale) => NumValue(m, scale)
    case NaN | Infinity(_) => 0.0
    case _ => ParseText(ToText(v))
  }

  /** The text branch of `parseNum`: what `Number` reads from the cleaned
      text when that is finite, and 0 otherwise. */
  function ParseText(s: string): (r: real)
    ensures StringToNumber(LocaleClean(Trim(s))).Finite? ==> r == StringToNumber(LocaleClean(Trim(s))).x
    ensures StringToNumber(LocaleClean(Trim(s))).NotFinite? ==> r == 0.0
  {
    FiniteOrZero(StringToNumber(LocaleClean(Trim(s))))
  }

  /** After the clean-up there is at most one decimal point, it stands where
      the first comma was, and every other character was already there. */
  lemma LocaleCleanShape(s: string)
    ensures forall i, j | 0 <= i < j < |LocaleClean(s)| :: !(LocaleClean(s)[i] == '.' && LocaleClean(s)[j] == '.')
    ensures forall i | 0 <= i < |LocaleClean(s)| && LocaleClean(s)[i] == '.' :: i == IndexOf(DropDots(s), ',')
    ensures forall c | c != '.' && c != ',' :: c in LocaleClean(s) <==> c in s
  {
    OnlyPoint(s);
    CleanKeeps(s);
  }

  /** The only `.` left is the one that replaced the first comma. */
  lemma OnlyPoint(s: string)
    ensures forall i | 0 <= i < |LocaleClean(s)| && LocaleClean(s)[i] == '.' :: i == IndexOf(DropDots(s), ',')
  {
    var r := LocaleClean(s);
    forall i | 0 <= i < |r| && r[i] == '.' ensures i == IndexOf(DropDots(s), ',') {
    }
  }

  /** Characters other than `.` and `,` survive the clean-up, and none appear. */
  lemma CleanKeeps(s: string)
    ensures forall c | c != '.' && c != ',' :: c in LocaleClean(s) <==> c in s
  {
    var d := DropDots(s);
    var r := LocaleClean(s);
    forall c | c != '.' && c != ',' ensures c in r <==> c in s {
      if c in r {
        var i :| 0 <= i < |r| && r[i] == c;
        assert d[i] == c;
      }
      if c in d {
        var i :| 0 <= i < |d| && d[i] == c;
        assert r[i] == c;
      }
    }
  }

  /** Text without any digit is worth 0: non-numeric input degrades to 0. */
  lemma ParseNumWithoutDigits(v: Value)
    requires forall i | 0 <= i < |ToText(v)| :: !IsDigit(ToText(v)[i])
    ensures ParseNum(v) == 0.0 || (v.Num? && ParseNum(v) == NumValue(v.mantissa, v.scale))
  {
    if !(v.Undefined? || v.Null? || v.Num? || v.NaN? || v.Infinity?) {
      assert ParseNum(v) == ParseText(ToText(v));
      TextWithoutDigits(ToText(v));
    }
  }

  /** The text branch of `parseNum` on text without digits gives 0. */
  lemma TextWithoutDigits(s: string)
    requires forall i | 0 <= i < |s| :: !IsDigit(s[i])
    ensures ParseText(s) == 0.0
  {
    var t := Trim(s);
    TrimDigitFree(s);
    var c := LocaleClean(t);
    LocaleCleanShape(t);
    forall i | 0 <= i < |c| ensures !IsDigit(c[i]) {
      assert c[i] in c;
    }
    NoDigitsNoValue(c);
  }

  lemma TrimDigitFree(s: string)
    requires forall i | 0 <= i < |s| :: !IsDigit(s[i])
    ensures forall i | 0 <= i < |Trim(s)| :: !IsDigit(Trim(s)[i])
  {
    var ts := TrimStart(s);
    var t := Trim(s);
    assert t == TrimEnd(ts) && t == ts[..|t|];
    forall i | 0 <= i < |t| ensures !IsDigit(t[i]) {
      assert t[i] == ts[i];
      assert ts[i] == s[|s| - |ts| + i];
    }
  }

  /** `true` and `false` read as 0. */
  lemma ParseNumOfBool(b: bool)
    ensures ParseNum(Bool(b)) == 0.0
  {
    var t := ToText(Bool(b));
    assert t == if b then "true" else "false";
    assert forall i | 0 <= i < |t| :: !IsDigit(t[i]);
    ParseNumWithoutDigits(Bool(b));
  }

  /** A whole number sent as text, as `String(n)` writes it, parses back to
      the same number it parses to when sent as a number. */
  lemma ParseNumWholeText(m: int)
    ensures ParseNum(Str(ToText(Num(m, 0)))) == ParseNum(Num(m, 0)) == m as real
  {
    var magnitude: nat := if m < 0 then -m else m;
    WholeNumberText(m);
    WholeNumberValue(m);
    var t := NatText(magnitude);
    JsNumber.DigitsOfNatText(magnitude);
    SignedDigitsParse(t);
    if m < 0 {
      assert ToText(Num(m, 0)) == "-" + t;
    } else {
      assert ToText(Num(m, 0)) == t;
    }
  }

  /** `String(m)` for a whole number is its sign and its digits. */
  lemma WholeNumberText(m: int)
    ensures ToText(Num(m, 0)) == (if m < 0 then "-" else "") + NatText(if m < 0 then -m else m)
  {
    var magnitude: nat := if m < 0 then -m else m;
    QuotientByOne(magnitude);
    assert magnitude % Pow10(0) == 0;
  }

  lemma WholeNumberValue(m: int)
    ensures NumValue(m, 0) == m as real
  {
    assert Pow10(0) == 1;
  }

  /** A run of digits, with or without a minus sign, parses to its value. */
  lemma SignedDigitsParse(t: string)
    requires t != [] && AllDigits(t)
    ensures ParseNum(Str(t)) == DigitsValue(t) as real
    ensures ParseNum(Str("-" + t)) == -(DigitsValue(t) as real)
  {
    DigitsRoundTrip(t);
    DigitsParse(t);
    NegatedDigitsParse(t);
  }

  lemma DigitsParse(t: string)
    requires t != [] && AllDigits(t)
    ensures ParseNum(Str(t)) == FiniteOrZero(StringToNumber(t))
  {
    TrimDigits(t);
    CleanDigits(t);
  }

  lemma NegatedDigitsParse(t: string)
    requires t != [] && AllDigits(t)
    ensures ParseNum(Str("-" + t)) == FiniteOrZero(StringToNumber("-" + t))
  {
    TrimNegated(t);
    CleanNegated(t);
  }

  lemma TrimDigits(t: string)
    requires t != [] && AllDigits(t)
    ensures Trim(t) == t
  {
    assert IsDigit(t[0]) && IsDigit(t[|t| - 1]);
    TrimKeeps(t);
  }

  lemma TrimNegated(t: string)
    requires t != [] && AllDigits(t)
    ensures Trim("-" + t) == "-" + t
  {
    var u := "-" + t;
    assert u[|u| - 1] == t[|t| - 1] && IsDigit(t[|t| - 1]);
    TrimKeeps(u);
  }

  lemma CleanDigits(t: string)
    requires AllDigits(t)
    ensures LocaleClean(t) == t
  {
    forall i | 0 <= i < |t| ensures t[i] != '.' && t[i] != ',' {
      assert IsDigit(t[i]);
    }
    NoSeparators(t);
  }

  lemma CleanNegated(t: string)
    requires AllDigits(t)
    ensures LocaleClean("-" + t) == "-" + t
  {
    var u := "-" + t;
    forall i | 0 <= i < |u| ensures u[i] != '.' && u[i] != ',' {
      if i > 0 {
        assert u[i] == t[i - 1] && IsDigit(t[i - 1]);
      }
    }
    NoSeparators(u);
  }

  lemma QuotientByOne(a: nat)
    ensures Quotient(a, 1) == a
  {
  }

  /** A signed run of digits has nothing for the pt-BR clean-up to change. */
  lemma NoSeparators(s: string)
    requires forall i | 0 <= i < |s| :: s[i] != '.' && s[i] != ','
    ensures LocaleClean(s) == s
  {
    if s != [] {
      NoSeparators(s[1..]);
    }
    assert DropDots(s) == s;
  }

  /** The pt-BR reading of numbers: a `.` between digits groups them (it is
      a thousands separator, never a decimal point), so `1.500` reads as
      1500. */
  lemma ParseNumGroupedDigits(a: string, b: string)
    requires a != [] && b != [] && AllDigits(a) && AllDigits(b)
    ensures ParseNum(Str(a + "." + b)) == (DigitsValue(a) * Pow10(|b|) + DigitsValue(b)) as real
  {
    GroupedClean(a, b);
    GroupedNumber(a, b);
    ParseNumOfStr(a + "." + b);
  }

  /** `Number` reads the digits of `a` followed by those of `b`. */
  lemma GroupedNumber(a: string, b: string)
    requires a != [] && AllDigits(a) && AllDigits(b)
    ensures StringToNumber(a + b) == Finite((DigitsValue(a) * Pow10(|b|) + DigitsValue(b)) as real)
  {
    DigitsConcat(a, b);
    DigitsNumber(a + b, DigitsValue(a) * Pow10(|b|) + DigitsValue(b));
  }

  lemma DigitsNumber(t: string, n: nat)
    requires t != [] && AllDigits(t) && DigitsValue(t) == n
    ensures StringToNumber(t) == Finite(n as real)
  {
    DigitsRoundTrip(t);
  }

  /** Trimming and the clean-up turn `a.b` into `ab`. */
  lemma GroupedClean(a: string, b: string)
    requires a != [] && b != [] && AllDigits(a) && AllDigits(b)
    ensures LocaleClean(Trim(a + "." + b)) == a + b
  {
    var s := a + "." + b;
    assert s[0] == a[0] && s[|s| - 1] == b[|b| - 1];
    assert IsDigit(a[0]) && IsDigit(b[|b| - 1]);
    TrimKeeps(s);
    GroupedDrop(a, b);
    var d := a + b;
    forall i | 0 <= i < |d| ensures d[i] != ',' {
      assert IsDigit(d[i]);
    }
    NoCommas(d);
  }

  /** Dropping the dots of `a.b` leaves `ab`. */
  lemma GroupedDrop(a: string, b: string)
    requires AllDigits(a) && AllDigits(b)
    ensures DropDots(a + "." + b) == a + b
  {
    forall i | 0 <= i < |a| ensures a[i] != '.' {
      assert IsDigit(a[i]);
    }
    forall i | 0 <= i < |b| ensures b[i] != '.' {
      assert IsDigit(b[i]);
    }
    DropDotsConcat(a + ".", b);
    DropDotsConcat(a, ".");
    NoDots(a);
    NoDots(b);
    assert DropDots(".") == [];
    assert DropDots(a + ".") == a + [];
    assert a + [] == a;
  }

  lemma ParseNumOfStr(s: string)
    ensures ParseNum(Str(s)) == ParseText(s)
  {
  }

  /** A string without dots has nothing for `replace(/\./g, "")` to remove. */
  lemma {:induction false} NoDots(s: string)
    requires forall i | 0 <= i < |s| :: s[i] != '.'
    ensures DropDots(s) == s
  {
    if s != [] {
      NoDots(s[1..]);
    }
  }

  /** Removing the dots of two pieces one after the other. */
  lemma {:induction false} DropDotsConcat(a: string, b: string)
    ensures DropDots(a + b) == DropDots(a) + DropDots(b)
  {
    if a != [] {
      assert (a + b)[1..] == a[1..] + b;
      DropDotsConcat(a[1..], b);
    } else {
      assert a + b == b;
    }
  }

  /** The value of two runs of digits written one after the other. */
  lemma {:induction false} DigitsConcat(a: string, b: string)
    requires AllDigits(a) && AllDigits(b)
    ensures AllDigits(a + b)
    ensures DigitsValue(a + b) == DigitsValue(a) * Pow10(|b|) + DigitsValue(b)
  {
    if b == [] {
      assert a + b == a;
    } else {
      var b' := b[..|b| - 1];
      var d := b[|b| - 1] as int - '0' as int;
      assert (a + b)[..|a + b| - 1] == a + b';
      assert (a + b)[|a + b| - 1] == b[|b| - 1];
      DigitsConcat(a, b');
      var x, p := DigitsValue(a), Pow10(|b'|);
      assert DigitsValue(a + b) == DigitsValue(a + b') * 10 + d;
      assert DigitsValue(b) == DigitsValue(b') * 10 + d;
      assert Pow10(|b|) == 10 * p;
      ScaleByTen(x, p);
    }
  }

  lemma ScaleByTen(x: nat, p: nat)
    ensures x * (10 * p) == 10 * (x * p)
  {
  }

  /** The pt-BR reading of numbers: `,` is the decimal separator, so the
      digits `a`, a comma and the digits `b` read as `a` plus the fraction
      `b`; `"2,5"` is 2.5. */
  lemma ParseNumDecimalComma(a: string, b: string)
    requires AllDigits(a) && AllDigits(b) && b != []
    ensures ParseNum(Str(a + "," + b)) == DigitsValue(a) as real + DigitsValue(b) as real / Pow10(|b|) as real
  {
    DecimalCommaClean(a, b);
    CleanDecimalParse(a + "," + b, a, b, DigitsValue(a));
  }

  /** Text that trims and cleans up to `w.f` parses to the value of `w`
      (given as `n`) plus the fraction `f`. */
  lemma CleanDecimalParse(s: string, w: string, f: string, n: nat)
    requires AllDigits(w) && AllDigits(f) && f != [] && DigitsValue(w) == n
    requires LocaleClean(Trim(s)) == w + "." + f
    ensures ParseNum(Str(s)) == n as real + DigitsValue(f) as real / Pow10(|f|) as real
  {
    ParseNumOfStr(s);
    DecimalRoundTrip(w, f);
  }

  /** Trimming and the clean-up turn `a,b` into `a.b`. */
  lemma DecimalCommaClean(a: string, b: string)
    requires AllDigits(a) && AllDigits(b) && b != []
    ensures LocaleClean(Trim(a + "," + b)) == a + "." + b
  {
    var s := a + "," + b;
    assert s[|s| - 1] == b[|b| - 1] && IsDigit(b[|b| - 1]);
    assert s[0] == ',' || (s[0] == a[0] && IsDigit(a[0]));
    TrimKeeps(s);
    CommaNoDots(a, b);
    forall i | 0 <= i < |a| ensures a[i] != ',' {
      assert IsDigit(a[i]);
    }
    CommaAt(a, b);
  }

  /** `a,b` holds no `.` for the clean-up to drop. */
  lemma CommaNoDots(a: string, b: string)
    requires AllDigits(a) && AllDigits(b)
    ensures DropDots(a + "," + b) == a + "," + b
  {
    var s := a + "," + b;
    forall i | 0 <= i < |s| ensures s[i] != '.' {
      if i < |a| {
        assert s[i] == a[i] && IsDigit(a[i]);
      } else if i > |a| {
        assert s[i] == b[i - |a| - 1] && IsDigit(b[i - |a| - 1]);
      }
    }
    NoDots(s);
  }

  /** The first comma of `w,f`, when `w` has none, is the one after `w`. */
  lemma CommaAt(w: string, f: string)
    requires forall i | 0 <= i < |w| :: w[i] != ','
    ensures CommaToPoint(w + "," + f) == w + "." + f
  {
    var s := w + "," + f;
    var k := IndexOf(s, ',');
    assert s[|w|] == ',';
    assert k == |w|;
    assert s[..k] == w && s[k + 1..] == f;
  }

  /** The full pt-BR form: thousands grouped with `.` and a decimal comma,
      as in `1.500,25`. The grouping dot is dropped, so the whole part is
      the digits of `a` and `b` read together (`DigitsConcat` gives that
      as `a * 10^|b| + b`). */
  lemma ParseNumGroupedDecimal(a: string, b: string, c: string)
    requires a != [] && c != [] && AllDigits(a) && AllDigits(b) && AllDigits(c)
    ensures ParseNum(Str(a + "." + b + "," + c))
      == DigitsValue(a + b) as real + DigitsValue(c) as real / Pow10(|c|) as real
  {
    GroupedDecimalClean(a, b, c);
    CleanDecimalParse(a + "." + b + "," + c, a + b, c, DigitsValue(a + b));
  }

  /** Trimming and the clean-up turn `a.b,c` into `ab.c`. */
  lemma GroupedDecimalClean(a: string, b: string, c: string)
    requires a != [] && c != [] && AllDigits(a) && AllDigits(b) && AllDigits(c)
    ensures LocaleClean(Trim(a + "." + b + "," + c)) == (a + b) + "." + c
  {
    var s := a + "." + b + "," + c;
    assert s[0] == a[0] && IsDigit(a[0]);
    assert s[|s| - 1] == c[|c| - 1] && IsDigit(c[|c| - 1]);
    TrimKeeps(s);
    GroupedCommaDrop(a, b, c);
    DigitsConcat(a, b);
    forall i | 0 <= i < |a + b| ensures (a + b)[i] != ',' {
      assert IsDigit((a + b)[i]);
    }
    CommaAt(a + b, c);
  }

  /** Dropping the dots of `a.b,c` leaves `ab,c`. */
  lemma GroupedCommaDrop(a: string, b: string, c: string)
    requires AllDigits(a) && AllDigits(b) && AllDigits(c)
    ensures DropDots(a + "." + b + "," + c) == (a + b) + "," + c
  {
    var tail := "," + c;
    forall i | 0 <= i < |tail| ensures tail[i] != '.' {
      if i > 0 {
        assert tail[i] == c[i - 1] && IsDigit(c[i - 1]);
      }
    }
    NoDots(tail);
    GroupedDrop(a, b);
    assert a + "." + b + "," + c == (a + "." + b) + tail;
    DropDotsConcat(a + "." + b, tail);
    assert (a + b) + tail == (a + b) + "," + c;
  }

  lemma NoCommas(s: string)
    requires forall i | 0 <= i < |s| :: s[i] != ','
    ensures CommaToPoint(s) == s
  {
  }

  // ---------------------------------------------------------------------------
  // clampCredito

  function Max(a: real, b: real): (r: real)
    ensures r >= a && r >= b && (r == a || r == b)
  {
    if a >= b then a else b
  }

  function Min(a: real, b: real): (r: real)
    ensures r <= a && r <= b && (r == a || r == b)
  {
    if a <= b then a else b
  }

  /** `Math.min(Math.max(raw, 0), LIMIT_CREDITO)`. */
  function ClampCredito(raw: real): (r: real)
    ensures 0.0 <= r <= LimitCredito
    ensures 0.0 <= raw <= LimitCredito ==> r == raw
    ensures raw > LimitCredito ==> r == LimitCredito
    ensures raw < 0.0 ==> r == 0.0
  {
    Min(Max(raw, 0.0), LimitCredito)
  }

  /** Clamping twice is clamping once. */
  lemma ClampIdempotent(raw: real)
    ensures ClampCredito(ClampCredito(raw)) == ClampCredito(raw)
  {
  }

  // ---------------------------------------------------------------------------
  // normalizeSaleInput

  /** `String(v || "").trim()`. */
  function TextField(v: Value): (r: string)
    ensures r == [] || (!IsWhiteSpace(r[0]) && !IsWhiteSpace(r[|r| - 1]))
  {
    TrimShape(ToText(OrElse(v, Str(""))));
    Trim(ToText(OrElse(v, Str(""))))
  }

  /** One slot of `parcelas`: a known status is kept, anything else is
      `Pendente`. */
  function StatusOf(v: Value): (p: Parcela)
    ensures p == Pago <==> v == Str("Pago")
    ensures p == Atrasado <==> v == Str("Atrasado")
  {
    if v == Str("Pago") then Pago
    else if v == Str("Atrasado") then Atrasado
    else Pendente
  }

  /** `Math.max(0, Math.floor(x))`. */
  function FloorAtZero(x: real): (n: int)
    ensures n >= 0
    ensures x >= 0.0 ==> n as real <= x < n as real + 1.0
    ensures x < 0.0 ==> n == 0
  {
    if x.Floor < 0 then 0 else x.Floor
  }

  /** The installment statuses: a six-element array keeps its valid entries
      in place, anything else becomes six `Pendente`. */
  function Installments(v: Value): (r: seq<Parcela>)
    ensures |r| == 6
    ensures v.List? && |v.items| == 6 ==> forall i | 0 <= i < 6 :: r[i] == StatusOf(v.items[i])
    ensures !(v.List? && |v.items| == 6) ==> forall i | 0 <= i < 6 :: r[i] == Pendente
  {
    if v.List? && |v.items| == 6 then seq(6, i requires 0 <= i < 6 => StatusOf(v.items[i]))
    else [Pendente, Pendente, Pendente, Pendente, Pendente, Pendente]
  }

  /** `normalizeSaleInput`. */
  function NormalizeSaleInput(body: Body): (r: SaleInput)
    ensures r.Valid()
    ensures r.cliente == TextField(body.cliente)
    ensures r.produto == TextField(body.produto)
    ensures r.data == TextField(body.data)
    ensures r.seguro == Sim <==> body.seguro == Str("Sim")
    ensures r.baseComissao == Venda <==> body.baseComissao == Str("venda")
    ensures ParseNum(body.cotas) >= 0.0 ==> r.cotas as real <= ParseNum(body.cotas) < r.cotas as real + 1.0
    ensures ParseNum(body.cotas) < 0.0 ==> r.cotas == 0
    ensures r.cotas == FloorAtZero(ParseNum(body.cotas))
    ensures r.valorUnit == Max(0.0, ParseNum(body.valorUnit))
    ensures r.valorVenda == Max(0.0, ParseNum(body.valorVenda))
    ensures r.taxaPct == ParseNum(body.taxaPct)
    ensures r.parcelas == Installments(body.parcelas)
  {
    var cotas := FloorAtZero(ParseNum(body.cotas));
    var valorUnit := Max(0.0, ParseNum(body.valorUnit));
    var taxaPct := ParseNum(body.taxaPct);
    var seguro := if body.seguro == Str("Sim") then Sim else Nao;
    var baseComissao := if body.baseComissao == Str("venda") then Venda else Credito;
    var valorVenda := Max(0.0, ParseNum(body.valorVenda));
    WithDerived(
      TextField(body.cliente), TextField(body.produto), TextField(body.data), seguro,
      cotas, valorUnit, valorVenda, baseComissao, taxaPct, Installments(body.parcelas))
  }

  /** The sale with its credit and commission derived from the amounts:
      `creditoRaw = cotas * valorUnit`, the credit clamped to the cap, and the
      rate applied to the sale value or to the credit. */
  function WithDerived(
    cliente: string, produto: string, data: string, seguro: Seguro,
    cotas: nat, valorUnit: real, valorVenda: real, baseComissao: Base, taxaPct: real,
    parcelas: seq<Parcela>): (r: SaleInput)
    requires valorUnit >= 0.0 && valorVenda >= 0.0 && |parcelas| == 6
    ensures r.Valid()
    ensures r.cliente == cliente && r.produto == produto && r.data == data && r.seguro == seguro
    ensures r.cotas == cotas && r.valorUnit == valorUnit && r.valorVenda == valorVenda
    ensures r.baseComissao == baseComissao && r.taxaPct == taxaPct && r.parcelas == parcelas
  {
    var creditoRaw := cotas as real * valorUnit;
    var credito := ClampCredito(creditoRaw);
    var base := if baseComissao == Venda then valorVenda else credito;
    var comissaoTotal := base * (taxaPct / 100.0);
    SaleInput(
      cliente, produto, data, seguro, cotas, valorUnit, valorVenda, baseComissao, taxaPct,
      creditoRaw, credito, comissaoTotal, parcelas)
  }

  /** A body with the given amounts, as a JSON client sends it. */
  function AmountsBody(cotas: int, valorUnit: int, taxaPct: int, base: string): Body {
    Body(Str("Ana"), Str("Consórcio"), Str("2024-05-01"), Str("Não"),
      Num(cotas, 0), Num(valorUnit, 0), Undefined, Str(base), Num(taxaPct, 0), Undefined,
      Undefined, Undefined)
  }

  /** Ten quotas of 1000 at 5% on the credit: 10000 of credit, 500 of
      commission, six installments of 500/6. */
  lemma ScenarioUnderCap()
    ensures NormalizeSaleInput(AmountsBody(10, 1000, 5, "credito")).credito == 10000.0
    ensures NormalizeSaleInput(AmountsBody(10, 1000, 5, "credito")).comissaoTotal == 500.0
  {
    var body := AmountsBody(10, 1000, 5, "credito");
    AmountsParse(10, 1000, 5, "credito");
    var r := NormalizeSaleInput(body);
    assert r.cotas == 10 && r.valorUnit == 1000.0 && r.taxaPct == 5.0;
    assert r.creditoRaw == 10000.0;
  }

  /** 2000 quotas of 1000 make 2000000 of raw credit, clamped to the cap of
      1500000; 5% of that is 75000. */
  lemma ScenarioOverCap()
    ensures NormalizeSaleInput(AmountsBody(2000, 1000, 5, "credito")).creditoRaw == 2000000.0
    ensures NormalizeSaleInput(AmountsBody(2000, 1000, 5, "credito")).credito == 1500000.0
    ensures NormalizeSaleInput(AmountsBody(2000, 1000, 5, "credito")).comissaoTotal == 75000.0
  {
    var body := AmountsBody(2000, 1000, 5, "credito");
    AmountsParse(2000, 1000, 5, "credito");
    var r := NormalizeSaleInput(body);
    assert r.cotas == 2000 && r.valorUnit == 1000.0 && r.taxaPct == 5.0;
    assert r.creditoRaw == 2000000.0;
  }

  lemma AmountsParse(cotas: nat, valorUnit: nat, taxaPct: int, base: string)
    requires base != "venda"
    ensures ParseNum(AmountsBody(cotas, valorUnit, taxaPct, base).cotas) == cotas as real
    ensures ParseNum(AmountsBody(cotas, valorUnit, taxaPct, base).valorUnit) == valorUnit as real
    ensures ParseNum(AmountsBody(cotas, valorUnit, taxaPct, base).taxaPct) == taxaPct as real
    ensures NormalizeSaleInput(AmountsBody(cotas, valorUnit, taxaPct, base)).baseComissao == Credito
  {
    WholeNumberValue(cotas);
    WholeNumberValue(valorUnit);
    WholeNumberValue(taxaPct);
  }
}
