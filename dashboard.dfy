/** The numeric side of public/dashboard.js: the client's copies of the
    number parser and the credit clamp, the per-row figures of
    `saleComputed`, the KPI totals of `renderKPIs` and the live preview of
    `updatePreview`. Rows are the sales as the list endpoint returns them. */
module Dashboard {
  import opened Wrappers
  import opened JsValues
  import opened Commission

  /** `LIMIT`, the client's copy of the credit cap. */
  const Limit: real := 1500000.0

  /** `parseNumber`: the client's copy of the server's `parseNum`. */
  function ParseNumber(v: Value): (r: real)
    ensures r == ParseNum(v)
  {
    match v
    case Undefined | Null => 0.0
    case Num(m, scale) => NumValue(m, scale)
    case NaN | Infinity(_) => 0.0
    case _ => ParseText(ToText(v))
  }

  /** `clampCredito`: the client's copy of the server's clamp. */
  function Clamp(raw: real): (r: real)
    ensures r == ClampCredito(raw)
  {
    Min(Max(raw, 0.0), Limit)
  }

  // ---------------------------------------------------------------------------
  // saleComputed

  /** An entry of a row's `parcelas` array as the dashboard tests it: one of
      the three status strings, or anything else. */
  datatype Slot = Known(status: Parcela) | Unknown

  /** A sale as the dashboard receives it. A numeric field is a number or
      missing; a missing `parcelas` is not an array. */
  datatype Row = Row(
    consultorName: string,
    cotas: Option<real>, valorUnit: Option<real>, valorVenda: Option<real>, taxaPct: Option<real>,
    baseComissao: string,
    parcelas: Option<seq<Slot>>)

  /** The figures `saleComputed` derives from one row. */
  datatype Computed = Computed(
    credito: real, base: real, comissaoTotal: real, parcelaValor: real,
    pagoN: nat, atrasadoN: nat, pendenteN: nat)

  /** `x || 0` on a numeric field. */
  function OrZero(x: Option<real>): real {
    if x.Some? then x.value else 0.0
  }

  /** `xs.filter(y => y === x).length`. */
  function Count(xs: seq<Slot>, x: Parcela): (n: nat)
    ensures n == multiset(xs)[Known(x)]
    ensures n <= |xs|
  {
    if xs == [] then 0
    else
      assert xs == [xs[0]] + xs[1..];
      (if xs[0] == Known(x) then 1 else 0) + Count(xs[1..], x)
  }

  /** The three statuses are counted apart: together they never exceed the
      length, and they fill it when every entry is a status. */
  lemma {:induction false} CountsBounded(xs: seq<Slot>)
    ensures Count(xs, Pago) + Count(xs, Atrasado) + Count(xs, Pendente) <= |xs|
    ensures (forall i | 0 <= i < |xs| :: xs[i].Known?) ==>
      Count(xs, Pago) + Count(xs, Atrasado) + Count(xs, Pendente) == |xs|
  {
    if xs != [] {
      var rest := xs[1..];
      CountsBounded(rest);
      assert Count(xs, Pago) == (if xs[0] == Known(Pago) then 1 else 0) + Count(rest, Pago);
      assert Count(xs, Atrasado) == (if xs[0] == Known(Atrasado) then 1 else 0) + Count(rest, Atrasado);
      assert Count(xs, Pendente) == (if xs[0] == Known(Pendente) then 1 else 0) + Count(rest, Pendente);
      if forall i | 0 <= i < |xs| :: xs[i].Known? {
        assert xs[0] == Known(Pago) || xs[0] == Known(Atrasado) || xs[0] == Known(Pendente) by {
          assert xs[0].Known?;
          match xs[0].status
          case Pago =>
          case Atrasado =>
          case Pendente =>
        }
        assert forall i | 0 <= i < |rest| :: rest[i].Known? by {
          forall i | 0 <= i < |rest| ensures rest[i].Known? {
            assert rest[i] == xs[i + 1];
          }
        }
      }
    }
  }

  /** `Array(n).fill("Pendente")`. */
  function Pending(n: nat): (r: seq<Slot>)
    ensures |r| == n
  {
    if n == 0 then [] else [Known(Pendente)] + Pending(n - 1)
  }

  /** A run of `"Pendente"` counts as that many pending and nothing else. */
  lemma {:induction false} CountsOfPending(n: nat)
    ensures Count(Pending(n), Pendente) == n
    ensures Count(Pending(n), Pago) == 0
    ensures Count(Pending(n), Atrasado) == 0
  {
    if n > 0 {
      CountsOfPending(n - 1);
      assert Pending(n)[1..] == Pending(n - 1);
    }
  }

  /** The statuses a row is counted on: six `"Pendente"` when `parcelas` is
      not an array. */
  function Statuses(r: Row): seq<Slot> {
    if r.parcelas.Some? then r.parcelas.value else Pending(6)
  }

  /** `saleComputed`. */
  function SaleComputed(r: Row): (c: Computed)
    ensures 0.0 <= c.credito <= Limit
    ensures c.credito == ClampCredito(OrZero(r.cotas) * OrZero(r.valorUnit))
    ensures c.pagoN + c.atrasadoN + c.pendenteN <= |Statuses(r)|
    ensures r.parcelas.None? ==> c.pendenteN == 6 && c.pagoN == 0 && c.atrasadoN == 0
  {
    var credito := Clamp(OrZero(r.cotas) * OrZero(r.valorUnit));
    var base := if r.baseComissao == "venda" then OrZero(r.valorVenda) else credito;
    var comissaoTotal := base * (OrZero(r.taxaPct) / 100.0);
    var parcelas := Statuses(r);
    CountsBounded(parcelas);
    CountsOfPending(6);
    Computed(credito, base, comissaoTotal, comissaoTotal / 6.0,
      Count(parcelas, Pago), Count(parcelas, Atrasado), Count(parcelas, Pendente))
  }

  /** The commission is the rate applied to the chosen base, and six
      installments make it up. */
  lemma CommissionOfRow(r: Row)
    ensures var c := SaleComputed(r);
      && c.base == (if r.baseComissao == "venda" then OrZero(r.valorVenda) else c.credito)
      && c.comissaoTotal == c.base * (OrZero(r.taxaPct) / 100.0)
      && c.parcelaValor * 6.0 == c.comissaoTotal
  {
  }

  /** `value * n` for a count `n`: the amount of `n` installments of
      `value`, written as repeated addition so that the totals below stay
      linear. */
  function Times(value: real, n: nat): real {
    if n == 0 then 0.0 else Times(value, n - 1) + value
  }

  /** Repeated addition is the product. */
  lemma {:induction false} TimesIsProduct(value: real, n: nat)
    ensures Times(value, n) == value * n as real
  {
    if n > 0 {
      TimesIsProduct(value, n - 1);
    }
  }

  /** Counts add up to amounts. */
  lemma {:induction false} TimesSplit(value: real, a: nat, b: nat)
    ensures Times(value, a + b) == Times(value, a) + Times(value, b)
  {
    if b > 0 {
      TimesSplit(value, a, b - 1);
    }
  }

  /** A row whose statuses fill all six slots. */
  predicate WellFormed(r: Row) {
    |Statuses(r)| == 6 && forall i | 0 <= i < 6 :: Statuses(r)[i].Known?
  }

  /** On a well-formed row the three status amounts make up the commission. */
  lemma SplitIsWhole(r: Row)
    requires WellFormed(r)
    ensures var c := SaleComputed(r);
      c.pagoN + c.atrasadoN + c.pendenteN == 6 &&
      Times(c.parcelaValor, c.pagoN) + Times(c.parcelaValor, c.atrasadoN) + Times(c.parcelaValor, c.pendenteN)
        == c.comissaoTotal
  {
    var c := SaleComputed(r);
    CountsBounded(Statuses(r));
    CommissionOfRow(r);
    TimesSplit(c.parcelaValor, c.pagoN, c.atrasadoN);
    TimesSplit(c.parcelaValor, c.pagoN + c.atrasadoN, c.pendenteN);
    TimesIsProduct(c.parcelaValor, 6);
  }

  /** A stored sale as the list endpoint hands it to the dashboard. */
  function RowOf(consultorName: string, s: SaleInput): Row {
    Row(consultorName, Some(s.cotas as real), Some(s.valorUnit), Some(s.valorVenda), Some(s.taxaPct),
      if s.baseComissao == Venda then "venda" else "credito",
      Some(seq(|s.parcelas|, i requires 0 <= i < |s.parcelas| => Known(s.parcelas[i]))))
  }

  /** The dashboard recomputes a stored sale's credit and commission to the
      values the server stored, and counts all six of its installments. */
  lemma ClientAgreesWithServer(consultorName: string, s: SaleInput)
    requires s.Valid()
    ensures var c := SaleComputed(RowOf(consultorName, s));
      && WellFormed(RowOf(consultorName, s))
      && c.credito == s.credito
      && c.comissaoTotal == s.comissaoTotal
      && c.pagoN + c.atrasadoN + c.pendenteN == 6
  {
    var r := RowOf(consultorName, s);
    assert WellFormed(r) by {
      forall i | 0 <= i < 6 ensures Statuses(r)[i].Known? {
        assert Statuses(r)[i] == Known(s.parcelas[i]);
      }
    }
    CountsBounded(Statuses(r));
    StoredCommission(r, s);
  }

  /** A stored sale seen by the dashboard: each installment is a sixth of
      the stored commission, and the paid, late and pending amounts add up
      to the whole of it. */
  lemma StoredSplitIsWhole(consultorName: string, s: SaleInput)
    requires s.Valid()
    ensures var c := SaleComputed(RowOf(consultorName, s));
      && c.parcelaValor * 6.0 == s.comissaoTotal
      && Times(c.parcelaValor, c.pagoN) + Times(c.parcelaValor, c.atrasadoN) + Times(c.parcelaValor, c.pendenteN)
        == s.comissaoTotal
  {
    ClientAgreesWithServer(consultorName, s);
    CommissionOfRow(RowOf(consultorName, s));
    SplitIsWhole(RowOf(consultorName, s));
  }

  /** A row carrying a stored sale's amounts recomputes its credit and commission. */
  lemma StoredCommission(r: Row, s: SaleInput)
    requires s.Valid()
    requires r.cotas == Some(s.cotas as real) && r.valorUnit == Some(s.valorUnit)
    requires r.valorVenda == Some(s.valorVenda) && r.taxaPct == Some(s.taxaPct)
    requires r.baseComissao == "venda" <==> s.baseComissao == Venda
    ensures SaleComputed(r).credito == s.credito && SaleComputed(r).comissaoTotal == s.comissaoTotal
  {
    var c := SaleComputed(r);
    CommissionOfRow(r);
    assert c.base == s.BaseAmount();
  }

  // ---------------------------------------------------------------------------
  // renderKPIs

  /** The running figures of `renderKPIs`. */
  datatype Kpis = Kpis(
    total: real, pago: real, atrasado: real, pendente: real,
    parcelasTotal: nat, parcelasPago: nat, parcelasAtrasado: nat, parcelasPendente: nat)

  /** What one row adds to the running figures. */
  function Add(k: Kpis, c: Computed): Kpis {
    Kpis(
      k.total + c.comissaoTotal,
      k.pago + Times(c.parcelaValor, c.pagoN),
      k.atrasado + Times(c.parcelaValor, c.atrasadoN),
      k.pendente + Times(c.parcelaValor, c.pendenteN),
      k.parcelasTotal + 6,
      k.parcelasPago + c.pagoN,
      k.parcelasAtrasado + c.atrasadoN,
      k.parcelasPendente + c.pendenteN)
  }

  /** The figures after the loop has seen `rows`, first row first; every
      row adds six installments. */
  function Tally(rows: seq<Row>): (k: Kpis)
    ensures k.parcelasTotal == 6 * |rows|
  {
    if rows == [] then Kpis(0.0, 0.0, 0.0, 0.0, 0, 0, 0, 0)
    else Add(Tally(rows[..|rows| - 1]), SaleComputed(rows[|rows| - 1]))
  }

  /** The sum of every row's commission, first row first: the reference
      the loop's running total is checked against. */
  function TotalCommission(rows: seq<Row>): real {
    if rows == [] then 0.0 else SaleComputed(rows[0]).comissaoTotal + TotalCommission(rows[1..])
  }

  /** Every row contributes six installments; the total is the sum of the
      rows' commissions, in any grouping. */
  lemma TallyCounts(rows: seq<Row>)
    ensures Tally(rows).parcelasTotal == 6 * |rows|
    ensures Tally(rows).total == TotalCommission(rows)
  {
    TallyTotal(rows);
  }

  lemma {:induction false} TallyTotal(rows: seq<Row>)
    ensures Tally(rows).total == TotalCommission(rows)
  {
    if rows != [] {
      var init := rows[..|rows| - 1];
      var last := rows[|rows| - 1];
      TallyTotal(init);
      SplitLast(rows);
      TotalCommissionSnoc(init, last);
    }
  }

  /** A non-empty sequence is its front followed by its last element. */
  lemma SplitLast(rows: seq<Row>)
    requires rows != []
    ensures rows[..|rows| - 1] + [rows[|rows| - 1]] == rows
  {
  }

  lemma {:induction false} TotalCommissionSnoc(rows: seq<Row>, r: Row)
    ensures TotalCommission(rows + [r]) == TotalCommission(rows) + SaleComputed(r).comissaoTotal
  {
    if rows != [] {
      assert (rows + [r])[1..] == rows[1..] + [r];
      TotalCommissionSnoc(rows[1..], r);
    }
  }

  /** When every row fills its six slots with statuses, the paid, late and
      pending amounts add up to the total, and the installment counts add up
      to the number of installments. */
  lemma {:induction false} TallySplits(rows: seq<Row>)
    requires forall i | 0 <= i < |rows| :: WellFormed(rows[i])
    ensures Tally(rows).pago + Tally(rows).atrasado + Tally(rows).pendente == Tally(rows).total
    ensures Tally(rows).parcelasPago + Tally(rows).parcelasAtrasado + Tally(rows).parcelasPendente
      == Tally(rows).parcelasTotal
  {
    if rows != [] {
      var init := rows[..|rows| - 1];
      assert forall i | 0 <= i < |init| :: WellFormed(init[i]) by {
        forall i | 0 <= i < |init| ensures WellFormed(init[i]) {
          assert init[i] == rows[i];
        }
      }
      TallySplits(init);
      SplitIsWhole(rows[|rows| - 1]);
    }
  }

  /** `total > 0 ? (part / total) * 100 : 0`. */
  function Percent(part: real, total: real): (r: real)
    ensures total <= 0.0 ==> r == 0.0
    ensures total > 0.0 ==> r * total == part * 100.0
  {
    if total > 0.0 then (part / total) * 100.0 else 0.0
  }

  /** `n > 0 ? total / n : 0`. */
  function Average(total: real, n: nat): (r: real)
    ensures n == 0 ==> r == 0.0
    ensures n > 0 ==> r * n as real == total
  {
    if n > 0 then total / n as real else 0.0
  }

  /** One more row folds that row's figures into the running tally. */
  lemma TallyStep(rows: seq<Row>, i: nat)
    requires i < |rows|
    ensures Tally(rows[..i + 1]) == Add(Tally(rows[..i]), SaleComputed(rows[i]))
  {
    assert rows[..i + 1][..i] == rows[..i];
  }

  /** `renderKPIs`: the loop over the rows, then the paid percentage and the
      average ticket. */
  method RenderKPIs(rows: seq<Row>) returns (totals: Kpis, pagoPct: real, ticket: real)
    ensures totals == Tally(rows)
    ensures totals.total == TotalCommission(rows) && totals.parcelasTotal == 6 * |rows|
    ensures pagoPct == Percent(totals.pago, totals.total)
    ensures ticket == Average(totals.total, |rows|)
  {
    var total, pago, atrasado, pendente := 0.0, 0.0, 0.0, 0.0;
    var parcelasTotal: nat, parcelasPago: nat, parcelasAtrasado: nat, parcelasPendente: nat := 0, 0, 0, 0;
    for i := 0 to |rows|
      invariant Tally(rows[..i]) ==
        Kpis(total, pago, atrasado, pendente, parcelasTotal, parcelasPago, parcelasAtrasado, parcelasPendente)
    {
      var c := SaleComputed(rows[i]);
      TallyStep(rows, i);
      total := total + c.comissaoTotal;
      parcelasTotal := parcelasTotal + 6;
      parcelasPago := parcelasPago + c.pagoN;
      parcelasAtrasado := parcelasAtrasado + c.atrasadoN;
      parcelasPendente := parcelasPendente + c.pendenteN;
      pago := pago + Times(c.parcelaValor, c.pagoN);
      atrasado := atrasado + Times(c.parcelaValor, c.atrasadoN);
      pendente := pendente + Times(c.parcelaValor, c.pendenteN);
    }
    assert rows[..|rows|] == rows;
    totals := Kpis(total, pago, atrasado, pendente, parcelasTotal, parcelasPago, parcelasAtrasado, parcelasPendente);
    TallyCounts(rows);
    pagoPct := Percent(pago, total);
    ticket := Average(total, |rows|);
  }

  // ---------------------------------------------------------------------------
  // updatePreview

  /** The form fields the preview reads (`fd.get(...)`): a string, or null. */
  datatype Form = Form(cotas: Value, valorUnit: Value, valorVenda: Value, taxaPct: Value, baseComissao: Value)

  /** What the preview shows; a `None` is shown as "—". */
  datatype Preview = Preview(
    creditoRaw: real, credito: real, comissao: real,
    creditoShown: Option<real>, capWarning: bool, comissaoShown: Option<real>, parcelaShown: Option<real>)

  /** `updatePreview`: the form's fields are parsed as the server parses
      them, then the figures are worked out by `PreviewOf`. The raw credit
      is shown (or "—" when it is 0); the capped credit and the warning
      appear exactly when the cap lowers it; the commission and a sixth of
      it as the installment are shown, or "—" when the commission is 0. */
  function UpdatePreview(f: Form): (p: Preview)
    ensures p.creditoShown.None? <==> p.creditoRaw == 0.0
    ensures p.creditoShown.Some? ==> p.creditoShown.value == p.creditoRaw
    ensures 0.0 <= p.creditoRaw && 0.0 <= p.credito <= Limit && p.credito <= p.creditoRaw
    ensures p.capWarning <==> p.credito < p.creditoRaw
    ensures p.capWarning ==> p.credito == Limit
    ensures p.comissaoShown.None? <==> p.comissao == 0.0
    ensures p.comissaoShown.Some? ==> p.comissaoShown.value == p.comissao
    ensures p.parcelaShown.None? <==> p.comissao == 0.0
    ensures p.parcelaShown.Some? ==> p.parcelaShown.value * 6.0 == p.comissao
  {
    var cotas := FloorAtZero(ParseNumber(f.cotas));
    var unit := Max(0.0, ParseNumber(f.valorUnit));
    var taxa := ParseNumber(f.taxaPct);
    var valorVenda := Max(0.0, ParseNumber(f.valorVenda));
    PreviewOf(cotas, unit, valorVenda, taxa, f.baseComissao == Str("venda"))
  }

  /** The figures of `updatePreview` from the parsed fields: the raw credit
      is what is shown, the cap warning shows exactly when the clamp lowered
      the credit, and the commission and its sixth are shown unless the
      commission is 0. */
  function PreviewOf(cotas: nat, unit: real, valorVenda: real, taxa: real, venda: bool): (p: Preview)
    requires unit >= 0.0
    ensures 0.0 <= p.creditoRaw && 0.0 <= p.credito <= Limit && p.credito <= p.creditoRaw
    ensures p.capWarning <==> p.credito < p.creditoRaw
    ensures p.creditoShown.None? <==> p.creditoRaw == 0.0
    ensures p.creditoShown.Some? ==> p.creditoShown.value == p.creditoRaw
    ensures p.capWarning ==> p.credito == Limit
    ensures p.comissaoShown.None? <==> p.comissao == 0.0
    ensures p.comissaoShown.Some? ==> p.comissaoShown.value == p.comissao
    ensures p.parcelaShown.None? <==> p.comissao == 0.0
    ensures p.parcelaShown.Some? ==> p.parcelaShown.value * 6.0 == p.comissao
    ensures p.comissao == (if venda then valorVenda else p.credito) * (taxa / 100.0)
  {
    var creditoRaw := cotas as real * unit;
    var credito := Clamp(creditoRaw);
    var baseVal := if venda then valorVenda else credito;
    var comissao := baseVal * (taxa / 100.0);
    Preview(creditoRaw, credito, comissao,
      if creditoRaw != 0.0 then Some(creditoRaw) else None,
      creditoRaw > Limit,
      if comissao != 0.0 then Some(comissao) else None,
      if comissao != 0.0 then Some(comissao / 6.0) else None)
  }

  /** The preview shows the credit and commission the server will store for
      any body that carries the same amount fields. */
  lemma PreviewAgreesWithServer(f: Form, body: Body)
    requires body.cotas == f.cotas && body.valorUnit == f.valorUnit && body.valorVenda == f.valorVenda
    requires body.taxaPct == f.taxaPct && body.baseComissao == f.baseComissao
    ensures var p := UpdatePreview(f);
      var s := NormalizeSaleInput(body);
      p.creditoRaw == s.creditoRaw && p.credito == s.credito && p.comissao == s.comissaoTotal
  {
    var s := NormalizeSaleInput(body);
    PreviewOfStored(s);
  }

  /** The preview's arithmetic on a normalized sale's own fields gives back
      the credit and commission stored with it. */
  lemma PreviewOfStored(s: SaleInput)
    requires s.Valid()
    ensures var p := PreviewOf(s.cotas, s.valorUnit, s.valorVenda, s.taxaPct, s.baseComissao == Venda);
      p.creditoRaw == s.creditoRaw && p.credito == s.credito && p.comissao == s.comissaoTotal
  {
  }
}
