/** The consultant ranking of public/dashboard.js (`renderRanking`): the rows
    are grouped by consultant in a `Map` that remembers insertion order, each
    group adds up its rows' figures, and the groups are sorted by paid amount,
    then total, then number of sales, all descending. */
module Ranking {
  import opened Dashboard

  /** One consultant's line. */
  datatype Agg = Agg(consultor: string, vendas: nat, total: real, pago: real, pendente: real, atrasado: real)

  /** The figures a line adds up, each as a real. */
  datatype Measure = OfVendas | OfTotal | OfPago | OfPendente | OfAtrasado

  function Measured(a: Agg, m: Measure): real {
    match m
    case OfVendas => a.vendas as real
    case OfTotal => a.total
    case OfPago => a.pago
    case OfPendente => a.pendente
    case OfAtrasado => a.atrasado
  }

  /** What one row, through its computed figures, adds to its consultant's
      line. */
  function Share(c: Computed, m: Measure): real {
    match m
    case OfVendas => 1.0
    case OfTotal => c.comissaoTotal
    case OfPago => Times(c.parcelaValor, c.pagoN)
    case OfPendente => Times(c.parcelaValor, c.pendenteN)
    case OfAtrasado => Times(c.parcelaValor, c.atrasadoN)
  }

  /** `r.consultorName || "—"`. */
  function KeyOf(r: Row): (k: string)
    ensures k != ""
    ensures r.consultorName != "" ==> k == r.consultorName
    ensures r.consultorName == "" ==> k == "—"
  {
    if r.consultorName == "" then "—" else r.consultorName
  }

  /** A new, empty line. */
  function Fresh(k: string): Agg {
    Agg(k, 0, 0.0, 0.0, 0.0, 0.0)
  }

  /** The loop body's update of one line with a row's computed figures. */
  function Absorb(a: Agg, c: Computed): (b: Agg)
    ensures b.consultor == a.consultor
    ensures forall m :: Measured(b, m) == Measured(a, m) + Share(c, m)
  {
    Agg(a.consultor, a.vendas + 1, a.total + c.comissaoTotal,
      a.pago + Times(c.parcelaValor, c.pagoN),
      a.pendente + Times(c.parcelaValor, c.pendenteN),
      a.atrasado + Times(c.parcelaValor, c.atrasadoN))
  }

  /** The `Map` of lines: its keys in insertion order, and its entries. */
  datatype Groups = Groups(order: seq<string>, entries: map<string, Agg>) {
    /** The keys listed are exactly the keys present, each once, and each
        line is filed under its own consultant. */
    ghost predicate Valid() {
      && (forall k :: k in entries <==> k in order)
      && (forall i, j | 0 <= i < j < |order| :: order[i] != order[j])
      && (forall k | k in entries :: entries[k].consultor == k)
    }

    /** `Array.from(by.values())`. */
    function Values(): (s: seq<Agg>)
      requires Valid()
      ensures |s| == |order|
      ensures forall i | 0 <= i < |s| :: s[i] == entries[order[i]]
    {
      seq(|order|, i requires 0 <= i < |order| => entries[order[i]])
    }
  }

  /** Filing a line under a key already present replaces that key's value
      in place. */
  lemma ValuesUpdate(g: Groups, p: nat, a: Agg)
    requires g.Valid() && p < |g.order| && a.consultor == g.order[p]
    ensures Groups(g.order, g.entries[g.order[p] := a]).Valid()
    ensures Groups(g.order, g.entries[g.order[p] := a]).Values() == g.Values()[p := a]
  {
    var h := Groups(g.order, g.entries[g.order[p] := a]);
    assert h.Valid();
    forall i | 0 <= i < |g.order| ensures h.Values()[i] == g.Values()[p := a][i] {
      if i != p {
        assert g.order[i] != g.order[p];
      }
    }
  }

  /** Filing a line under a new key appends it to the values. */
  lemma ValuesAppend(g: Groups, a: Agg)
    requires g.Valid() && a.consultor !in g.entries
    ensures Groups(g.order + [a.consultor], g.entries[a.consultor := a]).Valid()
    ensures Groups(g.order + [a.consultor], g.entries[a.consultor := a]).Values() == g.Values() + [a]
  {
    var h := Groups(g.order + [a.consultor], g.entries[a.consultor := a]);
    assert h.Valid();
    forall i | 0 <= i < |g.order| ensures h.Values()[i] == g.Values()[i] {
      assert g.order[i] in g.entries;
    }
    assert h.Values()[|g.order|] == a;
  }

  /** Where a key sits in the insertion order. */
  function Position(order: seq<string>, k: string): (p: nat)
    requires k in order
    ensures p < |order| && order[p] == k
  {
    if order[0] == k then 0 else 1 + Position(order[1..], k)
  }

  /** One pass of the loop body: the row's figures are added to its
      consultant's line, which is created, last in order, when missing. */
  function File(g: Groups, r: Row): (h: Groups)
    requires g.Valid()
    ensures h.Valid()
    ensures forall k :: k in h.order <==> k in g.order || k == KeyOf(r)
    ensures KeyOf(r) in g.entries ==> h.entries[KeyOf(r)] == Absorb(g.entries[KeyOf(r)], SaleComputed(r))
    ensures KeyOf(r) !in g.entries ==> h.entries[KeyOf(r)] == Absorb(Fresh(KeyOf(r)), SaleComputed(r))
    ensures forall k | k in g.entries && k != KeyOf(r) :: h.entries[k] == g.entries[k]
  {
    var k := KeyOf(r);
    if k in g.entries then
      var p := Position(g.order, k);
      ValuesUpdate(g, p, Absorb(g.entries[k], SaleComputed(r)));
      Groups(g.order, g.entries[k := Absorb(g.entries[k], SaleComputed(r))])
    else
      ValuesAppend(g, Absorb(Fresh(k), SaleComputed(r)));
      Groups(g.order + [k], g.entries[k := Absorb(Fresh(k), SaleComputed(r))])
  }

  /** Filing a row adds its share to each figure's sum. */
  lemma FileSums(g: Groups, r: Row, m: Measure)
    requires g.Valid()
    ensures Sum(File(g, r).Values(), m) == Sum(g.Values(), m) + Share(SaleComputed(r), m)
  {
    var k := KeyOf(r);
    if k in g.entries {
      var p :| 0 <= p < |g.order| && g.order[p] == k;
      ValuesUpdate(g, p, Absorb(g.entries[k], SaleComputed(r)));
      SumUpdate(g.Values(), p, Absorb(g.entries[k], SaleComputed(r)), m);
    } else {
      ValuesAppend(g, Absorb(Fresh(k), SaleComputed(r)));
      SumAppend(g.Values(), Absorb(Fresh(k), SaleComputed(r)), m);
    }
  }

  /** The lines after the loop has seen `rows`, first row first. */
  function GroupBy(rows: seq<Row>): (g: Groups)
    ensures g.Valid()
  {
    if rows == [] then Groups([], map[])
    else File(GroupBy(rows[..|rows| - 1]), rows[|rows| - 1])
  }

  /** The consultant keys of the rows. */
  function RowKeys(rows: seq<Row>): set<string> {
    set j | 0 <= j < |rows| :: KeyOf(rows[j])
  }

  /** The consultants of a list of lines. */
  function Names(s: seq<Agg>): set<string> {
    set a | a in s :: a.consultor
  }

  /** There is one line per distinct consultant key among the rows. */
  lemma {:induction false} GroupKeys(rows: seq<Row>)
    ensures forall k :: k in GroupBy(rows).order <==> k in RowKeys(rows)
  {
    if rows != [] {
      var init := rows[..|rows| - 1];
      GroupKeys(init);
      RowKeysSnoc(rows);
      FileStep(rows);
    }
  }

  /** The keys of a non-empty list are those of its front and its last row's. */
  lemma RowKeysSnoc(rows: seq<Row>)
    requires rows != []
    ensures RowKeys(rows) == RowKeys(rows[..|rows| - 1]) + {KeyOf(rows[|rows| - 1])}
  {
    var init := rows[..|rows| - 1];
    var last := KeyOf(rows[|rows| - 1]);
    forall k | k in RowKeys(rows) ensures k in RowKeys(init) + {last} {
      var j :| 0 <= j < |rows| && KeyOf(rows[j]) == k;
      if j < |init| {
        assert init[j] == rows[j];
      }
    }
    forall k | k in RowKeys(init) ensures k in RowKeys(rows) {
      var j :| 0 <= j < |init| && KeyOf(init[j]) == k;
      assert rows[j] == init[j];
    }
  }

  /** The rows filed under key `k`, first row first. */
  function KeyRows(rows: seq<Row>, k: string): (r: seq<Row>)
    ensures |r| <= |rows|
    ensures forall x | x in r :: x in rows && KeyOf(x) == k
    ensures forall i | 0 <= i < |rows| && KeyOf(rows[i]) == k :: rows[i] in r
  {
    if rows == [] then []
    else
      var init := rows[..|rows| - 1];
      assert forall i | 0 <= i < |init| :: init[i] == rows[i];
      KeyRows(init, k) + (if KeyOf(rows[|rows| - 1]) == k then [rows[|rows| - 1]] else [])
  }

  /** A key with rows has a line. */
  lemma {:induction false} KeyRowsFiled(rows: seq<Row>, k: string)
    requires KeyRows(rows, k) != []
    ensures k in GroupBy(rows).entries
  {
    var init := rows[..|rows| - 1];
    if KeyOf(rows[|rows| - 1]) != k {
      KeyRowsFiled(init, k);
    }
  }

  /** Each line holds exactly the figures of its own consultant's rows: the
      sales count is the number of those rows and every money column their
      sum. */
  lemma {:induction false} GroupLines(rows: seq<Row>, k: string, m: Measure)
    requires k in GroupBy(rows).entries
    ensures Measured(GroupBy(rows).entries[k], m) == RowsSum(KeyRows(rows, k), m)
  {
    assert rows != [];
    var init := rows[..|rows| - 1];
    var last := rows[|rows| - 1];
    if KeyOf(last) != k {
      LineOther(rows, k);
      GroupLines(init, k, m);
      OtherKeyRows(rows, k);
    } else {
      SameKeyRows(rows, k, m);
      if k in GroupBy(init).entries {
        LineSame(rows, k, m);
        GroupLines(init, k, m);
      } else {
        if KeyRows(init, k) != [] {
          KeyRowsFiled(init, k);
        }
        LineFirst(rows, k, m);
      }
    }
  }

  /** A last row under another key leaves that key's line alone. */
  lemma LineOther(rows: seq<Row>, k: string)
    requires rows != [] && KeyOf(rows[|rows| - 1]) != k && k in GroupBy(rows).entries
    ensures k in GroupBy(rows[..|rows| - 1]).entries
    ensures GroupBy(rows).entries[k] == GroupBy(rows[..|rows| - 1]).entries[k]
  {
    FileStep(rows);
  }

  /** A last row under a key already filed adds its share to that line. */
  lemma LineSame(rows: seq<Row>, k: string, m: Measure)
    requires rows != [] && KeyOf(rows[|rows| - 1]) == k && k in GroupBy(rows[..|rows| - 1]).entries
    ensures k in GroupBy(rows).entries
    ensures Measured(GroupBy(rows).entries[k], m)
      == Measured(GroupBy(rows[..|rows| - 1]).entries[k], m) + Share(SaleComputed(rows[|rows| - 1]), m)
  {
    FileStep(rows);
  }

  /** A last row under a new key makes a line of its share alone. */
  lemma LineFirst(rows: seq<Row>, k: string, m: Measure)
    requires rows != [] && KeyOf(rows[|rows| - 1]) == k && k !in GroupBy(rows[..|rows| - 1]).entries
    ensures k in GroupBy(rows).entries
    ensures Measured(GroupBy(rows).entries[k], m) == Share(SaleComputed(rows[|rows| - 1]), m)
  {
    FileStep(rows);
    FirstLine(k, rows[|rows| - 1], m);
  }

  /** The grouping of a non-empty list files its last row into the grouping
      of the others. */
  lemma FileStep(rows: seq<Row>)
    requires rows != []
    ensures GroupBy(rows) == File(GroupBy(rows[..|rows| - 1]), rows[|rows| - 1])
  {
  }

  /** A last row under another key leaves a key's rows alone. */
  lemma OtherKeyRows(rows: seq<Row>, k: string)
    requires rows != [] && KeyOf(rows[|rows| - 1]) != k
    ensures KeyRows(rows, k) == KeyRows(rows[..|rows| - 1], k)
  {
    assert KeyRows(rows, k) == KeyRows(rows[..|rows| - 1], k) + [];
  }

  /** A last row under the key adds its share to that key's rows. */
  lemma SameKeyRows(rows: seq<Row>, k: string, m: Measure)
    requires rows != [] && KeyOf(rows[|rows| - 1]) == k
    ensures RowsSum(KeyRows(rows, k), m)
      == RowsSum(KeyRows(rows[..|rows| - 1], k), m) + Share(SaleComputed(rows[|rows| - 1]), m)
  {
    var init := rows[..|rows| - 1];
    assert KeyRows(rows, k) == KeyRows(init, k) + [rows[|rows| - 1]];
    RowsSumSnoc(KeyRows(init, k), rows[|rows| - 1], m);
  }

  /** A key's first row makes a line holding just that row's figures. */
  lemma FirstLine(k: string, r: Row, m: Measure)
    ensures Measured(Absorb(Fresh(k), SaleComputed(r)), m) == Share(SaleComputed(r), m)
  {
    assert Measured(Fresh(k), m) == 0.0 by {
      match m
      case OfVendas =>
      case OfTotal =>
      case OfPago =>
      case OfPendente =>
      case OfAtrasado =>
    }
  }

  lemma RowsSumSnoc(rows: seq<Row>, r: Row, m: Measure)
    ensures RowsSum(rows + [r], m) == RowsSum(rows, m) + Share(SaleComputed(r), m)
  {
    assert (rows + [r])[..|rows|] == rows;
  }

  // ---------------------------------------------------------------------------
  // Conservation: the lines add up to the rows

  /** The sum of one figure over a list of lines. */
  function Sum(s: seq<Agg>, m: Measure): real {
    if s == [] then 0.0 else Measured(s[0], m) + Sum(s[1..], m)
  }

  /** The sum of one figure's share over the rows, first row first. */
  function RowsSum(rows: seq<Row>, m: Measure): real {
    if rows == [] then 0.0 else RowsSum(rows[..|rows| - 1], m) + Share(SaleComputed(rows[|rows| - 1]), m)
  }

  lemma {:induction false} SumAppend(s: seq<Agg>, a: Agg, m: Measure)
    ensures Sum(s + [a], m) == Sum(s, m) + Measured(a, m)
  {
    if s != [] {
      assert (s + [a])[1..] == s[1..] + [a];
      SumAppend(s[1..], a, m);
    }
  }

  lemma {:induction false} SumUpdate(s: seq<Agg>, p: nat, a: Agg, m: Measure)
    requires p < |s|
    ensures Sum(s[p := a], m) == Sum(s, m) - Measured(s[p], m) + Measured(a, m)
  {
    if p > 0 {
      assert s[p := a][1..] == s[1..][p - 1 := a];
      SumUpdate(s[1..], p - 1, a, m);
    }
  }

  /** Each figure, summed over the lines, is that figure summed over the
      rows: no row is lost or counted twice by the grouping. */
  lemma {:induction false} GroupSums(rows: seq<Row>, m: Measure)
    ensures Sum(GroupBy(rows).Values(), m) == RowsSum(rows, m)
  {
    if rows != [] {
      var init := rows[..|rows| - 1];
      GroupSums(init, m);
      FileSums(GroupBy(init), rows[|rows| - 1], m);
    }
  }

  /** The sales counts add up to the number of rows. */
  lemma {:induction false} RowsSumVendas(rows: seq<Row>)
    ensures RowsSum(rows, OfVendas) == |rows| as real
  {
    if rows != [] {
      RowsSumVendas(rows[..|rows| - 1]);
    }
  }

  /** The money figures add up to the KPI totals of the same rows. */
  lemma {:induction false} RowsSumIsTally(rows: seq<Row>)
    ensures RowsSum(rows, OfTotal) == Tally(rows).total
    ensures RowsSum(rows, OfPago) == Tally(rows).pago
    ensures RowsSum(rows, OfPendente) == Tally(rows).pendente
    ensures RowsSum(rows, OfAtrasado) == Tally(rows).atrasado
  {
    if rows != [] {
      RowsSumIsTally(rows[..|rows| - 1]);
    }
  }

  // ---------------------------------------------------------------------------
  // The sort

  /** The comparator `(b.pago - a.pago) || (b.total - a.total) || (b.vendas - a.vendas)`:
      a result that is not positive lets `a` come first. */
  function Compare(a: Agg, b: Agg): (r: real)
    ensures r <= 0.0 <==> a.pago > b.pago || (a.pago == b.pago && (a.total > b.total || (a.total == b.total && a.vendas >= b.vendas)))
    ensures r == 0.0 <==> a.pago == b.pago && a.total == b.total && a.vendas == b.vendas
  {
    if b.pago - a.pago != 0.0 then b.pago - a.pago
    else if b.total - a.total != 0.0 then b.total - a.total
    else (b.vendas - a.vendas) as real
  }

  /** Swapping the arguments negates the comparator. */
  lemma CompareFlip(a: Agg, b: Agg)
    ensures Compare(b, a) == -Compare(a, b)
  {
  }

  /** "May come first" is transitive. */
  lemma CompareChain(a: Agg, b: Agg, c: Agg)
    requires Compare(a, b) <= 0.0 && Compare(b, c) <= 0.0
    ensures Compare(a, c) <= 0.0
  {
  }

  /** Every line may come before every later one. */
  predicate Sorted(s: seq<Agg>) {
    forall i, j | 0 <= i < j < |s| :: Compare(s[i], s[j]) <= 0.0
  }

  /** No two lines share a consultant. */
  predicate DistinctNames(s: seq<Agg>) {
    forall i, j | 0 <= i < j < |s| :: s[i].consultor != s[j].consultor
  }

  /** Insertion of one line into a sorted list. */
  function Insert(x: Agg, s: seq<Agg>): (r: seq<Agg>)
    ensures multiset(r) == multiset(s) + multiset{x}
  {
    if s == [] then [x]
    else if Compare(x, s[0]) <= 0.0 then [x] + s
    else
      assert s == [s[0]] + s[1..];
      [s[0]] + Insert(x, s[1..])
  }

  /** Every line of `Insert(x, s)` is `x` or a line of `s`. */
  lemma InsertMembers(x: Agg, s: seq<Agg>, y: Agg)
    requires y in Insert(x, s)
    ensures y == x || y in s
  {
    assert y in multiset(Insert(x, s));
  }

  /** Insertion keeps a list sorted. */
  lemma {:induction false} InsertSorted(x: Agg, s: seq<Agg>)
    requires Sorted(s)
    ensures Sorted(Insert(x, s))
  {
    if s == [] {
    } else if Compare(x, s[0]) <= 0.0 {
      var r := [x] + s;
      forall i, j | 0 <= i < j < |r| ensures Compare(r[i], r[j]) <= 0.0 {
        if i == 0 && j > 1 {
          CompareChain(x, s[0], s[j - 1]);
        }
      }
    } else {
      var rest := Insert(x, s[1..]);
      InsertSorted(x, s[1..]);
      var r := [s[0]] + rest;
      forall i, j | 0 <= i < j < |r| ensures Compare(r[i], r[j]) <= 0.0 {
        assert r[j] == rest[j - 1];
        if i == 0 {
          InsertMembers(x, s[1..], rest[j - 1]);
          HeadFirst(x, s, rest[j - 1]);
        } else {
          assert r[i] == rest[i - 1];
        }
      }
    }
  }

  /** The head of a sorted list may come before the rest of it and before
      a line that may not come before the head. */
  lemma HeadFirst(x: Agg, s: seq<Agg>, y: Agg)
    requires Sorted(s) && s != [] && Compare(x, s[0]) > 0.0
    requires y == x || y in s[1..]
    ensures Compare(s[0], y) <= 0.0
  {
    if y == x {
      CompareFlip(x, s[0]);
    } else {
      var k :| 0 <= k < |s[1..]| && s[1..][k] == y;
      assert s[k + 1] == y;
    }
  }

  /** The order `Array.prototype.sort` produces with the comparator, up to
      the order among lines the comparator ties. */
  function SortRanking(s: seq<Agg>): (r: seq<Agg>)
    ensures multiset(r) == multiset(s)
  {
    if s == [] then []
    else
      assert s == [s[0]] + s[1..];
      Insert(s[0], SortRanking(s[1..]))
  }

  /** The sort's result is sorted. */
  lemma {:induction false} SortSorted(s: seq<Agg>)
    ensures Sorted(SortRanking(s))
  {
    if s != [] {
      SortSorted(s[1..]);
      InsertSorted(s[0], SortRanking(s[1..]));
    }
  }

  /** Insertion adds the new line's figures. */
  lemma {:induction false} SumInsert(x: Agg, s: seq<Agg>, m: Measure)
    ensures Sum(Insert(x, s), m) == Sum(s, m) + Measured(x, m)
  {
    if s != [] && Compare(x, s[0]) > 0.0 {
      SumInsert(x, s[1..], m);
    }
  }

  /** Sorting keeps every figure's sum. */
  lemma {:induction false} SumSort(s: seq<Agg>, m: Measure)
    ensures Sum(SortRanking(s), m) == Sum(s, m)
  {
    if s != [] {
      SumSort(s[1..], m);
      SumInsert(s[0], SortRanking(s[1..]), m);
    }
  }

  /** Insertion of a line with a new consultant keeps names distinct. */
  lemma {:induction false} InsertDistinct(x: Agg, s: seq<Agg>)
    requires DistinctNames(s)
    requires forall a | a in s :: a.consultor != x.consultor
    ensures DistinctNames(Insert(x, s))
  {
    if s != [] && Compare(x, s[0]) > 0.0 {
      InsertDistinct(x, s[1..]);
      var rest := Insert(x, s[1..]);
      var r := [s[0]] + rest;
      forall i, j | 0 <= i < j < |r| ensures r[i].consultor != r[j].consultor {
        if i == 0 {
          InsertMembers(x, s[1..], rest[j - 1]);
          if rest[j - 1] != x {
            var k :| 0 <= k < |s[1..]| && s[1..][k] == rest[j - 1];
            assert s[k + 1] == rest[j - 1];
          }
        } else {
          assert r[i] == rest[i - 1] && r[j] == rest[j - 1];
        }
      }
    }
  }

  /** Sorting keeps names distinct. */
  lemma {:induction false} SortDistinct(s: seq<Agg>)
    requires DistinctNames(s)
    ensures DistinctNames(SortRanking(s))
  {
    if s != [] {
      SortDistinct(s[1..]);
      var sorted := SortRanking(s[1..]);
      forall a | a in sorted ensures a.consultor != s[0].consultor {
        assert a in multiset(sorted);
        assert a in multiset(s[1..]);
        var i :| 0 <= i < |s[1..]| && s[1..][i] == a;
        assert s[i + 1] == a;
      }
      InsertDistinct(s[0], sorted);
    }
  }

  // ---------------------------------------------------------------------------
  // renderRanking

  /** `renderRanking`: the grouping loop over a `Map`, then the sort of its
      values. The ranking holds one line per consultant key among the rows,
      in comparator order, and each figure summed over the lines is that
      figure summed over the rows. */
  method RenderRanking(rows: seq<Row>) returns (arr: seq<Agg>)
    ensures Sorted(arr)
    ensures forall i, j | 0 <= i < j < |arr| ::
      && arr[i].pago >= arr[j].pago
      && (arr[i].pago == arr[j].pago ==> arr[i].total >= arr[j].total)
      && (arr[i].pago == arr[j].pago && arr[i].total == arr[j].total ==> arr[i].vendas >= arr[j].vendas)
    ensures multiset(arr) == multiset(GroupBy(rows).Values())
    ensures DistinctNames(arr)
    ensures Names(arr) == RowKeys(rows)
    ensures forall m :: Sum(arr, m) == RowsSum(rows, m)
    ensures forall a, m | a in arr :: Measured(a, m) == RowsSum(KeyRows(rows, a.consultor), m)
  {
    var order: seq<string> := [];
    var entries: map<string, Agg> := map[];
    for i := 0 to |rows|
      invariant Groups(order, entries) == GroupBy(rows[..i])
    {
      assert GroupBy(rows[..i + 1]) == File(GroupBy(rows[..i]), rows[i]) by {
        assert rows[..i + 1][..i] == rows[..i];
      }
      order, entries := FileRow(order, entries, rows[i]);
    }
    assert rows[..|rows|] == rows;
    var values := Groups(order, entries).Values();
    arr := SortRanking(values);
    SortSorted(values);
    LinesOfGroups(rows);
    LineFigures(rows);
  }

  /** The loop body of `renderRanking` on one row: the line is created
      when its key is new, then each figure grows by the row's share. */
  method FileRow(order: seq<string>, entries: map<string, Agg>, r: Row)
    returns (order': seq<string>, entries': map<string, Agg>)
    requires Groups(order, entries).Valid()
    ensures Groups(order', entries') == File(Groups(order, entries), r)
  {
    order', entries' := order, entries;
    var key := if r.consultorName == "" then "—" else r.consultorName;
    assert key == KeyOf(r);
    if key !in entries' {
      entries' := entries'[key := Agg(key, 0, 0.0, 0.0, 0.0, 0.0)];
      order' := order' + [key];
    }
    var agg := AddShare(entries'[key], SaleComputed(r));
    entries' := entries'[key := agg];
    FileShape(Groups(order, entries), r);
  }

  /** The two outcomes of `File`, spelled out. */
  lemma FileShape(g: Groups, r: Row)
    requires g.Valid()
    ensures KeyOf(r) in g.entries ==>
      File(g, r) == Groups(g.order, g.entries[KeyOf(r) := Absorb(g.entries[KeyOf(r)], SaleComputed(r))])
    ensures KeyOf(r) !in g.entries ==>
      File(g, r) == Groups(g.order + [KeyOf(r)], g.entries[KeyOf(r) := Absorb(Fresh(KeyOf(r)), SaleComputed(r))])
  {
  }

  /** The updates the loop body makes to one line: one more sale, and each
      sum grows by the row's share. */
  method AddShare(agg: Agg, c: Computed) returns (b: Agg)
    ensures b == Absorb(agg, c)
  {
    b := agg.(vendas := agg.vendas + 1);
    b := b.(total := b.total + c.comissaoTotal);
    b := b.(pago := b.pago + Times(c.parcelaValor, c.pagoN));
    b := b.(pendente := b.pendente + Times(c.parcelaValor, c.pendenteN));
    b := b.(atrasado := b.atrasado + Times(c.parcelaValor, c.atrasadoN));
  }

  /** The sorted lines of the grouping: one per consultant key among the
      rows, and the same sums as the rows. */
  lemma LinesOfGroups(rows: seq<Row>)
    ensures DistinctNames(SortRanking(GroupBy(rows).Values()))
    ensures Names(SortRanking(GroupBy(rows).Values())) == RowKeys(rows)
    ensures forall m :: Sum(SortRanking(GroupBy(rows).Values()), m) == RowsSum(rows, m)
  {
    var values := GroupBy(rows).Values();
    ValuesDistinct(GroupBy(rows));
    SortDistinct(values);
    SortNames(values);
    ValuesNames(rows);
    forall m ensures Sum(SortRanking(values), m) == RowsSum(rows, m) {
      SumSort(values, m);
      GroupSums(rows, m);
    }
  }

  /** Every line of the ranking holds its own consultant's figures. */
  lemma LineFigures(rows: seq<Row>)
    ensures forall a, m | a in SortRanking(GroupBy(rows).Values()) ::
      Measured(a, m) == RowsSum(KeyRows(rows, a.consultor), m)
  {
    forall a, m | a in SortRanking(GroupBy(rows).Values())
      ensures Measured(a, m) == RowsSum(KeyRows(rows, a.consultor), m)
    {
      SortedIsEntry(GroupBy(rows), a);
      GroupLines(rows, a.consultor, m);
    }
  }

  /** A sorted line is the entry filed under its own consultant. */
  lemma SortedIsEntry(g: Groups, a: Agg)
    requires g.Valid() && a in SortRanking(g.Values())
    ensures a.consultor in g.entries && g.entries[a.consultor] == a
  {
    var values := g.Values();
    assert a in multiset(SortRanking(values));
    assert a in values;
    var i :| 0 <= i < |values| && values[i] == a;
    assert g.order[i] in g.entries && a == g.entries[g.order[i]];
  }

  /** Lines filed under distinct keys have distinct consultants. */
  lemma ValuesDistinct(g: Groups)
    requires g.Valid()
    ensures DistinctNames(g.Values())
  {
    var values := g.Values();
    forall i, j | 0 <= i < j < |values| ensures values[i].consultor != values[j].consultor {
      assert values[i].consultor == g.order[i] && values[j].consultor == g.order[j];
    }
  }

  /** Sorting keeps the set of consultants. */
  lemma SortNames(s: seq<Agg>)
    ensures Names(SortRanking(s)) == Names(s)
  {
    var r := SortRanking(s);
    forall a ensures a in r <==> a in s {
      assert a in r <==> a in multiset(r);
      assert a in s <==> a in multiset(s);
    }
  }

  /** The grouping's consultants are the rows' keys. */
  lemma ValuesNames(rows: seq<Row>)
    ensures Names(GroupBy(rows).Values()) == RowKeys(rows)
  {
    GroupKeys(rows);
    OrderNames(GroupBy(rows));
  }

  /** The consultants of the lines are the keys in order. */
  lemma OrderNames(g: Groups)
    requires g.Valid()
    ensures forall k :: k in Names(g.Values()) <==> k in g.order
  {
    var values := g.Values();
    forall k | k in Names(values) ensures k in g.order {
      var a :| a in values && a.consultor == k;
      var i :| 0 <= i < |values| && values[i] == a;
      assert g.order[i] == k;
    }
    forall k | k in g.order ensures k in Names(values) {
      var i :| 0 <= i < |g.order| && g.order[i] == k;
      assert values[i] in values;
    }
  }

  /** The ranking's sales counts add up to the number of rows, and its
      money figures to the KPI totals. */
  lemma RankingMatchesKpis(rows: seq<Row>, arr: seq<Agg>)
    requires forall m :: Sum(arr, m) == RowsSum(rows, m)
    ensures Sum(arr, OfVendas) == |rows| as real
    ensures Sum(arr, OfTotal) == Tally(rows).total
    ensures Sum(arr, OfPago) == Tally(rows).pago
    ensures Sum(arr, OfPendente) == Tally(rows).pendente
    ensures Sum(arr, OfAtrasado) == Tally(rows).atrasado
  {
    RowsSumVendas(rows);
    RowsSumIsTally(rows);
  }
}
