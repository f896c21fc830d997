/**
 * The financial inventory page: category totals, gross and net revenue, the
 * month buckets of the revenue/expense chart and the composition list, as
 * computed from the three fetched tables (inscriptions, payments, expenses).
 */
module Inventory {

  import opened Wrappers
  import opened Dates
  import Seqs

  /**
   * One fetched row: the page selects one amount column and one date column per
   * table (`prix_inscription, date_inscription`, `montant_paye, date_creation`,
   * `somme, date_creation`).
   */
  datatype Row = Row(amount: Option<int>, date: RawDate)

  /** `amount || 0`. */
  function Amount(r: Row): int {
    r.amount.GetOr(0)
  }

  /** A category total: the amounts of all rows, a missing amount counting as 0. */
  function Total(rows: seq<Row>): int {
    if rows == [] then 0 else Total(rows[..|rows| - 1]) + Amount(rows[|rows| - 1])
  }

  /** Totals are additive over a split of the rows. */
  lemma {:induction false} TotalAppend(a: seq<Row>, b: seq<Row>)
    ensures Total(a + b) == Total(a) + Total(b)
    decreases |b|
  {
    if b == [] {
      assert a + b == a;
    } else {
      assert (a + b)[..|a + b| - 1] == a + b[..|b| - 1];
      TotalAppend(a, b[..|b| - 1]);
    }
  }

  /** The month a row is bucketed under; rows without a valid date have none. */
  function MonthOf(r: Row): Option<Month> {
    if r.date.Parsed? then Some(r.date.month) else None
  }

  /** The months of the dated rows, in row order. */
  function DatedMonths(rows: seq<Row>): (ms: seq<Month>)
    ensures forall m: Month :: m in ms <==> exists i :: 0 <= i < |rows| && MonthOf(rows[i]) == Some(m)
  {
    if rows == [] then []
    else
      var last := rows[|rows| - 1];
      var init := rows[..|rows| - 1];
      assert forall i :: 0 <= i < |init| ==> init[i] == rows[i];
      DatedMonths(init) + (if MonthOf(last).Some? then [MonthOf(last).value] else [])
  }

  /** The sum of the amounts of the rows dated in month `m`, whatever their year. */
  function AmountIn(rows: seq<Row>, m: Month): int {
    if rows == [] then 0
    else AmountIn(rows[..|rows| - 1], m) + (if MonthOf(rows[|rows| - 1]) == Some(m) then Amount(rows[|rows| - 1]) else 0)
  }

  /** The sum of the amounts of all dated rows. */
  function DatedTotal(rows: seq<Row>): int {
    if rows == [] then 0
    else DatedTotal(rows[..|rows| - 1]) + (if MonthOf(rows[|rows| - 1]).Some? then Amount(rows[|rows| - 1]) else 0)
  }

  /** How the per-row functions grow when one more row is processed. */
  lemma RowsSnoc(rows: seq<Row>, r: Row)
    ensures DatedMonths(rows + [r]) == DatedMonths(rows) + (if MonthOf(r).Some? then [MonthOf(r).value] else [])
    ensures forall m: Month :: AmountIn(rows + [r], m) == AmountIn(rows, m) + (if MonthOf(r) == Some(m) then Amount(r) else 0)
    ensures DatedTotal(rows + [r]) == DatedTotal(rows) + (if MonthOf(r).Some? then Amount(r) else 0)
  {
    assert (rows + [r])[..|rows|] == rows;
  }

  /** A row without a valid date counts in its category total and nowhere in the chart. */
  lemma UndatedRowOnlyInTotal(rows: seq<Row>, r: Row)
    requires !r.date.Parsed?
    ensures Total(rows + [r]) == Total(rows) + Amount(r)
    ensures DatedMonths(rows + [r]) == DatedMonths(rows)
    ensures DatedTotal(rows + [r]) == DatedTotal(rows)
    ensures forall m: Month :: AmountIn(rows + [r], m) == AmountIn(rows, m)
  {
    assert (rows + [r])[..|rows|] == rows;
  }

  /** With non-negative amounts the chart never shows more than the category total. */
  lemma {:induction false} DatedWithinTotal(rows: seq<Row>)
    requires forall i :: 0 <= i < |rows| ==> Amount(rows[i]) >= 0
    ensures 0 <= DatedTotal(rows) <= Total(rows)
  {
    if rows != [] {
      DatedWithinTotal(rows[..|rows| - 1]);
    }
  }

  /** Rows that agree on their months and amounts feed the chart alike. */
  lemma {:induction false} SameChartFeed(a: seq<Row>, b: seq<Row>)
    requires |a| == |b|
    requires forall i :: 0 <= i < |a| ==> MonthOf(a[i]) == MonthOf(b[i]) && Amount(a[i]) == Amount(b[i])
    ensures DatedMonths(a) == DatedMonths(b)
    ensures forall m: Month :: AmountIn(a, m) == AmountIn(b, m)
    ensures DatedTotal(a) == DatedTotal(b)
  {
    if a != [] {
      var n := |a| - 1;
      assert MonthOf(a[n]) == MonthOf(b[n]) && Amount(a[n]) == Amount(b[n]);
      SameChartFeed(a[..n], b[..n]);
    }
  }

  /** The bucket key is the month alone: moving a row to another year changes no bucket. */
  lemma YearIgnored(rows: seq<Row>, k: nat, year: int)
    requires k < |rows| && rows[k].date.Parsed?
    ensures var moved := rows[k := rows[k].(date := Parsed(year, rows[k].date.month))];
            DatedMonths(moved) == DatedMonths(rows) &&
            (forall m: Month :: AmountIn(moved, m) == AmountIn(rows, m)) &&
            DatedTotal(moved) == DatedTotal(rows)
  {
    var moved := rows[k := rows[k].(date := Parsed(year, rows[k].date.month))];
    SameChartFeed(moved, rows);
  }

  /** One chart point: `{ month, revenus, depenses }`. */
  datatype Bucket = Bucket(month: Month, revenus: int, depenses: int)

  /** Which side of a bucket a table feeds: `processData(arr, 'revenus' | 'depenses', ...)`. */
  datatype Side = Revenus | Depenses

  function Months(bs: seq<Bucket>): (ms: seq<Month>)
    ensures |ms| == |bs|
  {
    if bs == [] then [] else [bs[0].month] + Months(bs[1..])
  }

  /** The revenue of the bucket for month `m`, or 0 when there is none. */
  function RevenusOf(bs: seq<Bucket>, m: Month): int {
    if bs == [] then 0 else if bs[0].month == m then bs[0].revenus else RevenusOf(bs[1..], m)
  }

  function DepensesOf(bs: seq<Bucket>, m: Month): int {
    if bs == [] then 0 else if bs[0].month == m then bs[0].depenses else DepensesOf(bs[1..], m)
  }

  function SumRevenus(bs: seq<Bucket>): int {
    if bs == [] then 0 else bs[0].revenus + SumRevenus(bs[1..])
  }

  function SumDepenses(bs: seq<Bucket>): int {
    if bs == [] then 0 else bs[0].depenses + SumDepenses(bs[1..])
  }

  /**
   * Add an amount to one side of a month's bucket, creating the bucket with both
   * sides at 0 the first time the month is seen.
   */
  function Credit(bs: seq<Bucket>, m: Month, side: Side, amount: int): (r: seq<Bucket>)
    ensures Months(r) == Seqs.AddKey(Months(bs), m)
    ensures forall m': Month :: RevenusOf(r, m') == RevenusOf(bs, m') + (if m' == m && side == Revenus then amount else 0)
    ensures forall m': Month :: DepensesOf(r, m') == DepensesOf(bs, m') + (if m' == m && side == Depenses then amount else 0)
    ensures SumRevenus(r) == SumRevenus(bs) + (if side == Revenus then amount else 0)
    ensures SumDepenses(r) == SumDepenses(bs) + (if side == Depenses then amount else 0)
  {
    if bs == [] then
      [if side == Revenus then Bucket(m, amount, 0) else Bucket(m, 0, amount)]
    else if bs[0].month == m then
      var b := bs[0];
      var b' := Bucket(m, b.revenus + (if side == Revenus then amount else 0), b.depenses + (if side == Depenses then amount else 0));
      assert ([b'] + bs[1..])[1..] == bs[1..];
      [b'] + bs[1..]
    else
      var rest := Credit(bs[1..], m, side, amount);
      assert ([bs[0]] + rest)[1..] == rest;
      [bs[0]] + rest
  }

  /**
   * What a pass over `rows` has done to the buckets it started from: the months of
   * the dated rows were added in first-seen order and each month received, on the
   * table's side, the amounts of its rows.
   */
  predicate Processed(monthly: seq<Bucket>, out: seq<Bucket>, rows: seq<Row>, side: Side) {
    && Months(out) == Seqs.Extend(Months(monthly), DatedMonths(rows))
    && (forall m: Month :: RevenusOf(out, m) == RevenusOf(monthly, m) + (if side == Revenus then AmountIn(rows, m) else 0))
    && (forall m: Month :: DepensesOf(out, m) == DepensesOf(monthly, m) + (if side == Depenses then AmountIn(rows, m) else 0))
    && SumRevenus(out) == SumRevenus(monthly) + (if side == Revenus then DatedTotal(rows) else 0)
    && SumDepenses(out) == SumDepenses(monthly) + (if side == Depenses then DatedTotal(rows) else 0)
  }

  /** Handling one more dated row credits its month and keeps the pass's description true. */
  lemma CreditStep(monthly: seq<Bucket>, out: seq<Bucket>, rows: seq<Row>, item: Row, side: Side)
    requires item.date.Parsed?
    requires Processed(monthly, out, rows, side)
    ensures Processed(monthly, Credit(out, item.date.month, side, Amount(item)), rows + [item], side)
  {
    var m := item.date.month;
    var out' := Credit(out, m, side, Amount(item));
    RowsSnoc(rows, item);
    assert DatedMonths(rows + [item]) == DatedMonths(rows) + [m];
    Seqs.ExtendSnoc(Months(monthly), DatedMonths(rows), m);
    forall m': Month
      ensures RevenusOf(out', m') == RevenusOf(monthly, m') + (if side == Revenus then AmountIn(rows + [item], m') else 0)
    {
      assert AmountIn(rows + [item], m') == AmountIn(rows, m') + (if m' == m then Amount(item) else 0);
    }
    forall m': Month
      ensures DepensesOf(out', m') == DepensesOf(monthly, m') + (if side == Depenses then AmountIn(rows + [item], m') else 0)
    {
      assert AmountIn(rows + [item], m') == AmountIn(rows, m') + (if m' == m then Amount(item) else 0);
    }
  }

  /** A row without a valid date leaves the buckets and the pass's description as they were. */
  lemma SkipStep(monthly: seq<Bucket>, out: seq<Bucket>, rows: seq<Row>, item: Row, side: Side)
    requires !item.date.Parsed?
    requires Processed(monthly, out, rows, side)
    ensures Processed(monthly, out, rows + [item], side)
  {
    UndatedRowOnlyInTotal(rows, item);
  }

  /** `processData(rows, side, dateKey)`: one pass over a table, updating the buckets in place. */
  method ProcessData(monthly: seq<Bucket>, rows: seq<Row>, side: Side) returns (out: seq<Bucket>)
    ensures Months(out) == Seqs.Extend(Months(monthly), DatedMonths(rows))
    ensures forall m: Month :: RevenusOf(out, m) == RevenusOf(monthly, m) + (if side == Revenus then AmountIn(rows, m) else 0)
    ensures forall m: Month :: DepensesOf(out, m) == DepensesOf(monthly, m) + (if side == Depenses then AmountIn(rows, m) else 0)
    ensures SumRevenus(out) == SumRevenus(monthly) + (if side == Revenus then DatedTotal(rows) else 0)
    ensures SumDepenses(out) == SumDepenses(monthly) + (if side == Depenses then DatedTotal(rows) else 0)
  {
    out := monthly;
    var i := 0;
    assert rows[..0] == [];
    while i < |rows|
      invariant 0 <= i <= |rows|
      invariant Processed(monthly, out, rows[..i], side)
    {
      var item := rows[i];
      assert rows[..i + 1] == rows[..i] + [item];
      if item.date.Parsed? {
        CreditStep(monthly, out, rows[..i], item, side);
        out := Credit(out, item.date.month, side, Amount(item));
      } else {
        SkipStep(monthly, out, rows[..i], item, side);
      }
      i := i + 1;
    }
    assert rows[..i] == rows;
  }

  /** One entry of the composition chart: `{ name, value, color }`. */
  datatype Slice = Slice(name: string, value: int, color: string)

  /** The state `fetchInventoryData` stores. */
  datatype Report = Report(
    totalInscriptions: int,
    totalPaiements: int,
    totalDepenses: int,
    revenuBrut: int,
    revenuNet: int,
    chartData: seq<Bucket>,
    compositionData: seq<Slice>)

  /**
   * The aggregation inside `fetchInventoryData`, given the three fetched tables
   * (a failed fetch, `data === null`, is passed as the empty sequence: the code
   * treats both alike through `|| 0` and `|| []`).
   */
  method FetchInventory(ins: seq<Row>, pay: seq<Row>, dep: seq<Row>) returns (r: Report)
    ensures r.totalInscriptions == Total(ins)
    ensures r.totalPaiements == Total(pay)
    ensures r.totalDepenses == Total(dep)
    ensures r.revenuBrut == Total(ins) + Total(pay)
    ensures r.revenuNet == r.revenuBrut - Total(dep)
    ensures Seqs.Distinct(Months(r.chartData))
    ensures Months(r.chartData) == Seqs.Extend([], DatedMonths(ins) + DatedMonths(pay) + DatedMonths(dep))
    ensures forall m: Month :: RevenusOf(r.chartData, m) == AmountIn(ins, m) + AmountIn(pay, m)
    ensures forall m: Month :: DepensesOf(r.chartData, m) == AmountIn(dep, m)
    ensures SumRevenus(r.chartData) == DatedTotal(ins) + DatedTotal(pay)
    ensures SumDepenses(r.chartData) == DatedTotal(dep)
    ensures |r.compositionData| == 3
    ensures r.compositionData[0].name == "Inscriptions" && r.compositionData[0].value == Total(ins)
    ensures r.compositionData[1].name == "Paiements" && r.compositionData[1].value == Total(pay)
    ensures r.compositionData[2].name == "Dépenses" && r.compositionData[2].value == Total(dep)
  {
    var sumIns := Total(ins);
    var sumPay := Total(pay);
    var sumDep := Total(dep);
    var revenuBrut := sumIns + sumPay;
    var revenuNet := revenuBrut - sumDep;

    var monthly: seq<Bucket> := [];
    monthly := ProcessData(monthly, ins, Revenus);
    monthly := ProcessData(monthly, pay, Revenus);
    monthly := ProcessData(monthly, dep, Depenses);
    Seqs.ExtendAppend([], DatedMonths(ins), DatedMonths(pay));
    Seqs.ExtendAppend([], DatedMonths(ins) + DatedMonths(pay), DatedMonths(dep));
    Seqs.ExtendDistinct([], DatedMonths(ins) + DatedMonths(pay) + DatedMonths(dep));

    var compositionData := [
      Slice("Inscriptions", sumIns, "#3b82f6"),
      Slice("Paiements", sumPay, "#10b981"),
      Slice("Dépenses", sumDep, "#ef4444")
    ];
    r := Report(sumIns, sumPay, sumDep, revenuBrut, revenuNet, monthly, compositionData);
  }
}
