/**
 * The dashboard's client-side aggregation: the KPI cards, the monthly revenue
 * series keyed `YYYY-MM` and sorted by key, the inscription count per course,
 * and the cap on recent inscriptions.
 */
module Dashboard {

  import opened Wrappers
  import opened Dates
  import Js
  import Seqs
  import Tally

  /** A payment row: `montant_total, montant_paye, est_solde, date_premier_paiement`. */
  datatype Payment = Payment(montantTotal: int, montantPaye: int, estSolde: bool, datePremierPaiement: RawDate)

  /** The revenue KPI: the paid amounts of all payments added up. */
  function TotalRevenues(ps: seq<Payment>): (r: int)
    ensures (forall i :: 0 <= i < |ps| ==> ps[i].montantPaye >= 0) ==> r >= 0
  {
    if ps == [] then 0 else TotalRevenues(ps[..|ps| - 1]) + ps[|ps| - 1].montantPaye
  }

  predicate IsPending(p: Payment) {
    !p.estSolde
  }

  predicate IsSettled(p: Payment) {
    p.estSolde
  }

  /** The pending KPI: how many payments are not settled. */
  function PendingPaymentsCount(ps: seq<Payment>): (n: nat)
    ensures n <= |ps|
    ensures n == 0 <==> forall p :: p in ps ==> p.estSolde
  {
    var pending := Seqs.Filter(ps, IsPending);
    assert pending != [] ==> pending[0] in pending;
    assert forall p :: p in ps && IsPending(p) ==> p in pending;
    |pending|
  }

  /** The pending count starts at 0 and grows by one exactly for each payment not settled. */
  lemma PendingCountSnoc(ps: seq<Payment>, p: Payment)
    ensures PendingPaymentsCount([]) == 0
    ensures PendingPaymentsCount(ps + [p]) == PendingPaymentsCount(ps) + (if p.estSolde then 0 else 1)
  {
    Seqs.FilterAppend(ps, [p], IsPending);
    assert [p][1..] == [];
  }

  /** Pending and settled payments together are all the payments. */
  lemma PendingAndSettled(ps: seq<Payment>)
    ensures PendingPaymentsCount(ps) + |Seqs.Filter(ps, IsSettled)| == |ps|
  {
    Seqs.FilterSplit(ps, IsPending, IsSettled);
  }

  datatype Kpis = Kpis(totalStudents: int, totalInscriptions: int, totalRevenues: int, pendingPaymentsCount: int)

  /**
   * The KPI state: the two `count` results (absent when the backend returns no
   * count) and the payment rows (`data === null` passed as the empty sequence).
   */
  function ComputeKpis(studentsCount: Option<int>, inscriptionsCount: Option<int>, ps: seq<Payment>): (k: Kpis)
    ensures studentsCount.None? ==> k.totalStudents == 0
    ensures studentsCount.Some? ==> k.totalStudents == studentsCount.value
    ensures inscriptionsCount.None? ==> k.totalInscriptions == 0
    ensures inscriptionsCount.Some? ==> k.totalInscriptions == inscriptionsCount.value
    ensures k.totalRevenues == TotalRevenues(ps) == KeyedTotal(ps) + UndatedTotal(ps)
    ensures k.pendingPaymentsCount == PendingPaymentsCount(ps)
    ensures 0 <= k.pendingPaymentsCount <= |ps|
    ensures k.pendingPaymentsCount == 0 <==> forall p :: p in ps ==> p.estSolde
  {
    RevenueSplit(ps);
    Kpis(studentsCount.GetOr(0), inscriptionsCount.GetOr(0), TotalRevenues(ps), PendingPaymentsCount(ps))
  }

  /** `s.padStart(2, '0')`. */
  function PadStart2(s: string): (r: string)
    ensures |s| >= 2 ==> r == s
    ensures |s| < 2 ==> |r| == 2 && r[2 - |s|..] == s && forall i :: 0 <= i < 2 - |s| ==> r[i] == '0'
    decreases 2 - |s|
  {
    if |s| >= 2 then s else PadStart2("0" + s)
  }

  /**
   * The bucket key of a payment: none when `date_premier_paiement` is falsy,
   * otherwise the year, a dash and the month number padded to two digits,
   * which is "NaN-NaN" for a date `new Date` cannot parse.
   */
  function MonthKey(d: RawDate): (r: Option<string>)
    ensures r.None? <==> d.Missing?
  {
    match d
    case Missing => None
    case Unparsable => Some("NaN-NaN")
    case Parsed(y, m) => Some(Js.NumberToString(y) + "-" + PadStart2(Js.NumberToString(m)))
  }

  /** A month number is written with one or two digits. */
  lemma MonthDigits(m: Month)
    ensures |Js.NumberToString(m)| == if m < 10 then 1 else 2
  {
    if m >= 10 {
      assert Js.Digits(m / 10) == [Js.DigitChar(m / 10)];
    }
  }

  /** Unlike the inventory chart, different years never share a dashboard bucket. */
  lemma MonthKeyInjective(a: RawDate, b: RawDate)
    requires a.Parsed? && b.Parsed? && MonthKey(a) == MonthKey(b)
    ensures a.year == b.year && a.month == b.month
  {
    var ya, yb := Js.NumberToString(a.year), Js.NumberToString(b.year);
    var ma, mb := PadStart2(Js.NumberToString(a.month)), PadStart2(Js.NumberToString(b.month));
    var k := MonthKey(a).value;
    MonthDigits(a.month);
    MonthDigits(b.month);
    assert |ma| == 2 && |mb| == 2;
    assert k == ya + "-" + ma && k == yb + "-" + mb;
    assert ya == k[..|k| - 3] && yb == k[..|k| - 3];
    Js.ParseIntOfNumberToString(a.year);
    Js.ParseIntOfNumberToString(b.year);
    assert ma == k[|k| - 2..] && mb == k[|k| - 2..];
    var da, db := Js.NumberToString(a.month), Js.NumberToString(b.month);
    if a.month < 10 {
      assert ma == "0" + da;
    }
    if b.month < 10 {
      assert mb == "0" + db;
    }
    assert da == db;
    Js.ParseIntOfNumberToString(a.month);
    Js.ParseIntOfNumberToString(b.month);
  }

  /** An unparsable date never lands in the bucket of a valid one. */
  lemma UnparsableKeyIsApart(d: RawDate)
    requires d.Parsed?
    ensures MonthKey(d) != MonthKey(Unparsable)
  {
    var k := MonthKey(d).value;
    var mm := PadStart2(Js.NumberToString(d.month));
    assert k[|k| - 1] == mm[1];
    assert Js.IsDigit(mm[1]);
  }

  /** The keys of the payments that have one, in payment order. */
  function DatedKeys(ps: seq<Payment>): seq<string> {
    if ps == [] then []
    else
      var k := MonthKey(ps[|ps| - 1].datePremierPaiement);
      DatedKeys(ps[..|ps| - 1]) + (if k.Some? then [k.value] else [])
  }

  /** The amount paid by the payments whose key is `key`. */
  function KeyedAmount(ps: seq<Payment>, key: string): int {
    if ps == [] then 0
    else
      var p := ps[|ps| - 1];
      KeyedAmount(ps[..|ps| - 1], key) + (if MonthKey(p.datePremierPaiement) == Some(key) then p.montantPaye else 0)
  }

  /** The amount paid by the payments that have a key. */
  function KeyedTotal(ps: seq<Payment>): int {
    if ps == [] then 0
    else
      var p := ps[|ps| - 1];
      KeyedTotal(ps[..|ps| - 1]) + (if MonthKey(p.datePremierPaiement).Some? then p.montantPaye else 0)
  }

  /** The amount paid by the payments without a `date_premier_paiement`. */
  function UndatedTotal(ps: seq<Payment>): int {
    if ps == [] then 0
    else
      var p := ps[|ps| - 1];
      UndatedTotal(ps[..|ps| - 1]) + (if p.datePremierPaiement.Missing? then p.montantPaye else 0)
  }

  /** The revenue KPI is the monthly series' total plus what undated payments brought in. */
  lemma {:induction false} RevenueSplit(ps: seq<Payment>)
    ensures TotalRevenues(ps) == KeyedTotal(ps) + UndatedTotal(ps)
  {
    if ps != [] {
      RevenueSplit(ps[..|ps| - 1]);
    }
  }

  lemma PaymentsSnoc(ps: seq<Payment>, p: Payment)
    ensures DatedKeys(ps + [p]) == DatedKeys(ps) + (if MonthKey(p.datePremierPaiement).Some? then [MonthKey(p.datePremierPaiement).value] else [])
    ensures forall k :: KeyedAmount(ps + [p], k) == KeyedAmount(ps, k) + (if MonthKey(p.datePremierPaiement) == Some(k) then p.montantPaye else 0)
    ensures KeyedTotal(ps + [p]) == KeyedTotal(ps) + (if MonthKey(p.datePremierPaiement).Some? then p.montantPaye else 0)
  {
    assert (ps + [p])[..|ps|] == ps;
  }

  /** What the loop filling `monthlyRevMap` has built after the payments `ps`. */
  ghost predicate Filled(t: Tally.Entries<string>, ps: seq<Payment>) {
    && Tally.Keys(t) == Seqs.Extend([], DatedKeys(ps))
    && (forall k :: Tally.Get(t, k) == KeyedAmount(ps, k))
    && Tally.Sum(t) == KeyedTotal(ps)
  }

  /** A dated payment adds its paid amount under its key. */
  lemma FilledDated(t: Tally.Entries<string>, ps: seq<Payment>, p: Payment)
    requires MonthKey(p.datePremierPaiement).Some?
    requires Filled(t, ps)
    ensures Filled(Tally.Add(t, MonthKey(p.datePremierPaiement).value, p.montantPaye), ps + [p])
  {
    var key := MonthKey(p.datePremierPaiement).value;
    PaymentsSnoc(ps, p);
    assert DatedKeys(ps + [p]) == DatedKeys(ps) + [key];
    Seqs.ExtendSnoc([], DatedKeys(ps), key);
  }

  /** A payment without a key leaves the map as it was. */
  lemma FilledUndated(t: Tally.Entries<string>, ps: seq<Payment>, p: Payment)
    requires MonthKey(p.datePremierPaiement).None?
    requires Filled(t, ps)
    ensures Filled(t, ps + [p])
  {
    PaymentsSnoc(ps, p);
    assert DatedKeys(ps + [p]) == DatedKeys(ps);
  }

  /** The loop filling `monthlyRevMap`: each dated payment adds its paid amount under its month key. */
  method MonthlyRevenueMap(ps: seq<Payment>) returns (t: Tally.Entries<string>)
    ensures Tally.Keys(t) == Seqs.Extend([], DatedKeys(ps))
    ensures forall k :: Tally.Get(t, k) == KeyedAmount(ps, k)
    ensures Tally.Sum(t) == KeyedTotal(ps)
  {
    t := [];
    var i := 0;
    assert ps[..0] == [];
    while i < |ps|
      invariant 0 <= i <= |ps|
      invariant Filled(t, ps[..i])
    {
      var p := ps[i];
      assert ps[..i + 1] == ps[..i] + [p];
      var key := MonthKey(p.datePremierPaiement);
      if key.Some? {
        FilledDated(t, ps[..i], p);
        t := Tally.Add(t, key.value, p.montantPaye);
      } else {
        FilledUndated(t, ps[..i], p);
      }
      i := i + 1;
    }
    assert ps[..i] == ps;
  }

  /** `a.localeCompare(b) < 0`, taken as comparison of character codes from the left. */
  predicate Less(a: string, b: string) {
    (a == [] && b != []) || (a != [] && b != [] && (a[0] < b[0] || (a[0] == b[0] && Less(a[1..], b[1..]))))
  }

  lemma {:induction false} LessIrreflexive(a: string)
    ensures !Less(a, a)
  {
    if a != [] {
      LessIrreflexive(a[1..]);
    }
  }

  lemma {:induction false} LessTransitive(a: string, b: string, c: string)
    requires Less(a, b) && Less(b, c)
    ensures Less(a, c)
  {
    if a != [] && a[0] == b[0] && b[0] == c[0] {
      LessTransitive(a[1..], b[1..], c[1..]);
    }
  }

  lemma {:induction false} LessTotal(a: string, b: string)
    requires a != b
    ensures Less(a, b) || Less(b, a)
  {
    if a != [] && b != [] && a[0] == b[0] {
      assert a == [a[0]] + a[1..] && b == [b[0]] + b[1..];
      LessTotal(a[1..], b[1..]);
    }
  }

  /** Keys strictly increasing from left to right. */
  predicate Ascending(ks: seq<string>) {
    forall i, j :: 0 <= i < j < |ks| ==> Less(ks[i], ks[j])
  }

  /** A key below every key of an ascending list can go in front of it. */
  lemma AscendingCons(k: string, ks: seq<string>)
    requires Ascending(ks)
    requires forall j :: 0 <= j < |ks| ==> Less(k, ks[j])
    ensures Ascending([k] + ks)
  {
    var r := [k] + ks;
    forall i, j | 0 <= i < j < |r|
      ensures Less(r[i], r[j])
    {
      assert r[j] == ks[j - 1];
      if i > 0 {
        assert r[i] == ks[i - 1];
      }
    }
  }

  lemma KeysCons(e: (string, int), t: Tally.Entries<string>)
    ensures Tally.Keys([e] + t) == [e.0] + Tally.Keys(t)
  {
    assert ([e] + t)[1..] == t;
  }

  /** `x` goes in front when its key is below the first key. */
  lemma InsertInFront(x: (string, int), t: Tally.Entries<string>)
    requires Ascending(Tally.Keys(t)) && t != [] && Less(x.0, t[0].0)
    ensures Ascending(Tally.Keys([x] + t))
  {
    var ks := Tally.Keys(t);
    Tally.KeysIndex(t, 0);
    forall j | 0 < j < |ks|
      ensures Less(x.0, ks[j])
    {
      LessTransitive(x.0, ks[0], ks[j]);
    }
    AscendingCons(x.0, ks);
    KeysCons(x, t);
  }

  /** The first entry stays in front of a tail into which `x` was inserted. */
  lemma InsertBehindHead(x: (string, int), t: Tally.Entries<string>, rest: Tally.Entries<string>)
    requires Ascending(Tally.Keys(t)) && t != [] && x.0 != t[0].0 && !Less(x.0, t[0].0)
    requires Ascending(Tally.Keys(rest))
    requires forall k :: k in Tally.Keys(rest) <==> k == x.0 || k in Tally.Keys(t[1..])
    ensures Ascending(Tally.Keys([t[0]] + rest))
  {
    var ks, rs := Tally.Keys(t), Tally.Keys(rest);
    Tally.KeysIndex(t, 0);
    LessTotal(x.0, t[0].0);
    assert ks == [t[0].0] + Tally.Keys(t[1..]);
    forall j | 0 <= j < |rs|
      ensures Less(t[0].0, rs[j])
    {
      var k := rs[j];
      assert k in rs;
      if k != x.0 {
        var i :| 0 <= i < |Tally.Keys(t[1..])| && Tally.Keys(t[1..])[i] == k;
        assert ks[i + 1] == k;
      }
    }
    AscendingCons(t[0].0, rs);
    KeysCons(t[0], rest);
  }

  /** One step of sorting: place `x` among entries already in key order. */
  function InsertByKey(x: (string, int), t: Tally.Entries<string>): (r: Tally.Entries<string>)
    requires Ascending(Tally.Keys(t)) && x.0 !in Tally.Keys(t)
    ensures Ascending(Tally.Keys(r))
    ensures forall k :: k in Tally.Keys(r) <==> k == x.0 || k in Tally.Keys(t)
    ensures multiset(r) == multiset(t) + multiset{x}
    ensures forall k :: Tally.Get(r, k) == Tally.Get(t, k) + (if k == x.0 then x.1 else 0)
    ensures Tally.Sum(r) == Tally.Sum(t) + x.1
  {
    if t == [] then [x]
    else
      KeysCons(t[0], t[1..]);
      assert t == [t[0]] + t[1..];
      assert Tally.Keys(t)[1..] == Tally.Keys(t[1..]);
      assert Ascending(Tally.Keys(t[1..]));
      if Less(x.0, t[0].0) then
        InsertInFront(x, t);
        KeysCons(x, t);
        Tally.GetAbsent(t, x.0);
        assert ([x] + t)[1..] == t;
        [x] + t
      else
        var rest := InsertByKey(x, t[1..]);
        InsertBehindHead(x, t, rest);
        KeysCons(t[0], rest);
        assert ([t[0]] + rest)[1..] == rest;
        [t[0]] + rest
  }

  /** The map's entries sorted by key, for entries whose keys are distinct. */
  function SortByKey(t: Tally.Entries<string>): (r: Tally.Entries<string>)
    requires Seqs.Distinct(Tally.Keys(t))
    ensures Ascending(Tally.Keys(r))
    ensures forall k :: k in Tally.Keys(r) <==> k in Tally.Keys(t)
    ensures multiset(r) == multiset(t)
    ensures forall k :: Tally.Get(r, k) == Tally.Get(t, k)
    ensures Tally.Sum(r) == Tally.Sum(t)
  {
    if t == [] then []
    else
      assert t == [t[0]] + t[1..];
      Seqs.DistinctTail(Tally.Keys(t));
      assert Tally.Keys(t)[1..] == Tally.Keys(t[1..]);
      var sorted := SortByKey(t[1..]);
      Tally.GetAbsent(t[1..], t[0].0);
      InsertByKey(t[0], sorted)
  }

  /**
   * `sortedMonthlyRevenues`: one `{ mois, revenus }` entry per key, in ascending key
   * order, each holding what the payments of that key paid.
   */
  method MonthlyRevenues(ps: seq<Payment>) returns (series: Tally.Entries<string>)
    ensures Ascending(Tally.Keys(series))
    ensures forall k :: k in Tally.Keys(series) <==> k in DatedKeys(ps)
    ensures forall k :: Tally.Get(series, k) == KeyedAmount(ps, k)
    ensures Tally.Sum(series) == KeyedTotal(ps)
  {
    var monthlyRevMap := MonthlyRevenueMap(ps);
    Seqs.ExtendDistinct([], DatedKeys(ps));
    Seqs.ExtendMembers([], DatedKeys(ps));
    series := SortByKey(monthlyRevMap);
  }

  /** The course name of an inscription, or "Inconnu" when it has none. */
  function CourseLabel(nom: Js.Text): string {
    Js.Or(nom, "Inconnu")
  }

  function Labels(ins: seq<Js.Text>): (ls: seq<string>)
    ensures |ls| == |ins|
  {
    if ins == [] then [] else Labels(ins[..|ins| - 1]) + [CourseLabel(ins[|ins| - 1])]
  }

  /** How many inscriptions carry the label `lbl`. */
  function CountOf(ins: seq<Js.Text>, lbl: string): nat {
    if ins == [] then 0 else CountOf(ins[..|ins| - 1], lbl) + (if CourseLabel(ins[|ins| - 1]) == lbl then 1 else 0)
  }

  /** What the `logicielCounts` loop has built after the inscriptions `ins`. */
  ghost predicate Counted(counts: Tally.Entries<string>, ins: seq<Js.Text>) {
    && Tally.Keys(counts) == Seqs.Extend([], Labels(ins))
    && (forall k :: Tally.Get(counts, k) == CountOf(ins, k))
    && Tally.Sum(counts) == |ins|
  }

  /** One more inscription adds one under its label. */
  lemma CountedStep(counts: Tally.Entries<string>, ins: seq<Js.Text>, i: nat)
    requires i < |ins| && Counted(counts, ins[..i])
    ensures Counted(Tally.Add(counts, CourseLabel(ins[i]), 1), ins[..i + 1])
  {
    var done, nom := ins[..i], ins[i];
    assert ins[..i + 1][..i] == done && ins[..i + 1][i] == nom;
    assert Labels(ins[..i + 1]) == Labels(done) + [CourseLabel(nom)];
    Seqs.ExtendSnoc([], Labels(done), CourseLabel(nom));
    assert Labels(done) + [CourseLabel(nom)] == Labels(ins[..i + 1]);
  }

  /**
   * The `logicielCounts` loop over the joined course names of all inscriptions:
   * each inscription adds one to exactly one label, in first-seen label order.
   */
  method InscriptionsByLogiciel(ins: seq<Js.Text>) returns (counts: Tally.Entries<string>)
    ensures Tally.Keys(counts) == Seqs.Extend([], Labels(ins))
    ensures forall k :: Tally.Get(counts, k) == CountOf(ins, k)
    ensures Tally.Sum(counts) == |ins|
  {
    counts := [];
    var i := 0;
    assert ins[..0] == [];
    while i < |ins|
      invariant 0 <= i <= |ins|
      invariant Counted(counts, ins[..i])
    {
      CountedStep(counts, ins, i);
      counts := Tally.Add(counts, CourseLabel(ins[i]), 1);
      i := i + 1;
    }
    assert ins[..i] == ins;
  }

  /** `.limit(5)` on the query and `.slice(0, 5)` when rendering. */
  const RecentLimit: nat := 5

  function Recent<T>(rows: seq<T>): (r: seq<T>)
    ensures |r| <= RecentLimit && |r| <= |rows|
    ensures r == rows[..|r|]
    ensures |rows| <= RecentLimit ==> r == rows
    ensures |r| == if |rows| <= RecentLimit then |rows| else RecentLimit
  {
    if |rows| <= RecentLimit then rows else rows[..RecentLimit]
  }
}
