/** The student report page: the last four months up to the current one, the
    student's present/absent counts per month, the overall attendance rate of
    those months, and the paid/unpaid badge of each month. The attendance and
    subscription rows of the student are parameters. */
module StudentReport {
  import opened Common
  import Months
  import Text

  /** An `attendances` row of the student: `month_year` and `status`. */
  datatype AttRow = AttRow(month: Months.YearMonth, status: AttStatus)

  /** A `subscriptions` row of the student. */
  datatype SubRow = SubRow(month: Months.YearMonth, status: PayStatus)

  /** An `attMap` entry. */
  datatype Bucket = Bucket(present: nat, absent: nat)

  datatype MonthStat = MonthStat(month: Months.YearMonth, present: nat, absent: nat, total: nat, rate: nat)

  /** A search hit as listed (`|| '—'` on the optional fields). */
  datatype SearchHit = SearchHit(id: Id, full_name: string, className: string, parent_name: string, parent_phone: string)

  /** A student row as returned by the name search. */
  datatype Found = Found(id: Id, full_name: string, className: Option<string>, parent_name: Option<string>, parent_phone: Option<string>)

  const Dash := "—"

  function OrDash(x: Option<string>): (r: string)
    ensures x.Some? && x.value != "" ==> r == x.value
    ensures !(x.Some? && x.value != "") ==> r == Dash
  {
    if x.Some? && x.value != "" then x.value else Dash
  }

  /** The search effect: no query (and no hits) below two non-blank characters,
      otherwise the returned rows with dashes for missing fields. */
  function SearchResults(query: string, data: Option<seq<Found>>): (r: seq<SearchHit>)
    ensures !Text.SearchReady(query) ==> r == []
    ensures Text.SearchReady(query) ==> |r| == |OrEmpty(data)|
    ensures Text.SearchReady(query) ==> forall i :: 0 <= i < |r| ==>
      r[i].id == OrEmpty(data)[i].id && r[i].full_name == OrEmpty(data)[i].full_name
      && r[i].className == OrDash(OrEmpty(data)[i].className)
      && r[i].parent_name == OrDash(OrEmpty(data)[i].parent_name)
      && r[i].parent_phone == OrDash(OrEmpty(data)[i].parent_phone)
  {
    if !Text.SearchReady(query) then []
    else
      var rows := OrEmpty(data);
      seq(|rows|, i requires 0 <= i < |rows| =>
        SearchHit(rows[i].id, rows[i].full_name, OrDash(rows[i].className), OrDash(rows[i].parent_name), OrDash(rows[i].parent_phone)))
  }

  /** Number of months the report covers. */
  const ReportMonths := 4

  /** The `for (let i = 3; i >= 0; i--)` loop pushing `current - i` months. */
  method LastFourMonths(current: Months.YearMonth) returns (months: seq<Months.YearMonth>)
    ensures |months| == ReportMonths
    ensures forall j :: 0 <= j < |months| ==> (Months.Valid(months[j]) && Months.Index(months[j]) == Months.Index(current) - 3 + j)
    ensures Months.Valid(current) ==> months[ReportMonths - 1] == current
  {
    months := [];
    var i := 3;
    while i >= 0
      invariant -1 <= i <= 3 && |months| == 3 - i
      invariant forall j :: 0 <= j < |months| ==> (Months.Valid(months[j]) && Months.Index(months[j]) == Months.Index(current) - 3 + j)
    {
      months := months + [Months.AddMonths(current, -i)];
      i := i - 1;
    }
    if Months.Valid(current) {
      Months.IndexInjective(months[3], current);
    }
  }

  /** Four report months are consecutive and ascending, hence pairwise distinct. */
  lemma ReportMonthsConsecutive(months: seq<Months.YearMonth>, current: Months.YearMonth, j: nat)
    requires |months| == ReportMonths
    requires forall k :: 0 <= k < |months| ==> (Months.Valid(months[k]) && Months.Index(months[k]) == Months.Index(current) - 3 + k)
    requires j + 1 < ReportMonths
    ensures months[j + 1] == Months.AddMonths(months[j], 1)
  {
    Months.IndexInjective(months[j + 1], Months.AddMonths(months[j], 1));
  }

  /** `attMap` after the `forEach`: per month, one more in the row's status bucket. */
  function Buckets(rows: seq<AttRow>): map<Months.YearMonth, Bucket> {
    if rows == [] then map[]
    else
      var m := Buckets(rows[..|rows| - 1]);
      var r := rows[|rows| - 1];
      var b := if r.month in m then m[r.month] else Bucket(0, 0);
      m[r.month := if r.status == Present then Bucket(b.present + 1, b.absent) else Bucket(b.present, b.absent + 1)]
  }

  function PresentIn(m: Months.YearMonth): AttRow -> bool {
    (r: AttRow) => r.month == m && r.status == Present
  }

  function AbsentIn(m: Months.YearMonth): AttRow -> bool {
    (r: AttRow) => r.month == m && r.status == Absent
  }

  function RowIn(m: Months.YearMonth): AttRow -> bool {
    (r: AttRow) => r.month == m
  }

  /** A month has a bucket iff some row is of that month; the buckets count that
      month's present and absent rows. */
  lemma {:induction false} BucketsSpec(rows: seq<AttRow>, m: Months.YearMonth)
    ensures m in Buckets(rows) <==> CountIf(rows, RowIn(m)) > 0
    ensures m in Buckets(rows) ==>
              Buckets(rows)[m].present == CountIf(rows, PresentIn(m)) && Buckets(rows)[m].absent == CountIf(rows, AbsentIn(m))
    ensures m !in Buckets(rows) ==> CountIf(rows, PresentIn(m)) == 0 && CountIf(rows, AbsentIn(m)) == 0
    decreases |rows|
  {
    if rows != [] {
      var init := rows[..|rows| - 1];
      BucketsSpec(init, m);
      CountIfMono(init, PresentIn(m), RowIn(m));
      CountIfMono(init, AbsentIn(m), RowIn(m));
    }
  }

  /** The `attMap` loop. */
  method BucketByMonth(rows: seq<AttRow>) returns (attMap: map<Months.YearMonth, Bucket>)
    ensures attMap == Buckets(rows)
  {
    attMap := map[];
    var i := 0;
    while i < |rows|
      invariant 0 <= i <= |rows|
      invariant attMap == Buckets(rows[..i])
    {
      assert rows[..i + 1][..i] == rows[..i];
      var r := rows[i];
      if r.month !in attMap {
        attMap := attMap[r.month := Bucket(0, 0)];
      }
      var b := attMap[r.month];
      if r.status == Present {
        attMap := attMap[r.month := Bucket(b.present + 1, b.absent)];
      } else {
        attMap := attMap[r.month := Bucket(b.present, b.absent + 1)];
      }
      i := i + 1;
    }
    assert rows[..i] == rows;
  }

  /** One entry of `stats`. */
  function StatOf(m: Months.YearMonth, attMap: map<Months.YearMonth, Bucket>): (s: MonthStat)
    ensures s.month == m && s.total == s.present + s.absent && s.rate <= 100
    ensures s.rate == Percent(s.present, s.total)
    ensures m !in attMap ==> s.present == 0 && s.absent == 0 && s.total == 0 && s.rate == 0
  {
    var b := if m in attMap then attMap[m] else Bucket(0, 0);
    MonthStat(m, b.present, b.absent, b.present + b.absent, Percent(b.present, b.present + b.absent))
  }

  /** `stats = months.map(...)`: one entry per requested month, in order. */
  function Stats(months: seq<Months.YearMonth>, attMap: map<Months.YearMonth, Bucket>): (r: seq<MonthStat>)
    ensures |r| == |months|
    ensures forall i :: 0 <= i < |months| ==> r[i] == StatOf(months[i], attMap)
  {
    seq(|months|, i requires 0 <= i < |months| => StatOf(months[i], attMap))
  }

  /** Each month's entry counts exactly that month's present and absent rows;
      a month without rows is all zeros. */
  lemma StatsOfRows(months: seq<Months.YearMonth>, rows: seq<AttRow>, i: nat)
    requires i < |months|
    ensures var s := Stats(months, Buckets(rows))[i];
      && s.month == months[i]
      && s.present == CountIf(rows, PresentIn(months[i]))
      && s.absent == CountIf(rows, AbsentIn(months[i]))
      && s.total == s.present + s.absent
      && s.rate == Percent(s.present, s.total) && s.rate <= 100
      && (CountIf(rows, RowIn(months[i])) == 0 ==> s.total == 0 && s.rate == 0)
  {
    BucketsSpec(rows, months[i]);
  }

  function SumTotal(stats: seq<MonthStat>): nat {
    if stats == [] then 0 else SumTotal(stats[..|stats| - 1]) + stats[|stats| - 1].total
  }

  function SumPresent(stats: seq<MonthStat>): nat {
    if stats == [] then 0 else SumPresent(stats[..|stats| - 1]) + stats[|stats| - 1].present
  }

  predicate Consistent(stats: seq<MonthStat>) {
    forall i :: 0 <= i < |stats| ==> stats[i].present <= stats[i].total
  }

  lemma {:induction false} SumPresentBound(stats: seq<MonthStat>)
    requires Consistent(stats)
    ensures SumPresent(stats) <= SumTotal(stats)
    decreases |stats|
  {
    if stats != [] {
      SumPresentBound(stats[..|stats| - 1]);
    }
  }

  /** `overallRate`: all present rows over all rows of the shown months, rounded. */
  function OverallRate(stats: seq<MonthStat>): (r: nat)
    requires Consistent(stats)
    ensures r <= 100
    ensures SumTotal(stats) == 0 ==> r == 0
    ensures SumTotal(stats) > 0 ==> 2 * SumTotal(stats) * r - SumTotal(stats) <= 200 * SumPresent(stats) < 2 * SumTotal(stats) * r + SumTotal(stats)
  {
    SumPresentBound(stats);
    Percent(SumPresent(stats), SumTotal(stats))
  }

  /** An illustration, not a general law (SumsCountRows and OverallCoversRows
      state the general facts): the overall rate weighs months by their row
      counts. One present day out of one in a month and no present day out of
      three in another give 25%, not the 50% mean of the two monthly rates. */
  lemma OverallRateIsNotMean()
    ensures var a := MonthStat(Months.YearMonth(2026, 1), 1, 0, 1, Percent(1, 1));
      var b := MonthStat(Months.YearMonth(2026, 2), 0, 3, 3, Percent(0, 3));
      OverallRate([a, b]) == 25 && (a.rate + b.rate) / 2 == 50
  {
    var a := MonthStat(Months.YearMonth(2026, 1), 1, 0, 1, Percent(1, 1));
    var b := MonthStat(Months.YearMonth(2026, 2), 0, 3, 3, Percent(0, 3));
    var stats := [a, b];
    assert stats[..1] == [a] && [a][..0] == [];
    assert [a][..0] == [];
    assert SumTotal([a]) == SumTotal([]) + a.total;
    assert SumPresent([a]) == SumPresent([]) + a.present;
    assert SumTotal(stats) == 4 && SumPresent(stats) == 1;
    assert a.rate == 100 && b.rate == 0;
    assert Percent(1, 4) == 25;
  }

  /** Over distinct months that cover all the fetched rows, the sums are the row
      counts: the overall rate is the present share of all the student's rows. */
  lemma {:induction false} SumsCountRows(months: seq<Months.YearMonth>, rows: seq<AttRow>)
    requires forall i, j :: 0 <= i < j < |months| ==> months[i] != months[j]
    ensures SumTotal(Stats(months, Buckets(rows))) == CountIf(rows, InMonths(months))
    ensures SumPresent(Stats(months, Buckets(rows))) == CountIf(rows, PresentInMonths(months))
    decreases |months|
  {
    if months != [] {
      var init := months[..|months| - 1];
      var m := months[|months| - 1];
      var bm := Buckets(rows);
      SumsCountRows(init, rows);
      var st := Stats(months, bm);
      assert st[..|months| - 1] == Stats(init, bm);
      assert st[|months| - 1] == StatOf(m, bm);
      MonthCounts(rows, m);
      assert months == init + [m];
      assert m !in init by {
        forall i | 0 <= i < |init| ensures init[i] != m {
          assert init[i] == months[i];
        }
      }
      MonthsSnoc(rows, init, m);
      assert SumTotal(st) == SumTotal(Stats(init, bm)) + st[|months| - 1].total;
      assert SumPresent(st) == SumPresent(Stats(init, bm)) + st[|months| - 1].present;
    } else {
      CountIfNone(rows, InMonths(months));
      CountIfNone(rows, PresentInMonths(months));
    }
  }

  /** A month's entry totals that month's rows. */
  lemma MonthCounts(rows: seq<AttRow>, m: Months.YearMonth)
    ensures StatOf(m, Buckets(rows)).total == CountIf(rows, RowIn(m))
    ensures StatOf(m, Buckets(rows)).present == CountIf(rows, PresentIn(m))
  {
    BucketsSpec(rows, m);
    CountIfPartition(rows, RowIn(m), PresentIn(m), AbsentIn(m), IsPresentRow);
  }

  /** Adding a new month to the list adds that month's rows to the counts. */
  lemma MonthsSnoc(rows: seq<AttRow>, init: seq<Months.YearMonth>, m: Months.YearMonth)
    requires m !in init
    ensures CountIf(rows, InMonths(init + [m])) == CountIf(rows, InMonths(init)) + CountIf(rows, RowIn(m))
    ensures CountIf(rows, PresentInMonths(init + [m])) == CountIf(rows, PresentInMonths(init)) + CountIf(rows, PresentIn(m))
  {
    CountIfPartition(rows, InMonths(init + [m]), RowIn(m), InMonths(init), RowIn(m));
    CountIfPartition(rows, PresentInMonths(init + [m]), PresentIn(m), PresentInMonths(init), RowIn(m));
  }

  function InMonths(months: seq<Months.YearMonth>): AttRow -> bool {
    (r: AttRow) => r.month in months
  }

  function PresentInMonths(months: seq<Months.YearMonth>): AttRow -> bool {
    (r: AttRow) => r.month in months && r.status == Present
  }

  function RowNotIn(months: seq<Months.YearMonth>): AttRow -> bool {
    (r: AttRow) => r.month !in months
  }

  predicate IsPresentRow(r: AttRow) { r.status == Present }

  /** When every fetched row is of a shown month, the sums cover all rows. */
  lemma OverallCoversRows(months: seq<Months.YearMonth>, rows: seq<AttRow>)
    requires forall i, j :: 0 <= i < j < |months| ==> months[i] != months[j]
    requires forall k :: 0 <= k < |rows| ==> rows[k].month in months
    ensures SumTotal(Stats(months, Buckets(rows))) == |rows|
  {
    SumsCountRows(months, rows);
    CountIfSplit(rows, InMonths(months), RowNotIn(months));
    CountIfNone(rows, RowNotIn(months));
  }

  /** Row `j` is the first row of month `m`, and it is paid. */
  predicate FirstPaidAt(subs: seq<SubRow>, m: Months.YearMonth, j: int) {
    0 <= j < |subs| && subs[j].month == m && subs[j].status == Paid
    && forall k :: 0 <= k < j ==> subs[k].month != m
  }

  /** The subscription badge: `subscriptions.find(s => s.month_year === m)?.status === 'paid'`.
      Paid iff the FIRST row of the month is paid; no row means unpaid. */
  function MonthPaid(subs: seq<SubRow>, m: Months.YearMonth): (paid: bool)
    ensures (forall j :: 0 <= j < |subs| ==> subs[j].month != m) ==> !paid
    ensures paid <==> exists j :: FirstPaidAt(subs, m, j)
  {
    if subs == [] then false
    else if subs[0].month == m then
      assert subs[0].status == Paid ==> FirstPaidAt(subs, m, 0);
      subs[0].status == Paid
    else
      var p := MonthPaid(subs[1..], m);
      MonthPaidShift(subs, m, p);
      p
  }

  lemma MonthPaidShift(subs: seq<SubRow>, m: Months.YearMonth, p: bool)
    requires subs != [] && subs[0].month != m
    requires p <==> exists j :: FirstPaidAt(subs[1..], m, j)
    ensures p <==> exists j :: FirstPaidAt(subs, m, j)
  {
    forall j | FirstPaidAt(subs[1..], m, j) ensures FirstPaidAt(subs, m, j + 1) {
      assert subs[j + 1] == subs[1..][j];
      forall k | 0 <= k < j + 1 ensures subs[k].month != m {
        if k > 0 { assert subs[k] == subs[1..][k - 1]; }
      }
    }
    forall j | FirstPaidAt(subs, m, j) ensures FirstPaidAt(subs[1..], m, j - 1) {
      assert subs[1..][j - 1] == subs[j];
      forall k | 0 <= k < j - 1 ensures subs[1..][k].month != m {
        assert subs[1..][k] == subs[k + 1];
      }
    }
  }
}
