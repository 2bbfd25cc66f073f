/** The calendar helpers: the twelve months of a year relative to the
    current one, the 36 months of last, this and next year, the number of
    days in a month as the `Date` constructor computes it, and the bucket
    of a relative-time label. The current year and the elapsed seconds are
    parameters. */
module DateHelpers {
  import opened Months

  /** `generateMonths(yearOffset)`: January .. December of the current year
      plus the offset. */
  function GenerateMonths(currentYear: int, yearOffset: int): (r: seq<YearMonth>)
    ensures |r| == 12
    ensures forall i :: 0 <= i < 12 ==> r[i] == YearMonth(currentYear + yearOffset, i + 1) && Valid(r[i])
  {
    seq(12, i requires 0 <= i < 12 => YearMonth(currentYear + yearOffset, i + 1))
  }

  /** The `value` fields of `generateMonths(yearOffset)`: the `yyyy-MM` key of
      each of the twelve months, no two alike. */
  function GenerateMonthValues(currentYear: int, yearOffset: int): (r: seq<string>)
    ensures |r| == 12
    ensures forall i :: 0 <= i < 12 ==> r[i] == MonthValue(GenerateMonths(currentYear, yearOffset)[i])
    ensures forall i, j :: 0 <= i < j < 12 ==> r[i] != r[j]
  {
    var months := GenerateMonths(currentYear, yearOffset);
    var r := seq(12, i requires 0 <= i < 12 => MonthValue(months[i]));
    forall i, j | 0 <= i < j < 12 ensures r[i] != r[j] {
      if r[i] == r[j] {
        MonthValueInjective(months[i], months[j]);
      }
    }
    r
  }

  /** `getAllMonths`: last year's, this year's and next year's months. */
  function AllMonths(currentYear: int): (r: seq<YearMonth>)
    ensures |r| == 36
  {
    GenerateMonths(currentYear, -1) + GenerateMonths(currentYear, 0) + GenerateMonths(currentYear, 1)
  }

  /** The 36 months run consecutively from January of last year to December of
      next year, so they are ascending and distinct. */
  lemma AllMonthsConsecutive(currentYear: int, i: nat)
    requires i < 36
    ensures Valid(AllMonths(currentYear)[i])
    ensures AllMonths(currentYear)[i] == AddMonths(YearMonth(currentYear - 1, 1), i)
  {
    var r := AllMonths(currentYear);
    var g := GenerateMonths(currentYear, i / 12 - 1);
    assert r[i] == g[i % 12];
    assert Index(r[i]) == Index(YearMonth(currentYear - 1, 1)) + i;
    IndexInjective(r[i], AddMonths(YearMonth(currentYear - 1, 1), i));
  }

  /** Gregorian leap years, as `Date` counts them (astronomical year numbers). */
  predicate IsLeapYear(y: int) {
    (y % 4 == 0 && y % 100 != 0) || y % 400 == 0
  }

  /** Days of a month 1 .. 12 of a year. */
  function MonthLength(y: int, m: int): (d: int)
    requires 1 <= m <= 12
    ensures m == 2 ==> (d == 29 <==> IsLeapYear(y)) && (d == 28 <==> !IsLeapYear(y))
    ensures m in {4, 6, 9, 11} ==> d == 30
    ensures m in {1, 3, 5, 7, 8, 10, 12} ==> d == 31
    ensures 28 <= d <= 31
  {
    if m == 2 then (if IsLeapYear(y) then 29 else 28)
    else if m == 4 || m == 6 || m == 9 || m == 11 then 30
    else 31
  }

  /** `new Date(year, month, 0).getDate()`: day 0 of the month after `month` is
      the last day of `month`. The constructor reads a year 0 .. 99 as 1900 ..
      1999 and carries a month outside 1 .. 12 into the neighbouring years. */
  function DaysInMonth(year: int, month: int): (d: int)
    ensures 28 <= d <= 31
    ensures !(0 <= year <= 99) && 1 <= month <= 12 ==> d == MonthLength(year, month)
  {
    var y := if 0 <= year <= 99 then 1900 + year else year;
    MonthLength(y + (month - 1) / 12, (month - 1) % 12 + 1)
  }

  /** An illustration, not a general law: a two-digit year is read in the
      1900s, so the year 0 is not a leap year though 2000 is, and 1900 is not. */
  lemma TwoDigitYears()
    ensures DaysInMonth(0, 2) == 28 && DaysInMonth(2000, 2) == 29
    ensures DaysInMonth(1900, 2) == 28 && DaysInMonth(2024, 2) == 29 && DaysInMonth(2025, 2) == 28
  {
  }

  /** Month 13 carries into January of the next year, month 0 back into
      December of the previous one. */
  lemma MonthCarry(year: int)
    requires !(0 <= year <= 99) && !(0 <= year + 1 <= 99) && !(0 <= year - 1 <= 99)
    ensures DaysInMonth(year, 13) == 31 && DaysInMonth(year, 0) == 31
  {
  }

  /** What `formatRelativeTime` shows. */
  datatype Relative = JustNow | MinutesAgo(n: int) | HoursAgo(n: int) | DaysAgo(n: int) | FullDate

  const Minute := 60
  const Hour := 3600
  const Day := 86400
  const Week := 604800

  /** `formatRelativeTime` for `diffSeconds` elapsed seconds (already floored):
      under a minute (including the future) shows "now", then whole minutes,
      hours and days, and from a week on the formatted date. */
  function RelativeTime(diffSeconds: int): (r: Relative)
    ensures r == JustNow <==> diffSeconds < Minute
    ensures r.MinutesAgo? <==> Minute <= diffSeconds < Hour
    ensures r.HoursAgo? <==> Hour <= diffSeconds < Day
    ensures r.DaysAgo? <==> Day <= diffSeconds < Week
    ensures r == FullDate <==> Week <= diffSeconds
    ensures r.MinutesAgo? ==> 1 <= r.n <= 59 && r.n * Minute <= diffSeconds < (r.n + 1) * Minute
    ensures r.HoursAgo? ==> 1 <= r.n <= 23 && r.n * Hour <= diffSeconds < (r.n + 1) * Hour
    ensures r.DaysAgo? ==> 1 <= r.n <= 6 && r.n * Day <= diffSeconds < (r.n + 1) * Day
  {
    if diffSeconds < Minute then JustNow
    else if diffSeconds < Hour then MinutesAgo(diffSeconds / Minute)
    else if diffSeconds < Day then HoursAgo(diffSeconds / Hour)
    else if diffSeconds < Week then DaysAgo(diffSeconds / Day)
    else FullDate
  }

  /** The shown count never decreases as time passes within a bucket kind, and
      the buckets come in the order now, minutes, hours, days, date. */
  lemma RelativeTimeMonotone(a: int, b: int)
    requires a <= b
    ensures Rank(RelativeTime(a)) <= Rank(RelativeTime(b))
    ensures RelativeTime(a).MinutesAgo? && RelativeTime(b).MinutesAgo? ==> RelativeTime(a).n <= RelativeTime(b).n
    ensures RelativeTime(a).HoursAgo? && RelativeTime(b).HoursAgo? ==> RelativeTime(a).n <= RelativeTime(b).n
    ensures RelativeTime(a).DaysAgo? && RelativeTime(b).DaysAgo? ==> RelativeTime(a).n <= RelativeTime(b).n
  {
  }

  function Rank(r: Relative): nat {
    match r
    case JustNow => 0
    case MinutesAgo(_) => 1
    case HoursAgo(_) => 2
    case DaysAgo(_) => 3
    case FullDate => 4
  }

}
