/** Calendar months as `(year, month)` values, their `"YYYY-MM"` keys as the
    pages build them (`year + '-' + String(month + 1).padStart(2, '0')`), and
    the list of the five school years September 2025 .. August 2030 that the
    attendance, subscription and finance pages offer. */
module Months {

  /** A calendar month; `month` is 1-based. */
  datatype YearMonth = YearMonth(year: int, month: int)

  predicate Valid(ym: YearMonth) {
    1 <= ym.month <= 12
  }

  /** Months since January of year 0, the order `Date` comparison gives on day 1. */
  function Index(ym: YearMonth): int {
    ym.year * 12 + (ym.month - 1)
  }

  function FromIndex(i: int): (ym: YearMonth)
    ensures Valid(ym) && Index(ym) == i
  {
    YearMonth(i / 12, i % 12 + 1)
  }

  /** `d.setMonth(d.getMonth() + k)` on the first day of a month. */
  function AddMonths(ym: YearMonth, k: int): (r: YearMonth)
    ensures Valid(r) && Index(r) == Index(ym) + k
  {
    FromIndex(Index(ym) + k)
  }

  /** A valid month is determined by its index. */
  lemma IndexInjective(a: YearMonth, b: YearMonth)
    requires Valid(a) && Valid(b) && Index(a) == Index(b)
    ensures a == b
  {
  }

  function DigitChar(d: nat): (c: char)
    requires d < 10
    ensures '0' <= c <= '9'
  {
    "0123456789"[d]
  }

  /** Decimal digits of a natural number, no leading zeros (`String(n)`). */
  function NatString(n: nat): (s: string)
    ensures |s| >= 1
    ensures forall i :: 0 <= i < |s| ==> '0' <= s[i] <= '9'
    ensures n < 10 ==> |s| == 1
    ensures 10 <= n < 100 ==> |s| == 2
  {
    if n < 10 then [DigitChar(n)] else NatString(n / 10) + [DigitChar(n % 10)]
  }

  /** `String(i)` of an integer. */
  function IntString(i: int): (s: string)
    ensures |s| >= 1
  {
    if i < 0 then "-" + NatString(-i) else NatString(i)
  }

  /** `String(n).padStart(2, '0')`. */
  function Pad2(n: nat): (s: string)
    ensures n < 100 ==> |s| == 2
    ensures forall i :: 0 <= i < |s| ==> '0' <= s[i] <= '9'
  {
    var d := NatString(n);
    if |d| < 2 then "0" + d else d
  }

  /** The `month_year` key of a month, e.g. `"2025-09"`. */
  function MonthValue(ym: YearMonth): (s: string)
    requires Valid(ym)
    ensures |s| >= 4 && s[|s| - 3] == '-'
    ensures '0' <= s[|s| - 2] <= '1' && '0' <= s[|s| - 1] <= '9'
  {
    var p := Pad2(ym.month);
    assert ym.month < 10 ==> p[0] == '0';
    IntString(ym.year) + "-" + p
  }

  /** First month of the offered range: September 2025. */
  const SchoolStart := YearMonth(2025, 9)
  /** Last month of the offered range: August 2030. */
  const SchoolEnd := YearMonth(2030, 8)
  /** Number of months in the offered range (five school years). */
  const SchoolMonthCount := 60

  /** The offered range as a value: entry `i` is `i` months after September 2025.
      An entry's `value` is its `MonthValue`. */
  function SchoolMonths(): (r: seq<YearMonth>)
    ensures |r| == SchoolMonthCount
    ensures forall i :: 0 <= i < |r| ==> r[i] == AddMonths(SchoolStart, i)
  {
    seq(SchoolMonthCount, i => AddMonths(SchoolStart, i))
  }

  /** `generateMonths`: the `while (d <= end)` loop pushing one entry per month and
      stepping with `setMonth(getMonth() + 1)`. */
  method GenerateSchoolMonths() returns (result: seq<YearMonth>)
    ensures result == SchoolMonths()
    ensures result[0] == SchoolStart && result[|result| - 1] == SchoolEnd
  {
    result := [];
    var d := SchoolStart;
    while Index(d) <= Index(SchoolEnd)
      invariant |result| <= SchoolMonthCount
      invariant d == AddMonths(SchoolStart, |result|)
      invariant forall i :: 0 <= i < |result| ==> result[i] == AddMonths(SchoolStart, i)
      decreases SchoolMonthCount - |result|
    {
      result := result + [d];
      d := AddMonths(d, 1);
      IndexInjective(d, AddMonths(SchoolStart, |result|));
    }
    assert |result| == SchoolMonthCount;
    assert forall i :: 0 <= i < |result| ==> result[i] == SchoolMonths()[i];
    FirstAndLast();
  }

  /** The range is ascending and consecutive: each entry is the month after the previous one. */
  lemma SchoolMonthsConsecutive(i: nat)
    requires i + 1 < SchoolMonthCount
    ensures SchoolMonths()[i + 1] == AddMonths(SchoolMonths()[i], 1)
    ensures Index(SchoolMonths()[i]) < Index(SchoolMonths()[i + 1])
  {
    IndexInjective(AddMonths(SchoolStart, i + 1), AddMonths(AddMonths(SchoolStart, i), 1));
  }

  /** The range starts at `2025-09` and ends at `2030-08`, zero-padded. */
  lemma SchoolMonthsEnds()
    ensures SchoolMonths()[0] == SchoolStart && MonthValue(SchoolStart) == "2025-09"
    ensures SchoolMonths()[SchoolMonthCount - 1] == SchoolEnd && MonthValue(SchoolEnd) == "2030-08"
  {
    FirstAndLast();
    StartValue();
    EndValue();
  }

  lemma FirstAndLast()
    ensures SchoolMonths()[0] == SchoolStart && SchoolMonths()[SchoolMonthCount - 1] == SchoolEnd
  {
    assert Index(SchoolStart) == 24308;
    assert 24308 / 12 == 2025 && 24308 % 12 == 8;
    assert 24367 / 12 == 2030 && 24367 % 12 == 7;
  }

  lemma StartValue()
    ensures MonthValue(SchoolStart) == "2025-09"
  {
    assert NatString(2025) == "2025" by {
      assert NatString(2) == "2";
      assert NatString(20) == "20";
      assert NatString(202) == "202";
    }
    assert Pad2(9) == "09";
  }

  lemma EndValue()
    ensures MonthValue(SchoolEnd) == "2030-08"
  {
    assert NatString(2030) == "2030" by {
      assert NatString(2) == "2";
      assert NatString(20) == "20";
      assert NatString(203) == "203";
    }
    assert Pad2(8) == "08";
  }

  /** Decimal digit string to number; leading zeros allowed. */
  function ParseDigits(s: string): (n: nat)
    requires |s| >= 1 && forall i :: 0 <= i < |s| ==> '0' <= s[i] <= '9'
  {
    var d := (s[|s| - 1] as int - '0' as int) as nat;
    if |s| == 1 then d else ParseDigits(s[..|s| - 1]) * 10 + d
  }

  lemma DigitCharValue(d: nat)
    requires d < 10
    ensures (DigitChar(d) as int - '0' as int) == d
  {
  }

  /** Reading back the decimal digits gives the number. */
  lemma {:induction false} ParseNatString(n: nat)
    ensures ParseDigits(NatString(n)) == n
  {
    DigitCharValue(n % 10);
    if n >= 10 {
      var s := NatString(n);
      assert s[..|s| - 1] == NatString(n / 10);
      ParseNatString(n / 10);
    }
  }

  /** Zero padding does not change the value read back. */
  lemma ParsePad2(n: nat)
    ensures ParseDigits(Pad2(n)) == n
  {
    ParseNatString(n);
    var d := NatString(n);
    if |d| < 2 {
      assert Pad2(n) == "0" + d && |d| == 1;
      assert (Pad2(n))[..1] == "0";
    }
  }

  lemma {:induction false} NatStringInjective(a: nat, b: nat)
    requires NatString(a) == NatString(b)
    ensures a == b
  {
    ParseNatString(a);
    ParseNatString(b);
  }

  lemma IntStringInjective(a: int, b: int)
    requires IntString(a) == IntString(b)
    ensures a == b
  {
    var sa, sb := IntString(a), IntString(b);
    assert sa[0] == '-' <==> a < 0;
    assert sb[0] == '-' <==> b < 0;
    if a < 0 && b < 0 {
      assert sa[1..] == NatString(-a) && sb[1..] == NatString(-b);
      NatStringInjective(-a, -b);
    } else if a >= 0 && b >= 0 {
      NatStringInjective(a, b);
    }
  }

  /** Distinct months have distinct keys. */
  lemma MonthValueInjective(a: YearMonth, b: YearMonth)
    requires Valid(a) && Valid(b) && MonthValue(a) == MonthValue(b)
    ensures a == b
  {
    var sa, sb := MonthValue(a), MonthValue(b);
    var ya, yb := IntString(a.year), IntString(b.year);
    assert sa[..|ya|] == ya && sa[|ya| + 1..] == Pad2(a.month);
    assert sb[..|yb|] == yb && sb[|yb| + 1..] == Pad2(b.month);
    assert |ya| == |yb|;
    ParsePad2(a.month);
    ParsePad2(b.month);
    IntStringInjective(a.year, b.year);
  }

  /** No two entries of the school month list share a key. */
  lemma SchoolMonthsDistinct(i: nat, j: nat)
    requires i < SchoolMonthCount && j < SchoolMonthCount
    requires MonthValue(SchoolMonths()[i]) == MonthValue(SchoolMonths()[j])
    ensures i == j
  {
    MonthValueInjective(SchoolMonths()[i], SchoolMonths()[j]);
  }
}
