/** Billing months: from a day count to the text "YYYY-MM" and back one month. */
module Calendar {
  import opened Primitives

  predicate IsLeapYear(year: nat) {
    (year % 4 == 0 && year % 100 != 0) || year % 400 == 0
  }

  function YearLength(year: nat): nat {
    if IsLeapYear(year) then 366 else 365
  }

  function MonthLength(year: nat, month: nat): nat {
    if month == 2 then if IsLeapYear(year) then 29 else 28
    else if month == 4 || month == 6 || month == 9 || month == 11 then 30
    else 31
  }

  // Leap years among the years 1 .. year - 1, by the Gregorian rule in closed form.
  function LeapYearsBefore(year: nat): int
    requires year >= 1
  {
    (year - 1) / 4 - (year - 1) / 100 + (year - 1) / 400
  }

  // Days from 1 January 1970 to 1 January of `year`.
  function YearStart(year: nat): int
    requires year >= 1
  {
    365 * (year - 1970) + LeapYearsBefore(year) - LeapYearsBefore(1970)
  }

  // Days of `year` before the first of `month`; month 13 is the whole year.
  function MonthStart(year: nat, month: nat): (days: nat)
    requires 1 <= month <= 13
  {
    if month == 1 then 0 else MonthStart(year, month - 1) + MonthLength(year, month - 1)
  }

  // Counting multiples of 4, of 100 and of 400 up to `n`.
  lemma QuotientSteps(n: nat)
    requires n >= 1
    ensures n / 4 - (n - 1) / 4 == if n % 4 == 0 then 1 else 0
    ensures n / 100 - (n - 1) / 100 == if n % 100 == 0 then 1 else 0
    ensures n / 400 - (n - 1) / 400 == if n % 400 == 0 then 1 else 0
  {
  }

  lemma Divisibility(n: nat)
    ensures n % 400 == 0 ==> n % 100 == 0
    ensures n % 100 == 0 ==> n % 4 == 0
  {
    if n % 400 == 0 {
      assert n == 100 * (4 * (n / 400));
    }
    if n % 100 == 0 {
      assert n == 4 * (25 * (n / 100));
    }
  }

  lemma LeapYearsStep(year: nat)
    requires year >= 1
    ensures LeapYearsBefore(year + 1) - LeapYearsBefore(year) == if IsLeapYear(year) then 1 else 0
  {
    QuotientSteps(year);
    Divisibility(year);
  }

  lemma YearStartStep(year: nat)
    requires year >= 1
    ensures YearStart(year + 1) == YearStart(year) + YearLength(year)
  {
    LeapYearsStep(year);
  }

  lemma MonthsFillYear(year: nat)
    ensures MonthStart(year, 13) == YearLength(year)
  {
    assert MonthStart(year, 2) == 31;
    assert MonthStart(year, 3) == 31 + MonthLength(year, 2);
    assert MonthStart(year, 5) == MonthStart(year, 3) + 61;
    assert MonthStart(year, 7) == MonthStart(year, 5) + 61;
    assert MonthStart(year, 9) == MonthStart(year, 7) + 62;
    assert MonthStart(year, 11) == MonthStart(year, 9) + 61;
    assert MonthStart(year, 13) == MonthStart(year, 11) + 61;
  }

  method GetCurrentYear(daysSinceEpoch: nat) returns (year: nat, daysSinceYearStart: nat)
    ensures year >= 1970 && daysSinceYearStart < YearLength(year)
    ensures YearStart(year) + daysSinceYearStart == daysSinceEpoch
  {
    year, daysSinceYearStart := 1970, daysSinceEpoch;
    while daysSinceYearStart >= YearLength(year)
      invariant year >= 1970 && YearStart(year) + daysSinceYearStart == daysSinceEpoch
      decreases daysSinceYearStart
    {
      YearStartStep(year);
      daysSinceYearStart := daysSinceYearStart - YearLength(year);
      year := year + 1;
    }
  }

  // Month 13 is returned when the day lies outside the year.
  method GetCurrentMonth(year: nat, daysSinceYearStart: nat) returns (month: nat)
    ensures 1 <= month <= 13 && (month == 13 <==> daysSinceYearStart >= YearLength(year))
    ensures MonthStart(year, month) <= daysSinceYearStart
    ensures month <= 12 ==> daysSinceYearStart < MonthStart(year, month + 1)
  {
    var daysInMonth := [31, if IsLeapYear(year) then 29 else 28, 31, 30, 31, 30, 31, 31, 30, 31, 30, 31];
    assert forall m :: 1 <= m <= 12 ==> daysInMonth[m - 1] == MonthLength(year, m);
    var rest := daysSinceYearStart;
    month := 1;
    MonthsFillYear(year);
    while month <= 12 && rest >= daysInMonth[month - 1]
      invariant 1 <= month <= 13 && MonthStart(year, month) + rest == daysSinceYearStart
    {
      rest := rest - daysInMonth[month - 1];
      month := month + 1;
    }
    if month <= 12 {
      MonthStartMonotone(year, month + 1, 13);
    }
  }

  lemma {:induction false} MonthStartMonotone(year: nat, a: nat, b: nat)
    requires 1 <= a <= b <= 13
    ensures MonthStart(year, a) <= MonthStart(year, b)
    ensures a < b ==> MonthStart(year, a) < MonthStart(year, b)
    decreases b
  {
    if a < b {
      MonthStartMonotone(year, a, b - 1);
    }
  }

  // Day `day` falls in `month` of `year`.
  ghost predicate InMonth(day: int, year: nat, month: nat) {
    && year >= 1 && 1 <= month <= 12
    && YearStart(year) + MonthStart(year, month) <= day < YearStart(year) + MonthStart(year, month + 1)
  }

  lemma {:induction false} YearStartMonotone(a: nat, b: nat)
    requires 1 <= a <= b
    ensures YearStart(a) <= YearStart(b)
    decreases b
  {
    if a < b {
      YearStartMonotone(a, b - 1);
      YearStartStep(b - 1);
    }
  }

  lemma YearIsUnique(day: int, y1: nat, m1: nat, y2: nat, m2: nat)
    requires InMonth(day, y1, m1) && InMonth(day, y2, m2)
    ensures y1 >= y2
  {
    if y1 < y2 {
      YearStartMonotone(y1 + 1, y2);
      YearStartStep(y1);
      MonthsFillYear(y1);
      MonthStartMonotone(y1, m1 + 1, 13);
    }
  }

  // A day has one year and one month.
  lemma MonthIsUnique(day: int, y1: nat, m1: nat, y2: nat, m2: nat)
    requires InMonth(day, y1, m1) && InMonth(day, y2, m2)
    ensures y1 == y2 && m1 == m2
  {
    YearIsUnique(day, y1, m1, y2, m2);
    YearIsUnique(day, y2, m2, y1, m1);
    if m1 < m2 {
      MonthStartMonotone(y1, m1 + 1, m2);
    } else if m2 < m1 {
      MonthStartMonotone(y1, m2 + 1, m1);
    }
  }

  function NextMonth(year: nat, month: nat): (nat, nat) {
    if month == 12 then (year + 1, 1) else (year, month + 1)
  }

  // The day after a day is in the same month or in the next one.
  lemma NextDay(day: int, y1: nat, m1: nat, y2: nat, m2: nat)
    requires InMonth(day, y1, m1) && InMonth(day + 1, y2, m2)
    ensures (y2, m2) == (y1, m1) || (y2, m2) == NextMonth(y1, m1)
  {
    if InMonth(day + 1, y1, m1) {
      MonthIsUnique(day + 1, y1, m1, y2, m2);
    } else {
      var (y, m) := NextMonth(y1, m1);
      YearStartStep(y1);
      MonthsFillYear(y1);
      assert MonthStart(y, m) + YearStart(y) == day + 1;
      MonthStartMonotone(y, m, m + 1);
      MonthIsUnique(day + 1, y, m, y2, m2);
    }
  }
}

/** The text form of a billing month. */
module BillingMonths {
  import opened Primitives
  import opened Calendar

  predicate IsDigit(c: char) {
    '0' <= c <= '9'
  }

  function Decimal(n: nat): (s: string)
    ensures |s| >= 1 && forall i :: 0 <= i < |s| ==> IsDigit(s[i])
  {
    if n < 10 then [('0' as int + n) as char] else Decimal(n / 10) + [('0' as int + n % 10) as char]
  }

  // `{:04}` and `{:02}`: zeros in front, up to a minimal width.
  function Pad(s: string, width: nat): (r: string)
    ensures (forall i :: 0 <= i < |s| ==> IsDigit(s[i])) ==> forall i :: 0 <= i < |r| ==> IsDigit(r[i])
    ensures |r| == if |s| >= width then |s| else width
    decreases width - |s|
  {
    if |s| >= width then s else Pad("0" + s, width)
  }

  function Format(year: nat, month: nat): string {
    Pad(Decimal(year), 4) + "-" + Pad(Decimal(month), 2)
  }

  function DigitValue(c: char): nat
    requires IsDigit(c)
  {
    c as int - '0' as int
  }

  function Value(s: string): nat
    requires forall i :: 0 <= i < |s| ==> IsDigit(s[i])
  {
    if s == [] then 0 else 10 * Value(s[..|s| - 1]) + DigitValue(s[|s| - 1])
  }

  // `str::parse::<u32>`: an optional plus sign, then digits, with no overflow.
  function ParseU32(s: string): Option<nat> {
    var digits := if |s| > 0 && s[0] == '+' then s[1..] else s;
    if digits != [] && (forall i :: 0 <= i < |digits| ==> IsDigit(digits[i])) && Value(digits) <= U32_MAX
    then Some(Value(digits)) else None
  }

  // The pieces of `split('-')`: the text up to the first dash, and the text after it if there is one.
  function BeforeDash(s: string): string {
    if s == [] || s[0] == '-' then [] else [s[0]] + BeforeDash(s[1..])
  }

  function AfterDash(s: string): Option<string> {
    if s == [] then None else if s[0] == '-' then Some(s[1..]) else AfterDash(s[1..])
  }

  // `BillingMonth::try_new`.
  predicate IsBillingMonth(s: string) {
    && |s| == 7
    && |BeforeDash(s)| == 4
    && AfterDash(s).Some? && AfterDash(AfterDash(s).value).None? && |AfterDash(s).value| == 2
    && (forall i :: 0 <= i < 4 ==> IsDigit(BeforeDash(s)[i]))
    && (forall i :: 0 <= i < 2 ==> IsDigit(AfterDash(s).value[i]))
    && 1 <= Value(AfterDash(s).value) <= 12
  }

  function ParsedOrZero(s: Option<string>): nat {
    if s.Some? && ParseU32(s.value).Some? then ParseU32(s.value).value else 0
  }

  // None where the source's unsigned subtraction underflows.
  function PreviousBillingMonth(s: string): Option<string> {
    var year := ParsedOrZero(Some(BeforeDash(s)));
    var month := ParsedOrZero(if AfterDash(s).Some? then Some(BeforeDash(AfterDash(s).value)) else None);
    if month == 1 then if year == 0 then None else Some(Format(year - 1, 12))
    else if month == 0 then None
    else Some(Format(year, month - 1))
  }

  lemma {:induction false} DecimalValue(n: nat)
    ensures Value(Decimal(n)) == n
  {
    if n < 10 {
      assert Decimal(n)[..0] == [];
    } else {
      DecimalValue(n / 10);
      assert Decimal(n)[..|Decimal(n)| - 1] == Decimal(n / 10);
    }
  }

  lemma {:induction false} LeadingZero(s: string)
    requires forall i :: 0 <= i < |s| ==> IsDigit(s[i])
    ensures Value("0" + s) == Value(s)
  {
    if s == [] {
      assert "0" + s == "0" && "0"[..0] == [];
    } else {
      LeadingZero(s[..|s| - 1]);
      assert ("0" + s)[..|s|] == "0" + s[..|s| - 1];
    }
  }

  lemma {:induction false} PadValue(s: string, width: nat)
    requires forall i :: 0 <= i < |s| ==> IsDigit(s[i])
    ensures Value(Pad(s, width)) == Value(s)
    decreases width - |s|
  {
    if |s| < width {
      LeadingZero(s);
      PadValue("0" + s, width);
    }
  }

  lemma {:induction false} SplitAtDash(a: string, b: string)
    requires forall i :: 0 <= i < |a| ==> IsDigit(a[i])
    ensures BeforeDash(a + "-" + b) == a && AfterDash(a + "-" + b) == Some(b)
  {
    if a == [] {
      assert a + "-" + b == "-" + b;
    } else {
      SplitAtDash(a[1..], b);
      assert (a + "-" + b)[1..] == a[1..] + "-" + b;
    }
  }

  lemma {:induction false} NoDash(a: string)
    requires forall i :: 0 <= i < |a| ==> IsDigit(a[i])
    ensures BeforeDash(a) == a && AfterDash(a) == None
  {
    if a != [] {
      NoDash(a[1..]);
    }
  }

  lemma PaddedParses(n: nat, width: nat)
    ensures ParseU32(Pad(Decimal(n), width)) == if n <= U32_MAX then Some(n) else None
  {
    DecimalValue(n);
    PadValue(Decimal(n), width);
    assert |Pad(Decimal(n), width)| >= 1 && IsDigit(Pad(Decimal(n), width)[0]);
  }

  // Reading a formatted month back: the month always survives, the year when it fits 32 bits.
  lemma FormatParses(year: nat, month: nat)
    requires 1 <= month <= 12
    ensures var s := Format(year, month);
            && ParsedOrZero(Some(BeforeDash(s))) == (if year <= U32_MAX then year else 0)
            && AfterDash(s).Some? && ParsedOrZero(Some(BeforeDash(AfterDash(s).value))) == month
  {
    SplitAtDash(Pad(Decimal(year), 4), Pad(Decimal(month), 2));
    NoDash(Pad(Decimal(month), 2));
    PaddedParses(year, 4);
    PaddedParses(month, 2);
    hide Decimal, Pad, ParseU32;
  }

  lemma FormatInjective(y1: nat, m1: nat, y2: nat, m2: nat)
    requires Format(y1, m1) == Format(y2, m2)
    ensures y1 == y2 && m1 == m2
  {
    SplitAtDash(Pad(Decimal(y1), 4), Pad(Decimal(m1), 2));
    SplitAtDash(Pad(Decimal(y2), 4), Pad(Decimal(m2), 2));
    DecimalValue(y1);
    DecimalValue(y2);
    DecimalValue(m1);
    DecimalValue(m2);
    PadValue(Decimal(y1), 4);
    PadValue(Decimal(y2), 4);
    PadValue(Decimal(m1), 2);
    PadValue(Decimal(m2), 2);
  }

  // Going back one month in text undoes going forward one month, exactly when the year fits the
  // 32-bit parser.
  lemma PreviousUndoesNext(year: nat, month: nat)
    requires 1 <= month <= 12
    ensures var (y, m) := NextMonth(year, month);
            PreviousBillingMonth(Format(y, m)) == Some(Format(year, month)) <==> y <= U32_MAX
  {
    var (y, m) := NextMonth(year, month);
    FormatParses(y, m);
    if y > U32_MAX && m != 1 && Format(0, m - 1) == Format(year, month) {
      FormatInjective(0, m - 1, year, month);
    }
  }

  // Months numbered from January of year 0, and their text.
  function MonthText(k: nat): string {
    Format(k / 12, k % 12 + 1)
  }

  // Month numbers and their texts correspond, and the text's predecessor is the number's.
  lemma MonthNumbersAndTexts(k: nat, j: nat)
    requires k >= 1
    ensures MonthText(k) == MonthText(j) <==> k == j
    ensures PreviousBillingMonth(MonthText(k)) == Some(MonthText(k - 1)) <==> k / 12 <= U32_MAX
  {
    hide Format, PreviousBillingMonth;
    if MonthText(k) == MonthText(j) {
      FormatInjective(k / 12, k % 12 + 1, j / 12, j % 12 + 1);
      SameQuotientAndRemainder(k, j);
    }
    NextOfNumber(k);
    PreviousUndoesNext((k - 1) / 12, (k - 1) % 12 + 1);
  }

  lemma SameQuotientAndRemainder(k: nat, j: nat)
    requires k / 12 == j / 12 && k % 12 == j % 12
    ensures k == j
  {
    assert k == 12 * (k / 12) + k % 12 && j == 12 * (j / 12) + j % 12;
  }

  lemma NextOfNumber(k: nat)
    requires k >= 1
    ensures NextMonth((k - 1) / 12, (k - 1) % 12 + 1) == (k / 12, k % 12 + 1)
  {
  }

  // Consecutive days share their billing month, or the later month's text leads back to the earlier's.
  lemma ConsecutiveDays(day: int, y1: nat, m1: nat, y2: nat, m2: nat)
    requires InMonth(day, y1, m1) && InMonth(day + 1, y2, m2)
    ensures Format(y2, m2) == Format(y1, m1)
            || (y2 <= U32_MAX <==> PreviousBillingMonth(Format(y2, m2)) == Some(Format(y1, m1)))
  {
    NextDay(day, y1, m1, y2, m2);
    if (y2, m2) != (y1, m1) {
      PreviousUndoesNext(y1, m1);
    }
  }

  lemma {:induction false} DecimalLength(n: nat, k: nat, bound: nat)
    requires k >= 1 && bound == PowerOfTen(k)
    ensures n < bound <==> |Decimal(n)| <= k
    decreases k
  {
    if k > 1 {
      DecimalLength(n / 10, k - 1, PowerOfTen(k - 1));
    }
  }

  function PowerOfTen(k: nat): nat {
    if k == 0 then 1 else 10 * PowerOfTen(k - 1)
  }

  // The text is accepted as a billing month exactly for years of at most four digits.
  lemma FormatIsBillingMonth(year: nat, month: nat)
    requires 1 <= month <= 12
    ensures IsBillingMonth(Format(year, month)) <==> year <= 9999
  {
    var y, m := Pad(Decimal(year), 4), Pad(Decimal(month), 2);
    SplitAtDash(y, m);
    NoDash(m);
    DecimalValue(month);
    PadValue(Decimal(month), 2);
    assert PowerOfTen(1) == 10 && PowerOfTen(2) == 100 && PowerOfTen(3) == 1000 && PowerOfTen(4) == 10000;
    DecimalLength(year, 4, 10000);
    DecimalLength(month, 2, 100);
  }

  method GetCurrentBillingMonth(nowNanos: nat) returns (s: string, ghost year: nat, ghost month: nat)
    requires nowNanos <= U64_MAX
    ensures InMonth(nowNanos / 1_000_000_000 / 86_400, year, month) && s == Format(year, month)
    ensures year <= 2554 && IsBillingMonth(s)
  {
    var daysSinceEpoch := nowNanos / 1_000_000_000 / 86_400;
    assert daysSinceEpoch <= 213_503;
    var y, daysSinceYearStart := GetCurrentYear(daysSinceEpoch);
    var m := GetCurrentMonth(y, daysSinceYearStart);
    s, year, month := Format(y, m), y, m;
    if year > 2554 {
      YearStartMonotone(2555, year);
      assert false;
    }
    FormatIsBillingMonth(year, month);
  }
}
