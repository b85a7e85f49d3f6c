/** The calendar arithmetic the app borrows from JavaScript's `Date`:
    proleptic Gregorian days counted from 1970-01-01 (a Thursday), the
    `new Date(y, monthIndex, day)` constructor with its overflow rules,
    `getDay()`, the month grid of `getDaysInMonth` and the `YYYY-MM-DD`
    keys of `getFormattedDate` together with the prefixes the totals filter
    on. Time of day and time zones are not modelled: a date is a whole day. */
module Calendar {
  import opened Common
  import opened Text

  /** A calendar date as `getFullYear()`, `getMonth() + 1`, `getDate()` report it. */
  datatype Date = Date(year: int, month: int, day: int)

  predicate IsLeapYear(y: int) {
    (y % 4 == 0 && y % 100 != 0) || y % 400 == 0
  }

  function DaysInMonth(y: int, m: int): (n: int)
    requires 1 <= m <= 12
    ensures 28 <= n <= 31
    ensures m == 2 ==> (n == 29 <==> IsLeapYear(y))
  {
    if m == 2 then (if IsLeapYear(y) then 29 else 28)
    else if m == 4 || m == 6 || m == 9 || m == 11 then 30
    else 31
  }

  predicate ValidDate(d: Date) {
    1 <= d.month <= 12 && 1 <= d.day <= DaysInMonth(d.year, d.month)
  }

  /** Days in the months of year `y` before month `m`. */
  function DaysBeforeMonth(y: int, m: int): int
    requires 1 <= m <= 12
  {
    [0, 31, 59, 90, 120, 151, 181, 212, 243, 273, 304, 334][m - 1]
      + (if m > 2 && IsLeapYear(y) then 1 else 0)
  }

  /** Leap years in [1, y - 1], counted with floor division (negative below year 1). */
  function LeapYearsBefore(y: int): int {
    (y - 1) / 4 - (y - 1) / 100 + (y - 1) / 400
  }

  /** Days from 1970-01-01 to January 1st of year `y`. */
  function DaysBeforeYear(y: int): int {
    365 * (y - 1970) + LeapYearsBefore(y) - LeapYearsBefore(1970)
  }

  /** `MakeFullYear`: a year argument from 0 to 99 means 1900 to 1999. */
  function JsYear(y: int): int {
    if 0 <= y <= 99 then 1900 + y else y
  }

  /** The day `new Date(y, monthIndex, day)` stands for: the month index
      overflows into the year and the day overflows into following or
      preceding months. */
  function JsDateDay(y: int, monthIndex: int, day: int): (n: int)
    ensures 0 <= monthIndex < 12 && ValidDate(Date(JsYear(y), monthIndex + 1, day)) ==>
      n == DayOf(Date(JsYear(y), monthIndex + 1, day))
  {
    var year := JsYear(y) + monthIndex / 12;
    DaysBeforeYear(year) + DaysBeforeMonth(year, monthIndex % 12 + 1) + day - 1
  }

  /** `getDay()`: 0 is Sunday; day 0 (1970-01-01) was a Thursday. */
  function WeekdayOfDay(n: int): (w: int)
    ensures 0 <= w < 7
  {
    (n + 4) % 7
  }

  /** Length of the month `new Date(y, monthIndex, 1)` falls in. */
  function DaysInMonthAt(y: int, monthIndex: int): (n: int)
    ensures 28 <= n <= 31
  {
    DaysInMonth(JsYear(y) + monthIndex / 12, monthIndex % 12 + 1)
  }

  /** `k / 4`, `k / 100` and `k / 400` step up by one exactly when `k`
      reaches a multiple. */
  lemma DivSteps(k: int)
    ensures (k + 1) / 4 - k / 4 == if (k + 1) % 4 == 0 then 1 else 0
    ensures (k + 1) / 100 - k / 100 == if (k + 1) % 100 == 0 then 1 else 0
    ensures (k + 1) / 400 - k / 400 == if (k + 1) % 400 == 0 then 1 else 0
  {
  }

  lemma DivisibleBy400(y: int)
    requires y % 400 == 0
    ensures y % 100 == 0 && y % 4 == 0
  {
    var q := y / 400;
    assert y == 100 * (4 * q) && y == 4 * (100 * q);
  }

  lemma DivisibleBy100(y: int)
    requires y % 100 == 0
    ensures y % 4 == 0
  {
    var q := y / 100;
    assert y == 4 * (25 * q);
  }

  /** A year has 366 days exactly when it is a leap year. */
  lemma YearLength(y: int)
    ensures DaysBeforeYear(y + 1) - DaysBeforeYear(y) == if IsLeapYear(y) then 366 else 365
  {
    DivSteps(y - 1);
    if y % 400 == 0 { DivisibleBy400(y); }
    if y % 100 == 0 { DivisibleBy100(y); }
  }

  /** The month table agrees with the month lengths. */
  lemma DaysBeforeNextMonth(y: int, m: int)
    requires 1 <= m <= 11
    ensures DaysBeforeMonth(y, m + 1) == DaysBeforeMonth(y, m) + DaysInMonth(y, m)
  {
  }

  /** `new Date(y, monthIndex + 1, 0)` is the last day of month `monthIndex`:
      the trick `getDaysInMonth` uses to read the month's length. */
  lemma LastDayOfMonth(y: int, monthIndex: int)
    ensures JsDateDay(y, monthIndex + 1, 0) == JsDateDay(y, monthIndex, DaysInMonthAt(y, monthIndex))
  {
    var year := JsYear(y) + monthIndex / 12;
    if monthIndex % 12 == 11 {
      assert (monthIndex + 1) / 12 == monthIndex / 12 + 1 && (monthIndex + 1) % 12 == 0;
      YearLength(year);
    } else {
      assert (monthIndex + 1) / 12 == monthIndex / 12 && (monthIndex + 1) % 12 == monthIndex % 12 + 1;
      DaysBeforeNextMonth(year, monthIndex % 12 + 1);
    }
  }

  /** `getDaysInMonth(year, month)`: the calendar grid of one month, with
      `getDay()` of the 1st leading blanks (None) and then every day of the
      month in order. */
  method GetDaysInMonth(year: int, month: int) returns (days: seq<Option<Date>>)
    requires 0 <= month <= 11
    ensures |days| == WeekdayOfDay(JsDateDay(year, month, 1)) + DaysInMonthAt(year, month)
    ensures forall i :: 0 <= i < WeekdayOfDay(JsDateDay(year, month, 1)) ==> days[i] == None
    ensures forall i :: WeekdayOfDay(JsDateDay(year, month, 1)) <= i < |days| ==>
      days[i] == Some(Date(JsYear(year), month + 1, i - WeekdayOfDay(JsDateDay(year, month, 1)) + 1))
    ensures forall i :: 0 <= i < |days| && days[i].Some? ==> ValidDate(days[i].value)
  {
    var lead := WeekdayOfDay(JsDateDay(year, month, 1));
    var last := DaysInMonthAt(year, month);
    assert month / 12 == 0 && month % 12 == month;
    assert last == DaysInMonth(JsYear(year), month + 1);
    days := [];
    for i := 0 to lead
      invariant |days| == i
      invariant forall j :: 0 <= j < i ==> days[j] == None
    {
      days := days + [None];
    }
    for i := 1 to last + 1
      invariant |days| == lead + i - 1
      invariant forall j :: 0 <= j < lead ==> days[j] == None
      invariant forall j :: lead <= j < |days| ==> days[j] == Some(Date(JsYear(year), month + 1, j - lead + 1))
    {
      days := days + [Some(Date(JsYear(year), month + 1, i))];
    }
  }

  /** The day number of a valid calendar date. */
  function DayOf(d: Date): int
    requires ValidDate(d)
  {
    DaysBeforeYear(d.year) + DaysBeforeMonth(d.year, d.month) + d.day - 1
  }

  /** Rebuilding a date from its parts with `new Date(y, m - 1, d)` finds the
      same day, for years from 100 on (below that the 1900 rule applies). */
  lemma JsDateOfParts(d: Date)
    requires ValidDate(d) && (d.year < 0 || d.year >= 100)
    ensures JsDateDay(d.year, d.month - 1, d.day) == DayOf(d)
  {
  }

  /** `getFormattedDate(date)`: `YYYY-MM-DD`. */
  function FormatDate(d: Date): string
    requires ValidDate(d)
  {
    IntToString(d.year) + "-" + TwoDigits(d.month) + "-" + TwoDigits(d.day)
  }

  /** `${getFullYear()}-`: the key prefix of one calendar year. */
  function YearPrefix(year: int): (p: string)
    ensures |p| == |IntToString(year)| + 1 && p[..|p| - 1] == IntToString(year) && p[|p| - 1] == '-'
  {
    IntToString(year) + "-"
  }

  /** `${getFullYear()}-${pad(getMonth() + 1)}`: the key prefix of one month. */
  function MonthPrefix(year: int, month: int): (p: string)
    requires 1 <= month <= 12
    ensures YearPrefix(year) <= p && |p| == |YearPrefix(year)| + 2
  {
    TwoDigitsLength(month);
    IntToString(year) + "-" + TwoDigits(month)
  }

  /** A date's key starts with its own month's and its own year's prefix,
      so both totals count it. */
  lemma FormatDateHasOwnPrefixes(d: Date)
    requires ValidDate(d)
    ensures MonthPrefix(d.year, d.month) <= FormatDate(d) && YearPrefix(d.year) <= FormatDate(d)
  {
    assert FormatDate(d) == MonthPrefix(d.year, d.month) + ("-" + TwoDigits(d.day));
  }

  /** Every key of a month also carries that month's year prefix. */
  lemma MonthPrefixExtendsYearPrefix(key: string, year: int, month: int)
    requires 1 <= month <= 12
    requires MonthPrefix(year, month) <= key
    ensures YearPrefix(year) <= key
  {
    assert YearPrefix(year) <= MonthPrefix(year, month);
  }

  /** The end of a leading digit run is where the first non-digit stands. */
  lemma DigitRunEnd(t: string, i: nat, j: nat)
    requires i < |t| && AllDigits(t[..i]) && !IsDigit(t[i])
    requires j < |t| && AllDigits(t[..j]) && !IsDigit(t[j])
    ensures i == j
  {
  }

  /** Two digit runs, each ended by a `-`, agree when one ended run is a
      prefix of the other text. */
  lemma DigitRunsAgree(a: string, b: string, x: string, y: string)
    requires AllDigits(a) && AllDigits(b)
    requires a + "-" + x <= b + "-" + y
    ensures a == b
  {
    var s, t := a + "-" + x, b + "-" + y;
    assert t[..|a|] == s[..|a|] == a;
    assert t[|a|] == s[|a|] == '-';
    assert t[..|b|] == b && t[|b|] == '-';
    DigitRunEnd(t, |a|, |b|);
  }

  lemma TwoDigitsInjective(a: nat, b: nat)
    requires TwoDigits(a) == TwoDigits(b)
    ensures a == b
  {
    TwoDigitsRoundTrip(a);
    TwoDigitsRoundTrip(b);
  }

  lemma FormatDateShape(d: Date)
    requires ValidDate(d) && d.year >= 0
    ensures FormatDate(d) == NatToString(d.year) + "-" + (TwoDigits(d.month) + "-" + TwoDigits(d.day))
  {
  }

  /** A key names a date in calendar year `year` exactly when it starts with
      that year's prefix. */
  lemma YearPrefixMatchesExactly(d: Date, year: int)
    requires ValidDate(d) && d.year >= 0 && year >= 0
    ensures YearPrefix(year) <= FormatDate(d) <==> d.year == year
  {
    if YearPrefix(year) <= FormatDate(d) {
      FormatDateShape(d);
      assert YearPrefix(year) == NatToString(year) + "-" + [];
      DigitRunsAgree(NatToString(year), NatToString(d.year), [], TwoDigits(d.month) + "-" + TwoDigits(d.day));
      NatToStringInjective(year, d.year);
    }
  }

  /** A key names a date in month `month` of `year` exactly when it starts
      with that month's prefix: the monthly filter selects precisely the
      shifts of the displayed month. */
  lemma MonthPrefixMatchesExactly(d: Date, year: int, month: int)
    requires ValidDate(d) && d.year >= 0 && year >= 0 && 1 <= month <= 12
    ensures MonthPrefix(year, month) <= FormatDate(d) <==> d.year == year && d.month == month
  {
    var key, p := FormatDate(d), MonthPrefix(year, month);
    if p <= key {
      var rest := TwoDigits(d.month) + "-" + TwoDigits(d.day);
      FormatDateShape(d);
      assert p == NatToString(year) + "-" + TwoDigits(month);
      DigitRunsAgree(NatToString(year), NatToString(d.year), TwoDigits(month), rest);
      NatToStringInjective(year, d.year);
      TwoDigitsLength(month);
      TwoDigitsLength(d.month);
      MonthDigitsAgree(NatToString(year) + "-", TwoDigits(month), TwoDigits(d.month), key);
      TwoDigitsInjective(month, d.month);
    }
  }

  lemma MonthDigitsAgree(head: string, m1: string, m2: string, key: string)
    requires |m1| == 2 && |m2| == 2
    requires head + m1 <= key && head + m2 <= key
    ensures m1 == m2
  {
    assert m1 == (head + m1)[|head|..] == key[|head|..|head| + 2];
    assert m2 == (head + m2)[|head|..] == key[|head|..|head| + 2];
  }

  /** `key.split('-').map(Number)` on a key written by `getFormattedDate`
      gives back year, month and day. */
  lemma FormatDateSplit(d: Date)
    requires ValidDate(d) && d.year >= 0
    ensures Split(FormatDate(d), '-') == [NatToString(d.year), TwoDigits(d.month), TwoDigits(d.day)]
    ensures NumberOf(NatToString(d.year)) == Some(d.year)
    ensures NumberOf(TwoDigits(d.month)) == Some(d.month)
    ensures NumberOf(TwoDigits(d.day)) == Some(d.day)
  {
    var parts := [NatToString(d.year), TwoDigits(d.month), TwoDigits(d.day)];
    DigitsHaveNoSeparator(parts[0], '-');
    DigitsHaveNoSeparator(parts[1], '-');
    DigitsHaveNoSeparator(parts[2], '-');
    JoinThree(parts[0], parts[1], parts[2], '-');
    assert Join(parts, '-') == FormatDate(d);
    SplitJoin(parts, '-');
    NatToStringRoundTrip(d.year);
    TwoDigitsRoundTrip(d.month);
    TwoDigitsRoundTrip(d.day);
  }
}
