/** Proleptic Gregorian dates as Python's `datetime.date` handles them:
    years 1 to 9999, `replace(day=…)`, adding and subtracting whole days,
    and the `%Y-%m-%d` text form (the full-date of section 5.6 of RFC 3339). */
module Calendar {
  import opened Wrappers
  import opened Decimal

  datatype Date = Date(year: int, month: int, day: int)

  const MinYear := 1
  const MaxYear := 9999

  predicate IsLeapYear(y: int) {
    y % 4 == 0 && (y % 100 != 0 || y % 400 == 0)
  }

  function DaysInMonth(y: int, m: int): (n: int)
    requires 1 <= m <= 12
    ensures 28 <= n <= 31
    ensures m == 2 ==> (n == 29 <==> IsLeapYear(y))
    ensures m != 2 ==> n >= 30
  {
    if m == 2 then (if IsLeapYear(y) then 29 else 28)
    else if m == 4 || m == 6 || m == 9 || m == 11 then 30
    else 31
  }

  function DaysInYear(y: int): int {
    if IsLeapYear(y) then 366 else 365
  }

  /** A date Python's `date` constructor accepts. */
  predicate Valid(d: Date) {
    MinYear <= d.year <= MaxYear && 1 <= d.month <= 12 && 1 <= d.day <= DaysInMonth(d.year, d.month)
  }

  /** Independent reference, Python's own closed forms: the days of year
      `y` before the first of month `m`, and the days before the first of
      January of year `y`. */
  function DaysBeforeMonth(y: int, m: int): nat
    requires 1 <= m <= 12
  {
    [0, 31, 59, 90, 120, 151, 181, 212, 243, 273, 304, 334][m - 1]
      + (if m > 2 && IsLeapYear(y) then 1 else 0)
  }

  function DaysBeforeYear(y: int): int
    requires y >= MinYear
  {
    var p := y - 1;
    p * 365 + p / 4 - p / 100 + p / 400
  }

  /** `date.toordinal()`: day 1 is 0001-01-01. */
  function Ordinal(d: Date): int
    requires Valid(d)
  {
    DaysBeforeYear(d.year) + DaysBeforeMonth(d.year, d.month) + d.day
  }

  /** `d.replace(day=day)` for a day the month has (the bot uses 1 and 28). */
  function ReplaceDay(d: Date, day: int): (r: Date)
    requires Valid(d) && 1 <= day <= DaysInMonth(d.year, d.month)
    ensures Valid(r) && r.year == d.year && r.month == d.month && r.day == day
  {
    d.(day := day)
  }

  /** `d + timedelta(days=1)`; `None` is the `OverflowError` past 9999-12-31. */
  function NextDay(d: Date): (r: Option<Date>)
    requires Valid(d)
    ensures r.None? <==> d == Date(MaxYear, 12, 31)
    ensures r.Some? ==> Valid(r.value)
  {
    if d.day < DaysInMonth(d.year, d.month) then Some(d.(day := d.day + 1))
    else if d.month < 12 then Some(Date(d.year, d.month + 1, 1))
    else if d.year < MaxYear then Some(Date(d.year + 1, 1, 1))
    else None
  }

  /** `d - timedelta(days=1)`; `None` is the `OverflowError` before 0001-01-01. */
  function PrevDay(d: Date): (r: Option<Date>)
    requires Valid(d)
    ensures r.None? <==> d == Date(MinYear, 1, 1)
    ensures r.Some? ==> Valid(r.value)
  {
    if d.day > 1 then Some(d.(day := d.day - 1))
    else if d.month > 1 then Some(Date(d.year, d.month - 1, DaysInMonth(d.year, d.month - 1)))
    else if d.year > MinYear then Some(Date(d.year - 1, 12, 31))
    else None
  }

  /** `d + timedelta(days=n)`. */
  function AddDays(d: Date, n: nat): (r: Option<Date>)
    requires Valid(d)
    ensures r.Some? ==> Valid(r.value)
    decreases n
  {
    if n == 0 then Some(d)
    else match NextDay(d)
      case None => None
      case Some(e) => AddDays(e, n - 1)
  }

  /** `d - timedelta(days=n)`. */
  function SubDays(d: Date, n: nat): (r: Option<Date>)
    requires Valid(d)
    ensures r.Some? ==> Valid(r.value)
    decreases n
  {
    if n == 0 then Some(d)
    else match PrevDay(d)
      case None => None
      case Some(e) => SubDays(e, n - 1)
  }

  /** Counting multiples of the Gregorian cycle lengths 4, 100 and 400. */
  lemma DivStep(p: nat, k: int)
    requires k == 4 || k == 100 || k == 400
    ensures (p + 1) / k == p / k + (if (p + 1) % k == 0 then 1 else 0)
  {
    if k == 4 {
    } else if k == 100 {
    } else {
    }
  }

  /** The leap years among years 1 to `p`. */
  function LeapYearsThrough(p: nat): int {
    p / 4 - p / 100 + p / 400
  }

  /** Every fourth century year is a century year, and every century year
      is a fourth year. */
  lemma DivisibilityChain(y: nat)
    ensures y % 400 == 0 ==> y % 100 == 0
    ensures y % 100 == 0 ==> y % 4 == 0
  {
    if y % 400 == 0 {
      var k := y / 400;
      assert y == 100 * (4 * k);
    }
    if y % 100 == 0 {
      var k := y / 100;
      assert y == 4 * (25 * k);
    }
  }

  lemma LeapYearsStep(p: nat)
    ensures LeapYearsThrough(p + 1) == LeapYearsThrough(p) + (if IsLeapYear(p + 1) then 1 else 0)
  {
    DivStep(p, 4);
    DivStep(p, 100);
    DivStep(p, 400);
    DivisibilityChain(p + 1);
  }

  /** A year's days: the closed form grows by the length of the year. */
  lemma DaysBeforeNextYear(y: int)
    requires y >= MinYear
    ensures DaysBeforeYear(y + 1) == DaysBeforeYear(y) + DaysInYear(y)
  {
    LeapYearsStep(y - 1);
    assert DaysBeforeYear(y) == (y - 1) * 365 + LeapYearsThrough(y - 1);
    assert DaysBeforeYear(y + 1) == y * 365 + LeapYearsThrough(y);
  }

  /** The day steps agree with Python's ordinal arithmetic. */
  lemma NextDayOrdinal(d: Date)
    requires Valid(d) && NextDay(d).Some?
    ensures Ordinal(NextDay(d).value) == Ordinal(d) + 1
  {
    if d.day == DaysInMonth(d.year, d.month) && d.month == 12 {
      DaysBeforeNextYear(d.year);
    }
  }

  lemma {:induction false} AddDaysOrdinal(d: Date, n: nat)
    requires Valid(d) && AddDays(d, n).Some?
    ensures Ordinal(AddDays(d, n).value) == Ordinal(d) + n
    decreases n
  {
    if n > 0 {
      var e := NextDay(d).value;
      NextDayOrdinal(d);
      AddDaysOrdinal(e, n - 1);
    }
  }

  /** Stepping back undoes stepping forward. */
  lemma PrevDayUndoesNextDay(d: Date)
    requires Valid(d) && NextDay(d).Some?
    ensures PrevDay(NextDay(d).value) == Some(d)
  {
  }

  /** The first day of the month after `d`'s, if Python can represent it. */
  function FirstOfNextMonth(d: Date): (r: Option<Date>)
    requires Valid(d)
    ensures r.Some? ==> Valid(r.value) && r.value.day == 1
  {
    if d.month < 12 then Some(Date(d.year, d.month + 1, 1))
    else if d.year < MaxYear then Some(Date(d.year + 1, 1, 1))
    else None
  }

  /** The current-month window of `handle_estrenos_callback`: the first
      day of the month, and `(today.replace(day=28) + 4 days).replace(day=1)
      - 1 day`. `None` is the `OverflowError` of December 9999. */
  function CurrentMonthRange(today: Date): (r: Option<(Date, Date)>)
    requires Valid(today)
    ensures r.Some? ==> r.value.0 == Date(today.year, today.month, 1) && Valid(r.value.1)
  {
    var first := ReplaceDay(today, 1);
    match AddDays(ReplaceDay(today, 28), 4)
    case None => None
    case Some(later) =>
      match SubDays(ReplaceDay(later, 1), 1)
      case None => None
      case Some(last) => Some((first, last))
  }

  /** Day 28 plus four days always lands in the next month, so setting
      its day to 1 gives the first of the next month, the year rolling
      over after December. */
  lemma NextMonthFromDay28(today: Date)
    requires Valid(today)
    ensures FirstOfNextMonth(today).None? <==> AddDays(ReplaceDay(today, 28), 4).None?
    ensures FirstOfNextMonth(today).Some? ==>
      ReplaceDay(AddDays(ReplaceDay(today, 28), 4).value, 1) == FirstOfNextMonth(today).value
  {
    var d28 := ReplaceDay(today, 28);
    var e1 := NextDay(d28).value;
    var e2 := NextDay(e1).value;
    var e3 := NextDay(e2).value;
    assert AddDays(d28, 4) == AddDays(e1, 3) == AddDays(e2, 2) == AddDays(e3, 1);
    if NextDay(e3).Some? {
      assert AddDays(e3, 1) == AddDays(NextDay(e3).value, 0);
    }
  }

  /** The window runs from the first to the last day of today's month
      (daysInMonth under the Gregorian leap rule); only December 9999
      overflows. */
  lemma CurrentMonthRangeIsWholeMonth(today: Date)
    requires Valid(today)
    ensures CurrentMonthRange(today).None? <==> today.year == MaxYear && today.month == 12
    ensures CurrentMonthRange(today).Some? ==>
      CurrentMonthRange(today).value
        == (Date(today.year, today.month, 1), Date(today.year, today.month, DaysInMonth(today.year, today.month)))
  {
    NextMonthFromDay28(today);
  }

  /** A leap February: 2024-02-15 gives 2024-02-01 to 2024-02-29. */
  lemma LeapFebruaryExample()
    ensures CurrentMonthRange(Date(2024, 2, 15)) == Some((Date(2024, 2, 1), Date(2024, 2, 29)))
  {
    CurrentMonthRangeIsWholeMonth(Date(2024, 2, 15));
  }

  /** `d.strftime('%Y-%m-%d')`. */
  function FormatDate(d: Date): (s: string)
    requires Valid(d)
    ensures |s| == 10 && s[4] == '-' && s[7] == '-'
  {
    assert Pow10(4) == 10000 && Pow10(2) == 100;
    PadDigits(d.year, 4) + "-" + PadDigits(d.month, 2) + "-" + PadDigits(d.day, 2)
  }

  /** Partner of `FormatDate`: reads a full-date `YYYY-MM-DD`. */
  function ParseDate(s: string): (r: Option<Date>)
    ensures r.Some? ==> Valid(r.value)
  {
    if |s| == 10 && s[4] == '-' && s[7] == '-'
       && AllDigits(s[..4]) && AllDigits(s[5..7]) && AllDigits(s[8..])
    then
      var d := Date(DigitsToNat(s[..4]), DigitsToNat(s[5..7]), DigitsToNat(s[8..]));
      if Valid(d) then Some(d) else None
    else None
  }

  lemma FormatDateParts(d: Date)
    requires Valid(d)
    ensures Pow10(4) == 10000 && Pow10(2) == 100
    ensures FormatDate(d)[..4] == PadDigits(d.year, 4)
    ensures FormatDate(d)[5..7] == PadDigits(d.month, 2)
    ensures FormatDate(d)[8..] == PadDigits(d.day, 2)
  {
  }

  /** A ten-character text is its three fields and the two separators. */
  lemma SplitFullDate(s: string)
    requires |s| == 10 && s[4] == '-' && s[7] == '-'
    ensures s == s[..4] + "-" + s[5..7] + "-" + s[8..]
  {
  }

  /** Reading a written date gives the date back. */
  lemma ParseFormatDate(d: Date)
    requires Valid(d)
    ensures ParseDate(FormatDate(d)) == Some(d)
  {
    FormatDateParts(d);
    PadDigitsValue(d.year, 4);
    PadDigitsValue(d.month, 2);
    PadDigitsValue(d.day, 2);
  }

  /** Writing a read date gives the text back: the two are inverse on
      well-formed full-dates. */
  lemma FormatParseDate(s: string)
    requires ParseDate(s).Some?
    ensures FormatDate(ParseDate(s).value) == s
  {
    var d := ParseDate(s).value;
    DigitsToNatPadded(s[..4]);
    DigitsToNatPadded(s[5..7]);
    DigitsToNatPadded(s[8..]);
    FormatDateParts(d);
    SplitFullDate(s);
    SplitFullDate(FormatDate(d));
  }
}
