/**
 * The part of JavaScript's Date that the payment report relies on, on integers:
 * instants are milliseconds since 1970-01-01T00:00:00Z, calendar dates are
 * proleptic Gregorian in UTC, and a month is a year and a month of the year.
 */
module Calendar {
  import opened Wrappers
  import PaymentSchema

  /** 1000 * 60 * 60 * 24 milliseconds. */
  const MsPerDay: int := 86_400_000

  type MonthOfYear = m: int | 1 <= m <= 12 witness 1
  type DayOfMonth = d: int | 1 <= d <= 31 witness 1

  /** A date such as a rental's move_in column, read at UTC midnight. */
  datatype CalendarDate = CalendarDate(year: int, month: MonthOfYear, day: DayOfMonth)

  /** A calendar month. */
  datatype YearMonth = YearMonth(year: int, month: MonthOfYear)

  /** Months counted from January of year 0; it orders months chronologically. */
  function Index(ym: YearMonth): int {
    12 * ym.year + ym.month - 1
  }

  /** The following month, rolling December over into January of the next year. */
  function Next(ym: YearMonth): (r: YearMonth)
    ensures Index(r) == Index(ym) + 1
    ensures Prev(r) == ym
  {
    if ym.month == 12 then YearMonth(ym.year + 1, 1) else YearMonth(ym.year, ym.month + 1)
  }

  /** The preceding month. */
  function Prev(ym: YearMonth): (r: YearMonth)
    ensures Index(r) == Index(ym) - 1
  {
    if ym.month == 1 then YearMonth(ym.year - 1, 12) else YearMonth(ym.year, ym.month - 1)
  }

  function MonthOfDate(d: CalendarDate): YearMonth {
    YearMonth(d.year, d.month)
  }

  /** Distinct months have distinct indices. */
  lemma IndexInjective(a: YearMonth, b: YearMonth)
    requires Index(a) == Index(b)
    ensures a == b
  {
  }

  predicate IsLeapYear(y: int) {
    y % 4 == 0 && (y % 100 != 0 || y % 400 == 0)
  }

  function YearLength(y: int): int {
    if IsLeapYear(y) then 366 else 365
  }

  /** Days from 1970-01-01 to January 1 of year y (negative before 1970). */
  function YearStart(y: int): int
    decreases if y < 1970 then 1970 - y else y - 1970
  {
    if y == 1970 then 0
    else if y > 1970 then YearStart(y - 1) + YearLength(y - 1)
    else YearStart(y + 1) - YearLength(y)
  }

  lemma YearStartStep(y: int)
    ensures YearStart(y + 1) == YearStart(y) + YearLength(y)
  {
  }

  function DaysInMonth(year: int, month: MonthOfYear): int {
    if month == 2 then (if IsLeapYear(year) then 29 else 28)
    else if month == 4 || month == 6 || month == 9 || month == 11 then 30
    else 31
  }

  /** Days of the year before the first of the month. */
  function DaysBeforeMonth(year: int, month: MonthOfYear): int {
    var common :=
      if month == 1 then 0 else if month == 2 then 31 else if month == 3 then 59
      else if month == 4 then 90 else if month == 5 then 120 else if month == 6 then 151
      else if month == 7 then 181 else if month == 8 then 212 else if month == 9 then 243
      else if month == 10 then 273 else if month == 11 then 304 else 334;
    common + (if month > 2 && IsLeapYear(year) then 1 else 0)
  }

  /**
   * Days since 1970-01-01 of the given year, month and day. The day enters
   * linearly, so a day past the end of the month counts on into the next one.
   */
  function DayNumber(year: int, month: MonthOfYear, day: int): int {
    YearStart(year) + DaysBeforeMonth(year, month) + day - 1
  }

  /** The day number of the given day of a month. */
  function DayAt(ym: YearMonth, day: int): int {
    DayNumber(ym.year, ym.month, day)
  }

  /** The instant of UTC midnight of a date. */
  function MidnightOf(d: CalendarDate): (t: int)
    ensures t % MsPerDay == 0
  {
    DayNumber(d.year, d.month, d.day) * MsPerDay
  }

  /** Moving to the same day of the next month adds exactly the length of this month. */
  lemma NextMonth(ym: YearMonth, day: int)
    ensures DayAt(Next(ym), day) == DayAt(ym, day) + DaysInMonth(ym.year, ym.month)
  {
    if ym.month == 12 {
      YearStartStep(ym.year);
    }
  }

  lemma DaysInMonthBounds(year: int, month: MonthOfYear)
    ensures 28 <= DaysInMonth(year, month) <= 31
  {
  }

  /** Same-day dates of later months are at least 28 days per month later. */
  lemma {:induction false} DayAtMonotone(a: YearMonth, b: YearMonth, day: int)
    requires Index(a) <= Index(b)
    ensures DayAt(a, day) + 28 * (Index(b) - Index(a)) <= DayAt(b, day)
    decreases Index(b) - Index(a)
  {
    if Index(a) < Index(b) {
      DayAtMonotone(Next(a), b, day);
      NextMonth(a, day);
      DaysInMonthBounds(a.year, a.month);
    } else {
      IndexInjective(a, b);
    }
  }

  // ---- text forms ----

  function DigitChar(n: int): char
    requires 0 <= n <= 9
  {
    (48 + n) as char
  }

  function DigitValue(c: char): int {
    c as int - 48
  }

  /** The four low decimal digits of n, most significant first. */
  function Digits4(n: nat): (s: string)
    ensures |s| == 4 && forall i :: 0 <= i < 4 ==> PaymentSchema.IsDigit(s[i])
  {
    [DigitChar(n / 1000 % 10), DigitChar(n / 100 % 10), DigitChar(n / 10 % 10), DigitChar(n % 10)]
  }

  /** The two low decimal digits of n. */
  function Digits2(n: nat): (s: string)
    ensures |s| == 2 && PaymentSchema.IsDigit(s[0]) && PaymentSchema.IsDigit(s[1])
  {
    [DigitChar(n / 10 % 10), DigitChar(n % 10)]
  }

  function Abs(n: int): nat {
    if n < 0 then -n else n
  }

  /**
   * The first seven characters of toISOString() for a date in month m: "YYYY-MM"
   * for years 0 to 9999, and the extended form "+YYYYYY" or "-YYYYYY" (sign and
   * six year digits, no month) for other years.
   */
  function MonthText(ym: YearMonth): (s: string)
    ensures |s| == 7
    ensures 0 <= ym.year <= 9999 <==> PaymentSchema.IsForMonthText(s)
  {
    var y := ym.year;
    if 0 <= y <= 9999 then Digits4(y) + "-" + Digits2(ym.month)
    else (if y < 0 then "-" else "+") + Digits2(Abs(y) / 10000) + Digits4(Abs(y))
  }

  /** The number written by four digit characters. */
  function Number4(a: char, b: char, c: char, d: char): int {
    1000 * DigitValue(a) + 100 * DigitValue(b) + 10 * DigitValue(c) + DigitValue(d)
  }

  /**
   * `new Date(s)` for a value of the for_month shape, as a month: the month
   * named when its digits are 01 to 12, an invalid date otherwise. Other texts,
   * which JavaScript may still read as dates ("2024", "2024-01-15"), are also
   * taken as invalid here.
   */
  function ParseMonthText(s: string): (r: Option<YearMonth>)
    ensures r.Some? ==> PaymentSchema.IsForMonthText(s) && 0 <= r.value.year <= 9999
    ensures PaymentSchema.IsForMonthText(s) ==> (r.Some? <==> (s[5] == '0' && s[6] != '0') || (s[5] == '1' && s[6] <= '2'))
  {
    if PaymentSchema.IsForMonthText(s) then
      var y := Number4(s[0], s[1], s[2], s[3]);
      var mo := 10 * DigitValue(s[5]) + DigitValue(s[6]);
      if 1 <= mo <= 12 then Some(YearMonth(y, mo)) else None
    else None
  }

  lemma DigitsOfFour(n: nat)
    requires n <= 9999
    ensures var s := Digits4(n); Number4(s[0], s[1], s[2], s[3]) == n
  {
    var a, b, c, d := n / 1000 % 10, n / 100 % 10, n / 10 % 10, n % 10;
    assert n / 1000 == a;
    assert n / 100 == 10 * a + b;
    assert n / 10 == 100 * a + 10 * b + c;
  }

  lemma DigitsOfTwo(n: nat)
    requires n <= 99
    ensures var s := Digits2(n); 10 * DigitValue(s[0]) + DigitValue(s[1]) == n
  {
  }

  lemma DivModTen(k: int, r: int)
    requires 0 <= r <= 9
    ensures (10 * k + r) / 10 == k && (10 * k + r) % 10 == r
  {
  }

  /** Two digit characters are the digits of the number they write. */
  lemma TwoOfDigits(a: char, b: char)
    requires PaymentSchema.IsDigit(a) && PaymentSchema.IsDigit(b)
    ensures Digits2(10 * DigitValue(a) + DigitValue(b)) == [a, b]
  {
    DivModTen(DigitValue(a), DigitValue(b));
    assert DigitChar(DigitValue(a)) == a && DigitChar(DigitValue(b)) == b;
  }

  /** Four digit characters are the digits of the number they write. */
  lemma FourOfDigits(a: char, b: char, c: char, d: char)
    requires PaymentSchema.IsDigit(a) && PaymentSchema.IsDigit(b)
    requires PaymentSchema.IsDigit(c) && PaymentSchema.IsDigit(d)
    ensures Digits4(Number4(a, b, c, d)) == [a, b, c, d]
  {
    var n := Number4(a, b, c, d);
    var va, vb, vc, vd := DigitValue(a), DigitValue(b), DigitValue(c), DigitValue(d);
    DivModTen(100 * va + 10 * vb + vc, vd);
    DivModTen(10 * va + vb, vc);
    DivModTen(va, vb);
    assert n / 10 == 100 * va + 10 * vb + vc;
    assert n / 100 == (n / 10) / 10;
    assert n / 1000 == (n / 100) / 10;
    assert DigitChar(va) == a && DigitChar(vb) == b && DigitChar(vc) == c && DigitChar(vd) == d;
  }

  /** The text of a month with a four-digit year is a valid for_month value naming that month. */
  lemma MonthTextParses(ym: YearMonth)
    requires 0 <= ym.year <= 9999
    ensures PaymentSchema.IsForMonthText(MonthText(ym))
    ensures ParseMonthText(MonthText(ym)) == Some(ym)
  {
    var s := MonthText(ym);
    assert s == Digits4(ym.year) + "-" + Digits2(ym.month);
    DigitsOfFour(ym.year);
    DigitsOfTwo(ym.month);
  }

  /** Parsing a for_month value and printing the month gives back the value. */
  lemma ParseMonthTextInverse(s: string)
    requires ParseMonthText(s).Some?
    ensures MonthText(ParseMonthText(s).value) == s
  {
    var ym := ParseMonthText(s).value;
    FourOfDigits(s[0], s[1], s[2], s[3]);
    TwoOfDigits(s[5], s[6]);
    var t := Digits4(ym.year) + "-" + Digits2(ym.month);
    assert MonthText(ym) == t;
    assert t == [s[0], s[1], s[2], s[3]] + "-" + [s[5], s[6]];
    assert t == s;
  }

  /**
   * For a value that passed the form's format check, "the month's text equals
   * the value" is the same as "the value parses to that month". So a value with
   * month 00 or 13 equals the text of no month at all.
   */
  lemma MonthTextMatch(s: string, ym: YearMonth)
    requires PaymentSchema.IsForMonthText(s)
    ensures MonthText(ym) == s <==> ParseMonthText(s) == Some(ym)
  {
    if ParseMonthText(s) == Some(ym) {
      ParseMonthTextInverse(s);
    }
    if MonthText(ym) == s && 0 <= ym.year <= 9999 {
      MonthTextParses(ym);
    }
  }
}
