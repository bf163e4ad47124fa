/** Local dates and times as the forms take them (`parse_hhmm`,
    `parse_local_datetime` and `Schedule::validate` in `hub/src/model.rs`). */
module Calendar {
  import opened Wrappers
  import opened Text
  import opened Splitting
  import opened Decimals
  import Words

  const U32: nat := 0x1_0000_0000
  const I32: nat := 0x8000_0000

  /** Year, month, day, hour and minute. */
  datatype DateTime = DateTime(year: nat, month: nat, day: nat, hour: nat, minute: nat)

  // ----- The source ----------------------------------------------------------

  /** `parse_hhmm`. */
  function ParseTime(text: string): Option<(nat, nat)> {
    match SplitOnce(Trim(text), ':')
    case None => None
    case Some((h, m)) =>
      match (ParseUnsigned(h, U32), ParseUnsigned(m, U32))
      case (Some(hour), Some(minute)) =>
        if hour < 24 && minute < 60 && |Trim(text)| == 5 then Some((hour, minute)) else None
      case _ => None
  }

  /** `split_once(['T', ' '])`. */
  function SplitAtTime(text: string): Option<(string, string)> {
    match (Position(text, 'T'), Position(text, ' '))
    case (None, None) => None
    case (Some(i), None) => Some((text[..i], text[i + 1..]))
    case (None, Some(j)) => Some((text[..j], text[j + 1..]))
    case (Some(i), Some(j)) =>
      var k := if i < j then i else j;
      Some((text[..k], text[k + 1..]))
  }

  predicate IsLeap(y: nat) {
    (y % 4 == 0 && y % 100 != 0) || y % 400 == 0
  }

  /** The days of a month; none for what isn't one. */
  function DaysIn(y: nat, month: nat): nat {
    if month == 2 then if IsLeap(y) then 29 else 28
    else if month == 4 || month == 6 || month == 9 || month == 11 then 30
    else if 1 <= month <= 12 then 31
    else 0
  }

  lemma EveryMonthHasDays(y: nat, month: nat)
    ensures 1 <= DaysIn(y, month) <==> 1 <= month <= 12
  {
  }

  function FromNumbers(y: nat, month: nat, day: nat, time: (nat, nat)): Option<DateTime> {
    if 2000 <= y <= 2999 && 1 <= day <= DaysIn(y, month) then Some(DateTime(y, month, day, time.0, time.1)) else None
  }

  /** `parse_local_datetime`. What follows a third dash-separated part isn't looked
      at, and each number may have a plus before it. */
  function Parse(text: string): Option<DateTime> {
    match SplitAtTime(Trim(text))
    case None => None
    case Some((date, time)) =>
      var parts := Split(date, '-');
      if |parts| < 3 then None
      else
        var (year, month, day) :=
          (ParseUnsigned(parts[0], I32), ParseUnsigned(parts[1], U32), ParseUnsigned(parts[2], U32));
        match (year, month, day, ParseTime(time))
        case (Some(y), Some(month), Some(day), Some(at)) => FromNumbers(y, month, day, at)
        case _ => None
  }

  /** A minute of the calendar, from 2000 on. */
  predicate IsDateTime(t: DateTime) {
    t.year >= 2000 && 1 <= t.month <= 12 && 1 <= t.day <= DaysIn(t.year, t.month) && t.hour < 24 && t.minute < 60
  }

  /** The order of the tuples. */
  predicate Before(s: DateTime, e: DateTime) {
    || s.year < e.year
    || (s.year == e.year && s.month < e.month)
    || (s.year == e.year && s.month == e.month && s.day < e.day)
    || (s.year == e.year && s.month == e.month && s.day == e.day && s.hour < e.hour)
    || (s.year == e.year && s.month == e.month && s.day == e.day && s.hour == e.hour && s.minute < e.minute)
  }

  datatype OnceError = NoStart(text: string) | NoEnd(text: string) | NotAfter

  /** `Schedule::validate` of `Once`: refused when the end isn't after the start. */
  function ValidateOnce(start: string, end: string): Result<(), OnceError> {
    match Parse(start)
    case None => Err(NoStart(start))
    case Some(s) =>
      match Parse(end)
      case None => Err(NoEnd(end))
      case Some(e) => if Before(e, s) || e == s then Err(NotAfter) else Ok(())
  }

  // ----- Elapsed time --------------------------------------------------------

  /** The date and time one minute later, by the clock and the Gregorian
      calendar. */
  function Tick(t: DateTime): DateTime {
    if t.minute < 59 then t.(minute := t.minute + 1)
    else if t.hour < 23 then t.(hour := t.hour + 1, minute := 0)
    else if t.day < DaysIn(t.year, t.month) then DateTime(t.year, t.month, t.day + 1, 0, 0)
    else if t.month < 12 then DateTime(t.year, t.month + 1, 1, 0, 0)
    else DateTime(t.year + 1, 1, 1, 0, 0)
  }

  /** The clock `n` minutes later. */
  function Later(t: DateTime, n: nat): DateTime {
    if n == 0 then t else Tick(Later(t, n - 1))
  }

  function DaysOfYear(y: nat): nat {
    if IsLeap(y) then 366 else 365
  }

  /** The days from 2000 to the start of year `y`. */
  function DaysToYear(y: nat): nat
    requires y >= 2000
  {
    if y == 2000 then 0 else DaysToYear(y - 1) + DaysOfYear(y - 1)
  }

  /** The days of the year before month `month`. */
  function DaysToMonth(y: nat, month: nat): nat
    requires 1 <= month
  {
    if month == 1 then 0 else DaysToMonth(y, month - 1) + DaysIn(y, month - 1)
  }

  /** The minutes from 2000-01-01 00:00. */
  function Minutes(t: DateTime): nat
    requires t.year >= 2000 && t.month >= 1 && t.day >= 1
  {
    ((DaysToYear(t.year) + DaysToMonth(t.year, t.month) + t.day - 1) * 24 + t.hour) * 60 + t.minute
  }

  lemma MonthStep(y: nat, month: nat)
    requires 1 <= month
    ensures DaysToMonth(y, month + 1) == DaysToMonth(y, month) + DaysIn(y, month)
  {
  }

  lemma QuarterSteps(y: nat, month: nat)
    requires 1 <= month
    ensures DaysToMonth(y, month + 3)
         == DaysToMonth(y, month) + DaysIn(y, month) + DaysIn(y, month + 1) + DaysIn(y, month + 2)
  {
    hide DaysIn, DaysToMonth;
    MonthStep(y, month);
    MonthStep(y, month + 1);
    MonthStep(y, month + 2);
  }

  lemma WholeYear(y: nat)
    ensures DaysToMonth(y, 13) == DaysOfYear(y)
  {
    assert DaysToMonth(y, 1) == 0;
    hide DaysToMonth;
    QuarterSteps(y, 1);
    QuarterSteps(y, 4);
    QuarterSteps(y, 7);
    QuarterSteps(y, 10);
  }

  lemma {:induction false} MonthsGrow(y: nat, a: nat, b: nat)
    requires 1 <= a < b
    ensures DaysToMonth(y, a) + DaysIn(y, a) <= DaysToMonth(y, b)
  {
    if a + 1 < b {
      MonthsGrow(y, a, b - 1);
    }
  }

  lemma {:induction false} YearsGrow(a: nat, b: nat)
    requires 2000 <= a < b
    ensures DaysToYear(a) + DaysOfYear(a) <= DaysToYear(b)
  {
    if a + 1 < b {
      YearsGrow(a, b - 1);
    }
  }

  /** The count goes up by one with every tick of the clock. */
  lemma TickCounts(t: DateTime)
    requires IsDateTime(t)
    ensures IsDateTime(Tick(t)) && Minutes(Tick(t)) == Minutes(t) + 1
  {
    WholeYear(t.year);
    EveryMonthHasDays(t.year, t.month + 1);
    EveryMonthHasDays(t.year + 1, 1);
    hide DaysIn, DaysOfYear;
  }

  lemma {:induction false} LaterCounts(t: DateTime, n: nat)
    requires IsDateTime(t)
    ensures IsDateTime(Later(t, n)) && Minutes(Later(t, n)) == Minutes(t) + n
  {
    hide Minutes, Tick;
    if n > 0 {
      LaterCounts(t, n - 1);
      TickCounts(Later(t, n - 1));
    }
  }

  /** The order of the tuples is the order of the counted minutes. */
  lemma BeforeIsEarlier(s: DateTime, e: DateTime)
    requires IsDateTime(s) && IsDateTime(e)
    ensures Before(s, e) <==> Minutes(s) < Minutes(e)
    ensures s == e <==> Minutes(s) == Minutes(e)
  {
    if Before(s, e) {
      Earlier(s, e);
    } else if Before(e, s) {
      Earlier(e, s);
    }
  }

  lemma Earlier(s: DateTime, e: DateTime)
    requires IsDateTime(s) && IsDateTime(e) && Before(s, e)
    ensures Minutes(s) < Minutes(e)
  {
    DayOfYear(s);
    if s.year < e.year {
      YearsGrow(s.year, e.year);
    } else if s.month < e.month {
      MonthsGrow(s.year, s.month, e.month);
    }
    hide DaysIn, DaysToMonth, DaysToYear, DaysOfYear;
  }

  /** A day of a year is within it. */
  lemma DayOfYear(t: DateTime)
    requires IsDateTime(t)
    ensures DaysToMonth(t.year, t.month) + t.day <= DaysOfYear(t.year)
  {
    WholeYear(t.year);
    MonthsGrow(t.year, t.month, 13);
    hide DaysToMonth, DaysOfYear;
  }

  lemma ParsedIsDateTime(text: string)
    ensures Parse(text).Some? ==> IsDateTime(Parse(text).value) && Parse(text).value.year <= 2999
  {
    hide Trim, Split, ParseUnsigned, SplitAtTime;
  }

  /** `e` comes `n` minutes after `s`. */
  ghost predicate Elapsed(s: DateTime, e: DateTime, n: nat) {
    e == Later(s, n)
  }

  /** Two date-times are some minutes apart, one way or the other. */
  lemma LaterBy(s: DateTime, e: DateTime)
    requires IsDateTime(s) && IsDateTime(e) && Minutes(s) <= Minutes(e)
    ensures Elapsed(s, e, Minutes(e) - Minutes(s))
  {
    LaterCounts(s, Minutes(e) - Minutes(s));
    BeforeIsEarlier(Later(s, Minutes(e) - Minutes(s)), e);
  }

  /** A window set once is accepted exactly when both texts are dates and times
      and it has a length: the clock, started at its start, shows its end some
      minutes later. */
  lemma OnceHasLength(start: string, end: string)
    ensures
      ValidateOnce(start, end).Ok? <==>
      && Parse(start).Some? && Parse(end).Some?
      && exists n: nat :: n > 0 && Elapsed(Parse(start).value, Parse(end).value, n)
  {
    ParsedIsDateTime(start);
    ParsedIsDateTime(end);
    hide Parse;
    if Parse(start).Some? && Parse(end).Some? {
      var s, e := Parse(start).value, Parse(end).value;
      BeforeIsEarlier(s, e);
      BeforeIsEarlier(e, s);
      if Minutes(s) < Minutes(e) {
        LaterBy(s, e);
      }
      if n: nat :| n > 0 && Elapsed(s, e, n) {
        LaterCounts(s, n);
      }
    }
  }

  // ----- Every minute can be written -----------------------------------------

  function TwoDigits(n: nat): string
    requires n < 100
  {
    [DigitChar(n / 10), DigitChar(n % 10)]
  }

  function ShowTime(t: DateTime): string
    requires IsDateTime(t)
  {
    TwoDigits(t.hour) + ":" + TwoDigits(t.minute)
  }

  function ShowDate(t: DateTime): string
    requires IsDateTime(t)
  {
    Decimal(t.year) + "-" + TwoDigits(t.month) + "-" + TwoDigits(t.day)
  }

  lemma TwoDigitsParse(n: nat)
    requires n < 100
    ensures ParseUnsigned(TwoDigits(n), U32) == Some(n)
    ensures forall c: char :: !IsDigit(c) ==> c !in TwoDigits(n)
  {
    var text := TwoDigits(n);
    assert text[..1][..0] == "" && text[..1][0] == text[0];
    assert NumberOf(text[..1]) == n / 10;
  }

  lemma DigitIsNoSpace(c: char)
    requires IsDigit(c)
    ensures !IsWhitespace(c)
  {
  }

  lemma TimeParses(t: DateTime)
    requires IsDateTime(t)
    ensures ParseTime(ShowTime(t)) == Some((t.hour, t.minute))
  {
    var text, h, m := ShowTime(t), TwoDigits(t.hour), TwoDigits(t.minute);
    TwoDigitsParse(t.hour);
    TwoDigitsParse(t.minute);
    assert text == h + [':'] + m;
    DigitIsNoSpace(text[0]);
    DigitIsNoSpace(text[4]);
    TrimPlain(text);
    hide Trim, ParseUnsigned;
    SplitOnceAt(h, ':', m);
  }

  lemma ThreeParts(y: string, m: string, d: string)
    requires '-' !in y && '-' !in m && '-' !in d
    ensures Split(y + "-" + m + "-" + d, '-') == [y, m, d]
  {
    hide Split;
    assert y + "-" + m + "-" + d == y + ['-'] + (m + ['-'] + d);
    SplitAt(y, '-', m + ['-'] + d);
    SplitAt(m, '-', d);
    SplitNone(d, '-');
  }

  lemma DateSplits(t: DateTime)
    requires IsDateTime(t)
    ensures t.day <= 31
    ensures Split(ShowDate(t), '-') == [Decimal(t.year), TwoDigits(t.month), TwoDigits(t.day)]
    ensures NoneDivides(ShowDate(t))
    ensures ShowDate(t) != "" && !IsWhitespace(ShowDate(t)[0])
  {
    hide Decimal, TwoDigits, ParseUnsigned, Split, IsWhitespace;
    TwoDigitsParse(t.month);
    TwoDigitsParse(t.day);
    DigitIsNoSpace(Decimal(t.year)[0]);
    ThreeParts(Decimal(t.year), TwoDigits(t.month), TwoDigits(t.day));
  }

  /** What divides the date and the time. */
  predicate Divides(c: char) {
    c == 'T' || c == ' '
  }

  predicate NoneDivides(text: string) {
    'T' !in text && ' ' !in text
  }

  /** Every minute of the years 2000 to 2999 reads from its usual text, with `T` or
      with a space. */
  lemma DateTimeParses(t: DateTime, between: char)
    requires IsDateTime(t) && t.year <= 2999 && Divides(between)
    ensures Parse(ShowDate(t) + [between] + ShowTime(t)) == Some(t)
  {
    hide *;
    var date, time := ShowDate(t), ShowTime(t);
    DateSplits(t);
    TimeParses(t);
    TimeEnds(t);
    TrimmedAtEnds(date, between, time);
    SplitsAtTime(date, between, time);
    DateParts(t, date, between, time);
  }

  lemma TrimmedAtEnds(date: string, between: char, time: string)
    requires date != "" && time != "" && !IsWhitespace(date[0]) && !IsWhitespace(time[|time| - 1])
    ensures Trim(date + [between] + time) == date + [between] + time
  {
    var text := date + [between] + time;
    assert text[0] == date[0] && text[|text| - 1] == time[|time| - 1];
    TrimPlain(text);
  }

  lemma DateParts(t: DateTime, date: string, between: char, time: string)
    requires IsDateTime(t) && t.year <= 2999 && t.day <= 31
    requires SplitAtTime(Trim(date + [between] + time)) == Some((date, time))
    requires Split(date, '-') == [Decimal(t.year), TwoDigits(t.month), TwoDigits(t.day)]
    requires ParseTime(time) == Some((t.hour, t.minute))
    ensures Parse(date + [between] + time) == Some(t)
  {
    hide Decimal, TwoDigits, ParseUnsigned, Split, Trim, SplitAtTime, ParseTime;
    TwoDigitsParse(t.month);
    TwoDigitsParse(t.day);
    ParseDecimal(t.year, I32);
  }

  lemma TimeEnds(t: DateTime)
    requires IsDateTime(t)
    ensures ShowTime(t) != "" && !IsWhitespace(ShowTime(t)[|ShowTime(t)| - 1])
  {
    DigitIsNoSpace(ShowTime(t)[4]);
  }

  /** The first that divides does so. */
  lemma SplitsAtTime(date: string, between: char, time: string)
    requires NoneDivides(date) && Divides(between)
    ensures SplitAtTime(date + [between] + time) == Some((date, time))
  {
    var text, n := date + [between] + time, |date|;
    assert text[n] == between && text[..n] == date && text[n + 1..] == time;
    NotBefore(text, 'T', n);
    NotBefore(text, ' ', n);
    hide Position;
  }

  lemma NotBefore(text: string, c: char, n: nat)
    requires n < |text| && c !in text[..n]
    ensures Position(text, c).Some? ==> Position(text, c).value >= n
    ensures text[n] == c ==> Position(text, c) == Some(n)
  {
    hide Position;
    var p := Position(text, c);
    assert forall j :: 0 <= j < n ==> text[j] == text[..n][j];
    assert p.Some? && p.value > n ==> text[..p.value][n] == text[n];
  }

  // ----- Months and years ----------------------------------------------------

  /** The lengths of the months; nothing else is one. */
  lemma MonthLengths(y: nat)
    ensures DaysIn(y, 1) == 31 && DaysIn(y, 3) == 31 && DaysIn(y, 4) == 30 && DaysIn(y, 5) == 31
    ensures DaysIn(y, 6) == 30 && DaysIn(y, 7) == 31 && DaysIn(y, 8) == 31 && DaysIn(y, 9) == 30
    ensures DaysIn(y, 10) == 31 && DaysIn(y, 11) == 30 && DaysIn(y, 12) == 31
    ensures 28 <= DaysIn(y, 2) <= 29 && DaysIn(y, 0) == 0 && forall month :: month > 12 ==> DaysIn(y, month) == 0
  {
  }

  /** How many leap years there are from year 1 to year `y`. */
  function LeapYears(y: nat): int {
    y / 4 - y / 100 + y / 400
  }

  lemma LeapYearStep(y: nat)
    requires y > 0
    ensures LeapYears(y) == LeapYears(y - 1) + DaysIn(y, 2) - 28
  {
    QuotientStep(y, 4);
    QuotientStep(y, 100);
    QuotientStep(y, 400);
    FourInHundred(y);
  }

  lemma QuotientStep(y: nat, d: nat)
    requires y > 0 && d > 1
    ensures y / d == (y - 1) / d + if y % d == 0 then 1 else 0
  {
    var q, r := (y - 1) / d, (y - 1) % d;
    assert y == q * d + (r + 1);
    if r + 1 == d {
      Words.ModUnique(y, d, q + 1, 0);
    } else {
      Words.ModUnique(y, d, q, r + 1);
    }
  }

  lemma FourInHundred(y: nat)
    ensures y % 400 == 0 ==> y % 100 == 0
    ensures y % 100 == 0 ==> y % 4 == 0
  {
    if y % 400 == 0 {
      assert y == 400 * (y / 400);
      Words.ModUnique(y, 100, 4 * (y / 400), 0);
    }
    if y % 100 == 0 {
      assert y == 100 * (y / 100);
      Words.ModUnique(y, 4, 25 * (y / 100), 0);
    }
  }

  /** The days from 2000 on: 365 for each year, and one for each year that can be
      divided by 4, but not by 100 unless by 400. */
  lemma {:induction false} DaysToYearAre(y: nat)
    requires y >= 2000
    ensures DaysToYear(y) == 365 * (y - 2000) + LeapYears(y - 1) - 484
  {
    hide LeapYears;
    if y == 2000 {
      LeapYearsBefore();
    } else {
      DaysToYearAre(y - 1);
      LeapYearStep(y - 1);
      YearFromFebruary(y - 1);
    }
  }

  lemma YearFromFebruary(y: nat)
    ensures DaysOfYear(y) == 337 + DaysIn(y, 2)
  {
  }

  lemma LeapYearsBefore()
    ensures LeapYears(1999) == 484 && LeapYears(2003) == 485
  {
  }

  /** 1461 days from 2000 to 2004, and 146097 in any 400 years. */
  lemma FourHundredYears(y: nat)
    requires y >= 2000
    ensures DaysToYear(2004) == 1461 && DaysToYear(y + 400) == DaysToYear(y) + 146_097
  {
    hide DaysToYear;
    DaysToYearAre(2004);
    DaysToYearAre(y);
    DaysToYearAre(y + 400);
    LeapYearsBefore();
    LeapsIn400(y - 1);
  }

  lemma LeapsIn400(y: nat)
    ensures LeapYears(y + 400) == LeapYears(y) + 97
  {
    Words.ModUnique(y + 400, 4, y / 4 + 100, y % 4);
    Words.ModUnique(y + 400, 100, y / 100 + 4, y % 100);
    Words.ModUnique(y + 400, 400, y / 400 + 1, y % 400);
  }

  /** The last days of May and of the leap Februaries of 2024 and 2400. */
  lemma LastDays()
    ensures IsDateTime(DateTime(2026, 5, 31, 10, 0)) && !IsDateTime(DateTime(2026, 4, 31, 10, 0))
    ensures IsDateTime(DateTime(2024, 2, 29, 0, 0)) && !IsDateTime(DateTime(2026, 2, 29, 0, 0))
    ensures IsDateTime(DateTime(2400, 2, 29, 0, 0)) && !IsDateTime(DateTime(2100, 2, 29, 0, 0))
  {
  }
}
