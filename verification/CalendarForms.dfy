/** Which of the accepted dates and times are written as `parse_local_datetime`
    (`hub/src/model.rs`) documents: `YYYY-MM-DDTHH:MM`, or with a space. */
module CalendarForms {
  import opened Wrappers
  import opened Text
  import opened Splitting
  import opened Decimals
  import opened Calendar

  /** The documented text of a minute, with `T` or a space between. */
  function Usual(t: DateTime, between: char): string
    requires IsDateTime(t)
  {
    ShowDate(t) + [between] + ShowTime(t)
  }

  /** Sixteen characters, the separators in their places, a digit before the one in
      the middle, and no plus. */
  predicate Shaped(text: string) {
    && |text| == 16 && text[4] == '-' && text[7] == '-' && IsDigit(text[9])
    && Divides(text[10]) && text[13] == ':' && '+' !in text
  }

  // ----- A text of that shape, part by part ----------------------------------

  lemma NoPlus(text: string, bound: nat)
    requires ParseUnsigned(text, bound).Some? && '+' !in text
    ensures text != "" && AllDigits(text) && NumberOf(text) == ParseUnsigned(text, bound).value
  {
  }

  /** A part before a separator at `i` or earlier. */
  lemma FirstPart(text: string, c: char, i: nat)
    requires |text| <= i || text[i] == c
    ensures SplitOnce(text, c).Some? ==>
              && |SplitOnce(text, c).value.0| <= i
              && Split(text, c) == [SplitOnce(text, c).value.0] + Split(SplitOnce(text, c).value.1, c)
    ensures SplitOnce(text, c).None? ==> |text| <= i && Split(text, c) == [text]
  {
    hide Position;
    match SplitOnce(text, c)
    case None => SplitNone(text, c);
    case Some((before, after)) =>
      assert forall j :: 0 <= j < |before| ==> text[j] == before[j] && before[j] != c;
  }

  /** The date and the time are divided at the first `T` or space. */
  lemma DividedAt(text: string, i: nat) returns (k: nat)
    requires i < |text| && Divides(text[i])
    ensures k <= i && Divides(text[k])
    ensures SplitAtTime(text) == Some((text[..k], text[k + 1..]))
  {
    var p, q := Position(text, 'T'), Position(text, ' ');
    hide Position;
    assert text[i] in text;
    k := if p.None? || (q.Some? && q.value <= p.value) then q.value else p.value;
    assert forall j :: 0 <= j < k ==> text[..k][j] == text[j];
  }

  /** A year of 2000 or later takes four digits. */
  lemma YearIsLong(text: string)
    requires AllDigits(text) && NumberOf(text) >= 2000
    ensures |text| >= 4
  {
    NumberBound(text);
    Pow10Monotone(|text|, if |text| < 3 then 3 else |text|);
    assert Pow10(3) == 1000;
  }

  lemma YearIsPrinted(text: string)
    requires AllDigits(text) && |text| == 4 && 2000 <= NumberOf(text) <= 2999
    ensures Decimal(NumberOf(text)) == text
  {
    var y := NumberOf(text);
    FourDigits(y);
    NumberOfDecimal(y);
    hide Decimal, NumberOf;
    SameNumeral(text, Decimal(y));
  }

  lemma FourDigits(y: nat)
    requires 2000 <= y <= 2999
    ensures |Decimal(y)| == 4
  {
    assert |Decimal(y / 1000)| == 1;
    assert |Decimal(y / 100)| == 2 by { assert y / 100 / 10 == y / 1000; }
    assert |Decimal(y / 10)| == 3 by { assert y / 10 / 10 == y / 100; }
  }

  lemma PairIsPrinted(text: string)
    requires AllDigits(text) && |text| == 2
    ensures NumberOf(text) < 100 && TwoDigits(NumberOf(text)) == text
  {
    assert text[..1][..0] == "";
    assert NumberOf(text[..1]) == DigitValue(text[0]);
    assert NumberOf(text) == 10 * DigitValue(text[0]) + DigitValue(text[1]);
    DigitIsPrinted(text[0]);
    DigitIsPrinted(text[1]);
  }

  lemma DigitIsPrinted(c: char)
    requires IsDigit(c)
    ensures DigitChar(DigitValue(c)) == c
  {
  }

  /** A date of that shape and what stands in it. */
  lemma DateOfShape(date: string)
    requires |date| <= 10 && (|date| > 4 ==> date[4] == '-') && (|date| > 7 ==> date[7] == '-')
    requires |date| != 7 && |date| != 9 && (|date| == 10 ==> IsDigit(date[9]))
    requires |Split(date, '-')| >= 3 && '+' !in date
    requires ParseUnsigned(Split(date, '-')[0], I32).Some? && ParseUnsigned(Split(date, '-')[0], I32).value >= 2000
    requires ParseUnsigned(Split(date, '-')[1], U32).Some? && ParseUnsigned(Split(date, '-')[2], U32).Some?
    ensures |date| == 10 && Split(date, '-') == [date[..4], date[5..7], date[8..]]
  {
    hide Split, SplitOnce, NumberOf;
    var parts := Split(date, '-');
    FirstPart(date, '-', 4);
    var (year, rest) := SplitOnce(date, '-').value;
    PartWithout(date, year, rest);
    NoPlus(year, I32);
    YearIsLong(year);
    assert rest == date[5..] && year == date[..4];
    assert parts == [year] + Split(rest, '-');
    MonthOfShape(rest);
    assert rest[..2] == date[5..7] && rest[3..] == date[8..];
    DayOfShape(rest[3..]);
  }

  /** The month and what follows it. */
  lemma MonthOfShape(rest: string)
    requires |rest| != 2 && |rest| <= 5 && (|rest| > 2 ==> rest[2] == '-')
    requires |Split(rest, '-')| >= 2 && '+' !in rest
    requires ParseUnsigned(Split(rest, '-')[0], U32).Some? && Split(rest, '-')[1] != ""
    ensures |rest| >= 3 && Split(rest, '-') == [rest[..2]] + Split(rest[3..], '-')
  {
    hide Split, SplitOnce, NumberOf;
    FirstPart(rest, '-', 2);
    var (month, last) := SplitOnce(rest, '-').value;
    PartWithout(rest, month, last);
    NoPlus(month, U32);
    if |month| == 1 {
      assert last[0] == rest[2];
      FirstPart(last, '-', 0);
      assert false;
    }
    assert month == rest[..2] && last == rest[3..];
  }

  lemma DayOfShape(last: string)
    requires |last| <= 2 && Split(last, '-')[0] != "" && (|last| == 2 ==> last[1] != '-')
    ensures Split(last, '-') == [last]
  {
    hide Split;
    FirstPart(last, '-', |last|);
    match SplitOnce(last, '-')
    case None =>
    case Some(_) => assert false;
  }

  lemma PartWithout(text: string, before: string, after: string)
    requires text == before + ['-'] + after && '+' !in text
    ensures '+' !in before && '+' !in after
  {
    assert forall c :: c in before || c in after ==> c in text;
  }

  lemma TrimOfSameLength(text: string)
    requires |Trim(text)| == |text|
    ensures Trim(text) == text
  {
    TrimStartCut(text);
    assert |TrimEnd(TrimStart(text))| <= |TrimStart(text)|;
  }

  lemma ColonLater(time: string, h: string, m: string)
    requires |time| == 5 && time[2] == ':' && time == h + [':'] + m && |h| < 2
    ensures ':' in m
  {
    assert m[1 - |h|] == time[2];
  }

  lemma TimeOfShape(time: string)
    requires |time| == 5 && time[2] == ':' && '+' !in time && ParseTime(time).Some?
    ensures AllDigits(time[..2]) && AllDigits(time[3..])
    ensures ParseTime(time) == Some((NumberOf(time[..2]), NumberOf(time[3..])))
  {
    TrimOfSameLength(time);
    hide Trim, NumberOf;
    FirstPart(time, ':', 2);
    var (h, m) := SplitOnce(time, ':').value;
    assert forall c :: c in h || c in m ==> c in time;
    NoPlus(h, U32);
    NoPlus(m, U32);
    if |h| < 2 {
      ColonLater(time, h, m);
      assert false;
    }
    assert h == time[..2] && m == time[3..];
  }

  // ----- Exactly the documented form -----------------------------------------

  lemma PartsOfShape(text: string, date: string, t: DateTime)
    requires Shaped(text) && date == text[..10] && IsDateTime(t) && t.day <= 31
    requires '+' !in date[..4] && '+' !in date[5..7] && '+' !in date[8..]
    requires ParseUnsigned(date[..4], I32) == Some(t.year) && t.year <= 2999
    requires ParseUnsigned(date[5..7], U32) == Some(t.month) && ParseUnsigned(date[8..], U32) == Some(t.day)
    requires AllDigits(text[11..13]) && AllDigits(text[14..])
    requires t.hour == NumberOf(text[11..13]) && t.minute == NumberOf(text[14..])
    ensures text == Usual(t, text[10])
  {
    hide ParseUnsigned, NumberOf, Decimal, TwoDigits, AllDigits;
    var y, m, d, h, n := date[..4], date[5..7], date[8..], text[11..13], text[14..];
    NoPlus(y, I32);
    NoPlus(m, U32);
    NoPlus(d, U32);
    YearIsPrinted(y);
    PairIsPrinted(m);
    PairIsPrinted(d);
    PairIsPrinted(h);
    PairIsPrinted(n);
    assert text == y + "-" + m + "-" + d + [text[10]] + (h + ":" + n);
  }

  lemma ShapedIsUsual(text: string, t: DateTime)
    requires Parse(text) == Some(t) && Shaped(Trim(text)) && IsDateTime(t)
    ensures Trim(text) == Usual(t, Trim(text)[10])
  {
    hide Trim, Split, ParseUnsigned, SplitAtTime, ParseTime, NumberOf;
    var s := Trim(text);
    var k := DividedAt(s, 10);
    var date, time := s[..k], s[k + 1..];
    NoneInParts(s, k);
    DateOfShape(date);
    assert k == 10 && time == s[11..];
    assert time[2] == s[13];
    TimeOfShape(time);
    assert time[..2] == s[11..13] && time[3..] == s[14..];
    DayHasTwoDigits(t);
    PartsOfShape(s, date, t);
  }

  lemma DayHasTwoDigits(t: DateTime)
    requires IsDateTime(t)
    ensures t.day <= 31
  {
  }

  lemma NoneInParts(s: string, k: nat)
    requires k < |s| && '+' !in s
    ensures '+' !in s[..k] && '+' !in s[k + 1..]
    ensures forall i, j :: 0 <= i <= j <= k ==> '+' !in s[..k][i..j]
  {
  }

  lemma UsualIsShaped(t: DateTime, between: char)
    requires IsDateTime(t) && t.year <= 2999 && Divides(between)
    ensures Shaped(Usual(t, between)) && Usual(t, between)[10] == between
  {
    DayHasTwoDigits(t);
    FourDigits(t.year);
    DecimalParts(t.year);
    TwoDigitsParse(t.month);
    TwoDigitsParse(t.day);
    TwoDigitsParse(t.hour);
    TwoDigitsParse(t.minute);
    hide Decimal, ParseUnsigned;
    var date, time, text := ShowDate(t), ShowTime(t), Usual(t, between);
    assert |date| == 10 && |time| == 5;
    assert text[4] == date[4] && text[7] == date[7] && text[9] == date[9] && text[13] == time[2];
  }

  lemma DecimalParts(n: nat)
    ensures '+' !in Decimal(n)
  {
    assert !IsDigit('+');
  }

  /** An accepted text is, but for white space around it, the documented text of
      the minute it says, exactly when it has the documented shape. */
  lemma UsualExactly(text: string)
    requires Parse(text).Some?
    ensures IsDateTime(Parse(text).value)
    ensures
      var s, t := Trim(text), Parse(text).value;
      s == Usual(t, 'T') || s == Usual(t, ' ') <==> Shaped(s)
  {
    ParsedIsDateTime(text);
    hide Parse, Trim, Usual, IsDateTime;
    var t := Parse(text).value;
    UsualIsShaped(t, 'T');
    UsualIsShaped(t, ' ');
    if Shaped(Trim(text)) {
      ShapedIsUsual(text, t);
    }
  }

  // ----- Other accepted texts ------------------------------------------------

  /** Whatever its parts look like, a text is read by them. */
  lemma ReadByParts(y: string, m: string, d: string, more: string, between: char, time: string, at: (nat, nat))
    requires '-' !in y && '-' !in m && '-' !in d && (more == "" || more[0] == '-')
    requires NoneDivides(y) && NoneDivides(m) && NoneDivides(d) && NoneDivides(more) && Divides(between)
    requires y != "" && !IsWhitespace(y[0]) && time != "" && !IsWhitespace(time[|time| - 1])
    requires ParseUnsigned(y, I32).Some? && ParseUnsigned(m, U32).Some? && ParseUnsigned(d, U32).Some?
    requires ParseTime(time) == Some(at)
    ensures Parse(y + "-" + m + "-" + d + more + [between] + time)
         == FromNumbers(ParseUnsigned(y, I32).value, ParseUnsigned(m, U32).value, ParseUnsigned(d, U32).value, at)
  {
    hide Trim, Split, ParseUnsigned, SplitAtTime, ParseTime, FromNumbers, IsWhitespace;
    var date := y + "-" + m + "-" + d + more;
    var text := date + [between] + time;
    assert text[0] == y[0] && text[|text| - 1] == time[|time| - 1];
    TrimPlain(text);
    SplitsAtTime(date, between, time);
    assert date == y + ['-'] + (m + ['-'] + (d + more));
    SplitAt(y, '-', m + ['-'] + (d + more));
    SplitAt(m, '-', d + more);
    DayBefore(d, more);
  }

  lemma DayBefore(d: string, more: string)
    requires '-' !in d && (more == "" || more[0] == '-')
    ensures Split(d + more, '-')[0] == d
  {
    if more == "" {
      assert d + more == d;
      SplitNone(d, '-');
    } else {
      assert d + more == d + ['-'] + more[1..];
      SplitAt(d, '-', more[1..]);
    }
  }

  lemma Reads(text: string, digits: string)
    requires (text == digits || text == "+" + digits) && AllDigits(digits) && 0 < |digits| <= 4
    ensures ParseUnsigned(text, U32) == Some(NumberOf(digits)) && ParseUnsigned(text, I32) == Some(NumberOf(digits))
  {
    NumberBound(digits);
    assert IsDigit(digits[0]);
    Pow10Monotone(|digits|, 4);
    assert Pow10(4) == 10000;
    assert text != digits ==> text[1..] == digits;
    hide NumberOf, Pow10;
  }

  lemma OneDigit(c: char)
    requires IsDigit(c)
    ensures NumberOf([c]) == DigitValue(c)
  {
    assert [c][..0] == "";
  }

  lemma NextDigit(digits: string, c: char)
    requires AllDigits(digits) && IsDigit(c)
    ensures AllDigits(digits + [c]) && NumberOf(digits + [c]) == 10 * NumberOf(digits) + DigitValue(c)
  {
    assert (digits + [c])[..|digits|] == digits;
  }

  lemma Numbers()
    ensures NumberOf("1") == 1 && NumberOf("5") == 5 && NumberOf("10") == 10 && NumberOf("14") == 14
    ensures NumberOf("30") == 30 && NumberOf("030") == 30 && NumberOf("2026") == 2026
  {
    hide NumberOf;
    OneDigit('0');
    OneDigit('1');
    OneDigit('2');
    OneDigit('3');
    OneDigit('5');
    NextDigit("1", '0');
    NextDigit("1", '4');
    NextDigit("3", '0');
    NextDigit("0", '3');
    NextDigit("03", '0');
    NextDigit("2", '0');
    NextDigit("20", '2');
    NextDigit("202", '6');
    assert "1" + ['0'] == "10" && "1" + ['4'] == "14" && "3" + ['0'] == "30" && "0" + ['3'] == "03";
    assert "03" + ['0'] == "030" && "2" + ['0'] == "20" && "20" + ['2'] == "202" && "202" + ['6'] == "2026";
  }

  lemma TimeReads(left: string, h: string, m: string)
    requires AllWhitespace(left) && |h| + |m| == 4 && h != "" && m != "" && AllDigits(h) && AllDigits(m)
    requires NumberOf(h) < 24 && NumberOf(m) < 60
    ensures ParseTime(left + (h + ":" + m)) == Some((NumberOf(h), NumberOf(m)))
  {
    var text := h + ":" + m;
    assert IsDigit(h[0]) && IsDigit(m[|m| - 1]);
    DigitIsNoSpace(text[0]);
    DigitIsNoSpace(text[4]);
    TrimPadded(left, text, "");
    assert left + text + "" == left + text;
    Reads(h, h);
    Reads(m, m);
    assert ':' !in h;
    assert text == h + [':'] + m;
    SplitOnceAt(h, ':', m);
    hide Trim, ParseUnsigned, SplitOnce, NumberOf;
  }

  /** A day and time with a plus, with more after the day, or with more white space,
      is read all the same. */
  lemma ReadAsDay(text: string, y: string, more: string, between: char, left: string)
    requires y == "2026" || y == "+2026"
    requires (more == "" || more[0] == '-') && NoneDivides(more) && Divides(between) && AllWhitespace(left)
    requires text == y + "-" + "10" + "-" + "14" + more + [between] + (left + "10:30")
    ensures Parse(text) == Some(DateTime(2026, 10, 14, 10, 30))
  {
    hide Parse, ParseTime, ParseUnsigned, NumberOf, Trim, AllWhitespace;
    Numbers();
    Reads(y, "2026");
    Reads("10", "10");
    Reads("14", "14");
    TimeReads(left, "10", "30");
    assert "10" + ":" + "30" == "10:30";
    var time := left + "10:30";
    assert time[|time| - 1] == '0';
    ReadByParts(y, "10", "14", more, between, time, (10, 30));
  }

  /** Digits missing in one place and too many in another. */
  lemma OtherDigits()
    ensures Parse("2026-1-5T1:030") == Some(DateTime(2026, 1, 5, 1, 30)) && !Shaped("2026-1-5T1:030")
  {
    hide Parse, ParseTime, ParseUnsigned, NumberOf, Trim;
    Numbers();
    Reads("2026", "2026");
    Reads("1", "1");
    Reads("5", "5");
    TimeReads("", "1", "030");
    assert "" + ("1" + ":" + "030") == "1:030";
    ReadByParts("2026", "1", "5", "", 'T', "1:030", (1, 30));
    assert "2026" + "-" + "1" + "-" + "5" + "" + ['T'] + "1:030" == "2026-1-5T1:030";
  }

  /** More after the day. */
  lemma MoreAfterDay()
    ensures Parse("2026-10-14-xT10:30") == Some(DateTime(2026, 10, 14, 10, 30)) && !Shaped("2026-10-14-xT10:30")
  {
    hide Parse;
    assert "2026" + "-" + "10" + "-" + "14" + "-x" + ['T'] + ("" + "10:30") == "2026-10-14-xT10:30";
    ReadAsDay("2026-10-14-xT10:30", "2026", "-x", 'T', "");
  }

  /** A plus before a number. */
  lemma PlusBefore()
    ensures Parse("+2026-10-14T10:30") == Some(DateTime(2026, 10, 14, 10, 30)) && !Shaped("+2026-10-14T10:30")
  {
    hide Parse;
    assert "+2026" + "-" + "10" + "-" + "14" + "" + ['T'] + ("" + "10:30") == "+2026-10-14T10:30";
    ReadAsDay("+2026-10-14T10:30", "+2026", "", 'T', "");
  }

  /** A second blank before the time. */
  lemma SecondBlank()
    ensures Parse("2026-10-14  10:30") == Some(DateTime(2026, 10, 14, 10, 30)) && !Shaped("2026-10-14  10:30")
  {
    hide Parse;
    assert "2026" + "-" + "10" + "-" + "14" + "" + [' '] + (" " + "10:30") == "2026-10-14  10:30";
    ReadAsDay("2026-10-14  10:30", "2026", "", ' ', " ");
  }
}
