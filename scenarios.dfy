/** Worked examples of the fixer on concrete calendar lines: the three kinds
    of date-bearing lines, a line left alone, a rejected month, and the
    calendar carries across a month end, a leap day and a year end. */
module Scenarios {
  import opened Text
  import opened Civil
  import opened Codec
  import opened Rewriter

  /** Two digit characters are the zero-padded text of the number they spell. */
  lemma PadTwo(n: nat, a: char, b: char)
    requires IsDigit(a) && IsDigit(b)
    requires n == (a as int - '0' as int) * 10 + (b as int - '0' as int)
    ensures Pad(n, 2) == [a, b]
  {
    assert [a, b][..1] == [a];
    PadValueOf([a, b]);
  }

  /** Four digit characters are the zero-padded text of the number they spell. */
  lemma PadFour(n: nat, a: char, b: char, c: char, d: char)
    requires IsDigit(a) && IsDigit(b) && IsDigit(c) && IsDigit(d)
    requires n == (a as int - '0' as int) * 1000 + (b as int - '0' as int) * 100
      + (c as int - '0' as int) * 10 + (d as int - '0' as int)
    ensures Pad(n, 4) == [a, b, c, d]
  {
    var s := [a, b, c, d];
    assert s[..3] == [a, b, c] && [a, b, c][..2] == [a, b] && [a, b][..1] == [a];
    assert ValueOf([a, b]) == (a as int - '0' as int) * 10 + (b as int - '0' as int);
    assert ValueOf([a, b, c]) == ValueOf([a, b]) * 10 + (c as int - '0' as int);
    PadValueOf(s);
  }

  /** A DATE-TIME text that reads as `t`, shifted onto `u`, is rewritten as the text of `u`. */
  lemma FixDateTimeLands(s: string, days: int, hours: int, t: Timestamp, u: Timestamp)
    requires Valid(t) && Valid(u) && |s| >= 15
    requires s[..8] == DateText(t.date) && s[9..15] == ClockText(t)
    requires Seconds(u) == Seconds(t) - OffsetSeconds(days, hours)
    ensures FixDateTime(s, days, hours) == Ok(EncodeDateTime(u))
  {
    DecodeAccepts(s, t);
    ShiftLands(t, days, hours, u);
  }

  /** A DATE text that reads as day `d`, shifted onto day `e`, is rewritten as the text of `e`. */
  lemma FixDateLands(s: string, days: int, d: Date, e: Date)
    requires ValidDate(d) && ValidDate(e) && 8 <= |s| < 15 && s[..8] == DateText(d)
    requires ToOrdinal(e) == ToOrdinal(d) - days
    ensures FixDate(s, days) == Ok(DateText(e))
  {
    DecodeAccepts(s, Midnight(d));
    ShiftLands(Midnight(d), days, 0, Midnight(e));
  }

  /** The DATE text of day `d` cannot move to before day 1. */
  lemma FixDateLeaves(d: Date, days: int)
    requires ValidDate(d) && ToOrdinal(d) - days < 1
    ensures FixDate(DateText(d), days) == Err(OutOfRange)
  {
    var s := DateText(d);
    assert s[..8] == s;
    DecodeAccepts(s, Midnight(d));
    ShiftWholeDays(Midnight(d), days);
  }

  /** The DTSTAMP value 2022-08-25 19:27:00 moved back ten days. */
  lemma StampField()
    ensures FixDateTime("20220825T192700Z", 10, 0) == Ok("20220815T192700")
  {
    hide FixDate, FixDateTime, Decode, Shift, FromSeconds, FromOrdinal, FindFrom, Pad;
    PadFour(2022, '2', '0', '2', '2');
    PadTwo(8, '0', '8');
    PadTwo(25, '2', '5');
    PadTwo(15, '1', '5');
    PadTwo(19, '1', '9');
    PadTwo(27, '2', '7');
    PadTwo(0, '0', '0');
    assert DateText(Date(2022, 8, 25)) == "20220825";
    assert ClockText(Timestamp(Date(2022, 8, 25), 19, 27, 0)) == "192700";
    assert EncodeDateTime(Timestamp(Date(2022, 8, 15), 19, 27, 0)) == "20220815T192700";
    assert ToOrdinal(Date(2022, 8, 25)) == 738392 && ToOrdinal(Date(2022, 8, 15)) == 738382;
    FixDateTimeLands("20220825T192700Z", 10, 0,
      Timestamp(Date(2022, 8, 25), 19, 27, 0), Timestamp(Date(2022, 8, 15), 19, 27, 0));
  }

  /** `DTSTAMP:20220825T192700Z` moved back ten days. */
  lemma StampExample()
    ensures FixLine("DTSTAMP:" + "20220825T192700Z\n", 10, 0) == Ok("DTSTAMP:" + "20220815T192700Z\n")
  {
    hide FixLine, FixDate, FixDateTime, Decode, Shift, FromSeconds, FromOrdinal, FindFrom, Pad;
    var line := "DTSTAMP:" + "20220825T192700Z\n";
    assert line[..7] == "DTSTAMP";
    assert OccursAt(line, "DTSTAMP", 0);
    assert DropLast(line) == "DTSTAMP:" + "20220825T192700Z";
    assert RuleFor(line) == Stamp;
    assert Field(Stamp, line) == "20220825T192700Z";
    StampField();
    assert Take(line, 8) == "DTSTAMP:";
    assert "DTSTAMP:" + "20220815T192700" + "Z\n" == "DTSTAMP:" + "20220815T192700Z\n";
  }

  /** The DTSTART value 2022-09-02 11:00:00 moved back one day and one hour;
      the newline after it is read past and not looked at. */
  lemma StartField()
    ensures FixDateTime("20220902T110000\n", 1, 1) == Ok("20220901T100000")
  {
    hide FixDate, FixDateTime, Decode, Shift, FromSeconds, FromOrdinal, FindFrom, Pad;
    PadFour(2022, '2', '0', '2', '2');
    PadTwo(9, '0', '9');
    PadTwo(2, '0', '2');
    PadTwo(1, '0', '1');
    PadTwo(11, '1', '1');
    PadTwo(10, '1', '0');
    PadTwo(0, '0', '0');
    assert DateText(Date(2022, 9, 2)) == "20220902";
    assert ClockText(Timestamp(Date(2022, 9, 2), 11, 0, 0)) == "110000";
    assert EncodeDateTime(Timestamp(Date(2022, 9, 1), 10, 0, 0)) == "20220901T100000";
    assert ToOrdinal(Date(2022, 9, 2)) == 738400 && ToOrdinal(Date(2022, 9, 1)) == 738399;
    FixDateTimeLands("20220902T110000\n", 1, 1,
      Timestamp(Date(2022, 9, 2), 11, 0, 0), Timestamp(Date(2022, 9, 1), 10, 0, 0));
  }

  /** A `DTSTART` line moved back one day and one hour. */
  lemma StartExample()
    ensures FixLine("DTSTART;TZID=America/New_York:" + "20220902T110000\n", 1, 1)
      == Ok("DTSTART;TZID=America/New_York:" + "20220901T100000\n")
  {
    hide FixLine, FixDate, FixDateTime, Decode, Shift, FromSeconds, FromOrdinal, FindFrom, Pad;
    var line := "DTSTART;TZID=America/New_York:" + "20220902T110000\n";
    assert 'P' !in "DTSTART;TZID=America/New_York:" && 'P' !in "20220902T110000\n";
    assert line[..7] == "DTSTART";
    AbsentWithout(line, "DTSTAMP", 6);
    assert OccursAt(line, "DTSTART", 0);
    assert RuleFor(line) == Start;
    assert Field(Start, line) == "20220902T110000\n";
    StartField();
    assert Take(line, 30) == "DTSTART;TZID=America/New_York:";
    assert "DTSTART;TZID=America/New_York:" + "20220901T100000" + "\n"
      == "DTSTART;TZID=America/New_York:" + "20220901T100000\n";
  }

  /** The UNTIL date 2022-12-09 moved back five days. */
  lemma UntilField()
    ensures FixDate("20221209\n", 5) == Ok("20221204")
  {
    hide FixDate, FixDateTime, Decode, Shift, FromSeconds, FromOrdinal, FindFrom, Pad;
    PadFour(2022, '2', '0', '2', '2');
    PadTwo(12, '1', '2');
    PadTwo(9, '0', '9');
    PadTwo(4, '0', '4');
    assert DateText(Date(2022, 12, 9)) == "20221209";
    assert DateText(Date(2022, 12, 4)) == "20221204";
    assert ToOrdinal(Date(2022, 12, 9)) == 738498 && ToOrdinal(Date(2022, 12, 4)) == 738493;
    FixDateLands("20221209\n", 5, Date(2022, 12, 9), Date(2022, 12, 4));
  }

  /** A weekly rule `RRULE:FREQ=WEEKLY;UNTIL=` followed by text without a
      `D` takes the `UNTIL` branch, is cut just after `UNTIL=` and hands
      that text to the codec. */
  lemma WeeklyUntil(v: string)
    requires 'D' !in v
    ensures var line := "RRULE:FREQ=WEEKLY;UNTIL=" + v;
      RuleFor(line) == Until && Take(line, Cut(Until, line)) == "RRULE:FREQ=WEEKLY;UNTIL=" &&
      Field(Until, line) == v
  {
    hide FixLine, FixDate, FixDateTime, Decode, Shift, FromSeconds, FromOrdinal, FindFrom, Pad;
    var p := "RRULE:FREQ=WEEKLY;UNTIL=";
    var line := p + v;
    assert 'D' !in p && 'N' !in p[..19];
    assert line[..19] == p[..19] && line[18..24] == p[18..24] == "UNTIL=";
    AbsentWithout(line, "DTSTAMP", 0);
    AbsentWithout(line, "DTSTART", 0);
    AbsentWithout(line, "DTEND", 0);
    assert OccursAt(line, "UNTIL", 18);
    assert OccursAt(line, "UNTIL=", 18);
    FindFirst(line, "UNTIL=", 18, 1);
  }

  /** The `UNTIL` date of a weekly rule moved back five days, whatever the hours offset. */
  lemma UntilExample(hours: int)
    ensures FixLine("RRULE:FREQ=WEEKLY;UNTIL=" + "20221209\n", 5, hours)
      == Ok("RRULE:FREQ=WEEKLY;UNTIL=" + "20221204\n")
  {
    hide FixLine, FixDate, FixDateTime, Decode, Shift, FromSeconds, FromOrdinal, FindFrom, Pad;
    WeeklyUntil("20221209\n");
    UntilField();
    assert "RRULE:FREQ=WEEKLY;UNTIL=" + "20221204" + "\n" == "RRULE:FREQ=WEEKLY;UNTIL=" + "20221204\n";
  }

  /** An `UNTIL` value followed by another rule part is read as a DATE-TIME
      from 15 characters on, and the clock characters `BYMONT` do not decode. */
  lemma UntilNotLastField()
    ensures FixDate("20221209;BYMONTH=12\n", 5) == Err(Malformed)
  {
    hide FixDate, ReadDate, Shift, FromSeconds, FromOrdinal, FindFrom, Pad;
    var s := "20221209;BYMONTH=12\n";
    assert s[9..15] == "BYMONT";
    assert !IsDigit("BYMONT"[0]);
  }

  /** A DATE-valued `UNTIL` followed by another rule part aborts the run. */
  lemma UntilNotLastExample()
    ensures FixLine("RRULE:FREQ=WEEKLY;UNTIL=" + "20221209;BYMONTH=12\n", 5, 0) == Err(Malformed)
  {
    hide FixLine, FixDate, FixDateTime, Decode, Shift, FromSeconds, FromOrdinal, FindFrom, Pad;
    WeeklyUntil("20221209;BYMONTH=12\n");
    UntilNotLastField();
  }

  /** A DATE-TIME `UNTIL` value followed by another rule part: its clock
      `045959` reads, so the value decodes, and only the shifted date is
      written back. */
  lemma UntilDateTimeField()
    ensures FixDate("20221209T045959Z;WKST=SU\n", 5) == Ok("20221204")
  {
    hide FixDate, FixDateTime, Decode, Shift, FromSeconds, FromOrdinal, FindFrom, Pad;
    PadFour(2022, '2', '0', '2', '2');
    PadTwo(12, '1', '2');
    PadTwo(9, '0', '9');
    PadTwo(4, '0', '4');
    PadTwo(59, '5', '9');
    var d, e := Date(2022, 12, 9), Date(2022, 12, 4);
    var t := Timestamp(d, 4, 59, 59);
    assert DateText(d) == "20221209" && DateText(e) == "20221204";
    assert ClockText(t) == "045959";
    var s := "20221209T045959Z;WKST=SU\n";
    assert s[..8] == "20221209" && s[9..15] == "045959";
    DecodeAccepts(s, t);
    assert ToOrdinal(d) == 738498 && ToOrdinal(e) == 738493;
    FixDateByOrdinal(s, 5, 738493);
    FromOrdinalToOrdinal(e);
  }

  /** A DATE-TIME `UNTIL` that is not the last rule part does not abort: the
      line is cut down to the shifted date, and the clock, the `Z` and the
      parts after it are dropped, whatever the hours offset. */
  lemma UntilDateTimeExample(hours: int)
    ensures FixLine("RRULE:FREQ=WEEKLY;UNTIL=" + "20221209T045959Z;WKST=SU\n", 5, hours)
      == Ok("RRULE:FREQ=WEEKLY;UNTIL=" + "20221204\n")
  {
    hide FixLine, FixDate, FixDateTime, Decode, Shift, FromSeconds, FromOrdinal, FindFrom, Pad;
    WeeklyUntil("20221209T045959Z;WKST=SU\n");
    UntilDateTimeField();
    assert "RRULE:FREQ=WEEKLY;UNTIL=" + "20221204" + "\n" == "RRULE:FREQ=WEEKLY;UNTIL=" + "20221204\n";
  }

  /** A line with no marker is copied. */
  lemma VerbatimExample()
    ensures FixLine("SUMMARY:Lecture\n", 3, 4) == Ok("SUMMARY:Lecture\n")
  {
    hide FixLine, FixDate, FixDateTime, Decode, Shift, FromSeconds, FromOrdinal, FindFrom, Pad;
    var line := "SUMMARY:Lecture\n";
    assert 'D' !in line && 'N' !in line;
    AbsentWithout(line, "DTSTAMP", 0);
    AbsentWithout(line, "DTSTART", 0);
    AbsentWithout(line, "DTEND", 0);
    AbsentWithout(line, "UNTIL", 1);
  }

  /** Month 13 is not a date. */
  lemma MonthThirteenDate()
    ensures ReadDate("20221302") == Err(Malformed)
  {
    hide Pad;
    var s := "20221302";
    if AllDigits(s) {
      assert s[4..6] == "13";
      assert ValueOf("13") == 13 by { assert "13"[..1] == "1"; }
    }
  }

  /** A DATE-TIME naming month 13 does not decode. */
  lemma MonthThirteenField()
    ensures FixDateTime("20221302T115000\n", 0, 0) == Err(Malformed)
  {
    hide FixDate, FixDateTime, ReadDate, ReadClock, Shift, FromSeconds, FromOrdinal, FindFrom, Pad;
    var s := "20221302T115000\n";
    assert s[..8] == "20221302";
    MonthThirteenDate();
  }

  /** A `DTEND` line naming month 13 aborts the run. */
  lemma MonthThirteenExample()
    ensures FixLine("DTEND;TZID=America/New_York:" + "20221302T115000\n", 0, 0) == Err(Malformed)
  {
    hide FixLine, FixDate, FixDateTime, Decode, Shift, FromSeconds, FromOrdinal, FindFrom, Pad;
    var line := "DTEND;TZID=America/New_York:" + "20221302T115000\n";
    assert 'P' !in "DTEND;TZID=America/New_York:" && 'P' !in "20221302T115000\n";
    assert 'S' !in "DTEND;TZID=America/New_York:" && 'S' !in "20221302T115000\n";
    assert line[..5] == "DTEND";
    AbsentWithout(line, "DTSTAMP", 6);
    AbsentWithout(line, "DTSTART", 2);
    assert OccursAt(line, "DTEND", 0);
    assert RuleFor(line) == End;
    assert Field(End, line) == "20221302T115000\n";
    MonthThirteenField();
  }

  /** One day before 2022-03-01 is 2022-02-28. */
  lemma MonthEndCarry()
    ensures FixDate("20220301", 1) == Ok("20220228")
  {
    hide FixDate, FixDateTime, Decode, Shift, FromSeconds, FromOrdinal, FindFrom, Pad;
    PadFour(2022, '2', '0', '2', '2');
    PadTwo(3, '0', '3');
    PadTwo(1, '0', '1');
    PadTwo(2, '0', '2');
    PadTwo(28, '2', '8');
    assert DateText(Date(2022, 3, 1)) == "20220301";
    assert DateText(Date(2022, 2, 28)) == "20220228";
    assert ToOrdinal(Date(2022, 3, 1)) == 738215 && ToOrdinal(Date(2022, 2, 28)) == 738214;
    FixDateLands("20220301", 1, Date(2022, 3, 1), Date(2022, 2, 28));
  }

  /** One day before 2024-03-01 is the leap day 2024-02-29. */
  lemma LeapDayCarry()
    ensures FixDate("20240301", 1) == Ok("20240229")
  {
    hide FixDate, FixDateTime, Decode, Shift, FromSeconds, FromOrdinal, FindFrom, Pad;
    PadFour(2024, '2', '0', '2', '4');
    PadTwo(3, '0', '3');
    PadTwo(1, '0', '1');
    PadTwo(2, '0', '2');
    PadTwo(29, '2', '9');
    assert DateText(Date(2024, 3, 1)) == "20240301";
    assert DateText(Date(2024, 2, 29)) == "20240229";
    assert ToOrdinal(Date(2024, 3, 1)) == 738946 && ToOrdinal(Date(2024, 2, 29)) == 738945;
    FixDateLands("20240301", 1, Date(2024, 3, 1), Date(2024, 2, 29));
  }

  /** One hour before 2022-01-01T00:00:00 is 2021-12-31T23:00:00. */
  lemma YearEndCarry()
    ensures FixDateTime("20220101T000000", 0, 1) == Ok("20211231T230000")
  {
    hide FixDate, FixDateTime, Decode, Shift, FromSeconds, FromOrdinal, FindFrom, Pad;
    PadFour(2022, '2', '0', '2', '2');
    PadFour(2021, '2', '0', '2', '1');
    PadTwo(1, '0', '1');
    PadTwo(12, '1', '2');
    PadTwo(31, '3', '1');
    PadTwo(0, '0', '0');
    PadTwo(23, '2', '3');
    assert DateText(Date(2022, 1, 1)) == "20220101";
    assert ClockText(Timestamp(Date(2022, 1, 1), 0, 0, 0)) == "000000";
    assert EncodeDateTime(Timestamp(Date(2021, 12, 31), 23, 0, 0)) == "20211231T230000";
    assert ToOrdinal(Date(2022, 1, 1)) == 738156 && ToOrdinal(Date(2021, 12, 31)) == 738155;
    FixDateTimeLands("20220101T000000", 0, 1,
      Timestamp(Date(2022, 1, 1), 0, 0, 0), Timestamp(Date(2021, 12, 31), 23, 0, 0));
  }

  /** A day before the first day of year 1 does not exist. */
  lemma BeforeYearOne()
    ensures FixDate("00010101", 1) == Err(OutOfRange)
  {
    hide FixDate, FixDateTime, Decode, Shift, FromSeconds, FromOrdinal, FindFrom, Pad;
    PadFour(1, '0', '0', '0', '1');
    PadTwo(1, '0', '1');
    assert DateText(Date(1, 1, 1)) == "00010101";
    assert ToOrdinal(Date(1, 1, 1)) == 1;
    FixDateLeaves(Date(1, 1, 1), 1);
  }
}
