/** The temporal codec of `schedule_fixer/fixer.py`: the compact iCalendar
    DATE (`YYYYMMDD`) and DATE-TIME (`YYYYMMDDTHHMMSS`) texts of sections
    3.3.4 and 3.3.5 of RFC 5545, decoded into a naive civil timestamp,
    shifted back by a (days, hours) offset and encoded again. */
module Codec {
  import opened Text
  import opened Civil

  /** Why a field could not be rewritten: Python's `fromisoformat` raises
      ValueError on text that is not a valid date or time (`Malformed`), and
      `datetime` arithmetic raises OverflowError when the result leaves the
      years 1 to 9999 (`OutOfRange`). Either aborts the whole run. */
  datatype Error = Malformed | OutOfRange

  datatype Result<T> = Ok(value: T) | Err(error: Error)

  datatype Option<T> = None | Some(value: T)

  /** A naive `datetime`: a civil date and a wall-clock time, no time zone. */
  datatype Timestamp = Timestamp(date: Date, hour: int, minute: int, second: int)

  predicate Valid(t: Timestamp) {
    ValidDate(t.date) && 0 <= t.hour < 24 && 0 <= t.minute < 60 && 0 <= t.second < 60
  }

  function Midnight(d: Date): Timestamp {
    Timestamp(d, 0, 0, 0)
  }

  /** One past the last second of 9999-12-31: `MaxOrdinal` days of 86400 seconds. */
  const SecondsInRange := 315537897600

  /** Seconds of the clock time since midnight. */
  function ClockSeconds(t: Timestamp): int {
    t.hour * 3600 + t.minute * 60 + t.second
  }

  /** Seconds elapsed since 0001-01-01T00:00:00. */
  function Seconds(t: Timestamp): (r: int)
    requires Valid(t)
    ensures 0 <= r < SecondsInRange
  {
    (ToOrdinal(t.date) - 1) * 86400 + ClockSeconds(t)
  }

  /** Hours, minutes and seconds of a second of the day recombine into it. */
  lemma ClockSplit(rem: int)
    requires 0 <= rem < 86400
    ensures 0 <= rem / 3600 < 24 && 0 <= rem % 3600 / 60 < 60
    ensures rem / 3600 * 3600 + rem % 3600 / 60 * 60 + rem % 60 == rem
  {
  }

  /** The valid timestamp that lies `s` seconds after 0001-01-01T00:00:00. */
  function FromSeconds(s: int): (t: Timestamp)
    requires 0 <= s < SecondsInRange
    ensures Valid(t) && Seconds(t) == s
  {
    var rem := s % 86400;
    ClockSplit(rem);
    Timestamp(FromOrdinal(s / 86400 + 1), rem / 3600, rem % 3600 / 60, rem % 60)
  }

  /** Distinct valid timestamps lie at distinct seconds. */
  lemma SecondsInjective(a: Timestamp, b: Timestamp)
    requires Valid(a) && Valid(b) && Seconds(a) == Seconds(b)
    ensures a == b
  {
    var s := Seconds(a);
    assert s / 86400 == ToOrdinal(a.date) - 1 && s % 86400 == ClockSeconds(a);
    assert s / 86400 == ToOrdinal(b.date) - 1 && s % 86400 == ClockSeconds(b);
    assert a.hour == ClockSeconds(a) / 3600 && b.hour == ClockSeconds(b) / 3600;
    ToOrdinalInjective(a.date, b.date);
  }

  lemma FromSecondsSeconds(t: Timestamp)
    requires Valid(t)
    ensures FromSeconds(Seconds(t)) == t
  {
    SecondsInjective(FromSeconds(Seconds(t)), t);
  }

  /** The length of the (days, hours) offset in seconds, as `timedelta(days=days, hours=hours)`. */
  function OffsetSeconds(days: int, hours: int): (r: int)
    ensures r == (days * 24 + hours) * 3600
  {
    days * 86400 + hours * 3600
  }

  /** The timestamp `s` seconds after 0001-01-01T00:00:00, or OverflowError
      when that lies outside the years 1 to 9999. */
  function AtSeconds(s: int): (r: Result<Timestamp>)
    ensures r.Ok? <==> 0 <= s < SecondsInRange
    ensures r.Ok? ==> Valid(r.value) && Seconds(r.value) == s
    ensures r.Err? ==> r.error == OutOfRange
  {
    if 0 <= s < SecondsInRange then Ok(FromSeconds(s)) else Err(OutOfRange)
  }

  /** `t - timedelta(days=days, hours=hours)`: naive clock arithmetic with
      calendar carry, failing when the result leaves the years 1 to 9999. */
  function Shift(t: Timestamp, days: int, hours: int): (r: Result<Timestamp>)
    requires Valid(t)
    ensures r.Ok? <==> 0 <= Seconds(t) - OffsetSeconds(days, hours) < SecondsInRange
    ensures r.Ok? ==> Valid(r.value) && Seconds(r.value) == Seconds(t) - OffsetSeconds(days, hours)
    ensures r.Err? ==> r.error == OutOfRange
  {
    AtSeconds(Seconds(t) - OffsetSeconds(days, hours))
  }

  /** A shift lands on the valid timestamp whose seconds are the original
      seconds less the offset. */
  lemma ShiftLands(t: Timestamp, days: int, hours: int, u: Timestamp)
    requires Valid(t) && Valid(u)
    requires Seconds(u) == Seconds(t) - OffsetSeconds(days, hours)
    ensures Shift(t, days, hours) == Ok(u)
  {
    var r := Shift(t, days, hours);
    assert r.Ok?;
    SecondsInjective(r.value, u);
  }

  /** Shifting by nothing changes nothing. */
  lemma ShiftZero(t: Timestamp)
    requires Valid(t)
    ensures Shift(t, 0, 0) == Ok(t)
  {
    ShiftLands(t, 0, 0, t);
  }

  /** Two shifts in a row are one shift by the summed offset, once the first stays in range. */
  lemma ShiftShift(t: Timestamp, d1: int, h1: int, d2: int, h2: int)
    requires Valid(t) && Shift(t, d1, h1).Ok?
    ensures Shift(Shift(t, d1, h1).value, d2, h2) == Shift(t, d1 + d2, h1 + h2)
  {
    hide Shift;
    var r := Shift(t, d1 + d2, h1 + h2);
    if r.Ok? {
      ShiftLands(Shift(t, d1, h1).value, d2, h2, r.value);
    }
  }

  /** Shifting back by the opposite offset restores the original timestamp. */
  lemma ShiftUndo(t: Timestamp, days: int, hours: int)
    requires Valid(t) && Shift(t, days, hours).Ok?
    ensures Shift(Shift(t, days, hours).value, -days, -hours) == Ok(t)
  {
    hide Shift;
    ShiftLands(Shift(t, days, hours).value, -days, -hours, t);
  }

  /** A shift by whole days keeps the clock time and moves the date back by
      exactly that many days; it fails exactly when that date leaves the range. */
  lemma ShiftWholeDays(t: Timestamp, days: int)
    requires Valid(t)
    ensures Shift(t, days, 0).Ok? <==> 1 <= ToOrdinal(t.date) - days <= MaxOrdinal
    ensures Shift(t, days, 0).Ok? ==>
      Shift(t, days, 0).value == Timestamp(FromOrdinal(ToOrdinal(t.date) - days), t.hour, t.minute, t.second)
  {
    hide Shift;
    var n := ToOrdinal(t.date) - days;
    if 1 <= n <= MaxOrdinal {
      ShiftLands(t, days, 0, Timestamp(FromOrdinal(n), t.hour, t.minute, t.second));
    }
  }

  /** The eight digits `YYYYMMDD` of a date, each part zero-padded. */
  function DateText(d: Date): (r: string)
    requires ValidDate(d)
    ensures |r| == 8 && AllDigits(r)
  {
    Pad(d.year, 4) + Pad(d.month, 2) + Pad(d.day, 2)
  }

  /** The six digits `HHMMSS` of a clock time, each part zero-padded. */
  function ClockText(t: Timestamp): (r: string)
    requires Valid(t)
    ensures |r| == 6 && AllDigits(r)
  {
    Pad(t.hour, 2) + Pad(t.minute, 2) + Pad(t.second, 2)
  }

  /** `_ical_date_from_datetime`: the DATE text, the clock dropped. */
  function EncodeDate(t: Timestamp): (r: string)
    requires Valid(t)
    ensures |r| == 8 && AllDigits(r)
  {
    DateText(t.date)
  }

  /** `_ical_datetime_from_datetime`: the DATE-TIME text, the date, a `T`
      at index 8, then the clock. */
  function EncodeDateTime(t: Timestamp): (r: string)
    requires Valid(t)
    ensures |r| == 15 && r[8] == 'T'
    ensures r[..8] == DateText(t.date) && r[9..] == ClockText(t)
  {
    DateText(t.date) + "T" + ClockText(t)
  }

  /** Reads the eight characters of a date: all digits, denoting a valid
      date, or `fromisoformat` raises ValueError. */
  function ReadDate(s: string): (r: Result<Date>)
    requires |s| == 8
    ensures r.Ok? ==> ValidDate(r.value)
    ensures r.Err? ==> r.error == Malformed
  {
    if !AllDigits(s) then Err(Malformed)
    else
      DigitsWithin(s, 0, 8, 0, 4);
      DigitsWithin(s, 0, 8, 4, 6);
      DigitsWithin(s, 0, 8, 6, 8);
      var d := Date(ValueOf(s[..4]), ValueOf(s[4..6]), ValueOf(s[6..8]));
      if ValidDate(d) then Ok(d) else Err(Malformed)
  }

  /** Reads the six characters of a clock time on date `d`: all digits,
      denoting hours below 24 and minutes and seconds below 60. */
  function ReadClock(s: string, d: Date): (r: Result<Timestamp>)
    requires |s| == 6 && ValidDate(d)
    ensures r.Ok? ==> Valid(r.value) && r.value.date == d
    ensures r.Err? ==> r.error == Malformed
  {
    if !AllDigits(s) then Err(Malformed)
    else
      DigitsWithin(s, 0, 6, 0, 2);
      DigitsWithin(s, 0, 6, 2, 4);
      DigitsWithin(s, 0, 6, 4, 6);
      var t := Timestamp(d, ValueOf(s[..2]), ValueOf(s[2..4]), ValueOf(s[4..6]));
      if Valid(t) then Ok(t) else Err(Malformed)
  }

  /** Reading the text of a date gives the date back. */
  lemma ReadDateText(d: Date)
    requires ValidDate(d)
    ensures ReadDate(DateText(d)) == Ok(d)
  {
    var s := DateText(d);
    assert s[..4] == Pad(d.year, 4);
    assert s[4..6] == Pad(d.month, 2);
    assert s[6..8] == Pad(d.day, 2);
  }

  /** A date that reads successfully is written back as the same text. */
  lemma DateTextRead(s: string)
    requires |s| == 8 && ReadDate(s).Ok?
    ensures DateText(ReadDate(s).value) == s
  {
    DigitsWithin(s, 0, 8, 0, 4);
    DigitsWithin(s, 0, 8, 4, 6);
    DigitsWithin(s, 0, 8, 6, 8);
    PadValueOf(s[..4]);
    PadValueOf(s[4..6]);
    PadValueOf(s[6..8]);
    assert s == s[..4] + s[4..6] + s[6..8];
  }

  /** Reading the text of a clock time gives the timestamp back. */
  lemma ReadClockText(t: Timestamp)
    requires Valid(t)
    ensures ReadClock(ClockText(t), t.date) == Ok(t)
  {
    var s := ClockText(t);
    assert s[..2] == Pad(t.hour, 2);
    assert s[2..4] == Pad(t.minute, 2);
    assert s[4..6] == Pad(t.second, 2);
  }

  /** A clock time that reads successfully is written back as the same text. */
  lemma ClockTextRead(s: string, d: Date)
    requires |s| == 6 && ValidDate(d) && ReadClock(s, d).Ok?
    ensures ClockText(ReadClock(s, d).value) == s
  {
    DigitsWithin(s, 0, 6, 0, 2);
    DigitsWithin(s, 0, 6, 2, 4);
    DigitsWithin(s, 0, 6, 4, 6);
    PadValueOf(s[..2]);
    PadValueOf(s[2..4]);
    PadValueOf(s[4..6]);
    assert s == s[..2] + s[2..4] + s[4..6];
  }

  /** `_date_from_ical_time`: the date from characters 0-8; below 15
      characters the result is midnight, otherwise the clock comes from
      characters 9-15. Character 8 and anything past 15 are never looked at. */
  function Decode(s: string): (r: Result<Timestamp>)
    ensures r.Ok? ==> |s| >= 8 && Valid(r.value)
    ensures r.Ok? && |s| < 15 ==> r.value == Midnight(r.value.date)
    ensures r.Err? ==> r.error == Malformed
  {
    if |s| < 8 then Err(Malformed)
    else
      match ReadDate(s[..8])
      case Err(e) => Err(e)
      case Ok(d) => if |s| < 15 then Ok(Midnight(d)) else ReadClock(s[9..15], d)
  }

  /** What a successful decode read: the first 8 characters are exactly the
      text of its date, and from 15 characters on, characters 9-15 are
      exactly the text of its clock. */
  lemma DecodeReads(s: string)
    requires Decode(s).Ok?
    ensures DateText(Decode(s).value.date) == s[..8]
    ensures |s| >= 15 ==> ClockText(Decode(s).value) == s[9..15]
  {
    DateTextRead(s[..8]);
    if |s| >= 15 {
      ClockTextRead(s[9..15], ReadDate(s[..8]).value);
    }
  }

  /** What a decode accepts: any text whose first 8 characters are the text
      of a valid date and, from 15 characters on, whose characters 9-15 are
      the text of its clock, whatever stands at character 8 and past 15. */
  lemma DecodeAccepts(s: string, t: Timestamp)
    requires Valid(t) && |s| >= 8 && s[..8] == DateText(t.date)
    requires |s| >= 15 ==> s[9..15] == ClockText(t)
    ensures Decode(s) == Ok(if |s| >= 15 then t else Midnight(t.date))
  {
    ReadDateText(t.date);
    if |s| >= 15 {
      ReadClockText(t);
    }
  }

  /** Decoding an encoded DATE-TIME gives back the timestamp. */
  lemma DecodeEncodeDateTime(t: Timestamp)
    requires Valid(t)
    ensures Decode(EncodeDateTime(t)) == Ok(t)
  {
    DecodeAccepts(EncodeDateTime(t), t);
  }

  /** Decoding an encoded DATE gives back midnight of its date. */
  lemma DecodeEncodeDate(t: Timestamp)
    requires Valid(t)
    ensures Decode(EncodeDate(t)) == Ok(Midnight(t.date))
  {
    DecodeAccepts(EncodeDate(t), t);
  }

  /** Encoding a decoded DATE-TIME gives back its first 15 characters, when
      character 8 is the `T`. */
  lemma EncodeDecodeDateTime(s: string)
    requires Decode(s).Ok? && |s| >= 15 && s[8] == 'T'
    ensures EncodeDateTime(Decode(s).value) == s[..15]
  {
    DecodeReads(s);
    assert s[..15] == s[..8] + [s[8]] + s[9..15];
  }

  /** Encoding a decoded DATE gives back its first 8 characters. */
  lemma EncodeDecodeDate(s: string)
    requires Decode(s).Ok?
    ensures EncodeDate(Decode(s).value) == s[..8]
  {
    DecodeReads(s);
  }

  /** `_fix_date`: decode (a clock, if present, is read and checked), shift
      by whole days, write the date only. */
  function FixDate(s: string, days: int): (r: Result<string>)
    ensures r.Ok? <==> Decode(s).Ok? && Shift(Decode(s).value, days, 0).Ok?
    ensures r.Ok? ==> (|r.value| == 8 &&
      Decode(r.value) == Ok(Midnight(Shift(Decode(s).value, days, 0).value.date)))
    ensures r.Err? ==> r.error == (if Decode(s).Err? then Malformed else OutOfRange)
  {
    match Decode(s)
    case Err(e) => Err(e)
    case Ok(t) =>
      match Shift(t, days, 0)
      case Err(e) => Err(e)
      case Ok(u) =>
        DecodeEncodeDate(u);
        Ok(EncodeDate(u))
  }

  /** `_fix_date_and_time`: decode, shift by days and hours, write a DATE-TIME. */
  function FixDateTime(s: string, days: int, hours: int): (r: Result<string>)
    ensures r.Ok? <==> Decode(s).Ok? && Shift(Decode(s).value, days, hours).Ok?
    ensures r.Ok? ==> (|r.value| == 15 && r.value[8] == 'T' &&
      Decode(r.value) == Shift(Decode(s).value, days, hours))
    ensures r.Err? ==> r.error == (if Decode(s).Err? then Malformed else OutOfRange)
  {
    match Decode(s)
    case Err(e) => Err(e)
    case Ok(t) =>
      match Shift(t, days, hours)
      case Err(e) => Err(e)
      case Ok(u) =>
        DecodeEncodeDateTime(u);
        Ok(EncodeDateTime(u))
  }

  /** With a zero offset a decodable DATE-TIME comes back as its first 15 characters. */
  lemma FixDateTimeZero(s: string)
    requires Decode(s).Ok? && |s| >= 15 && s[8] == 'T'
    ensures FixDateTime(s, 0, 0) == Ok(s[..15])
  {
    ShiftZero(Decode(s).value);
    EncodeDecodeDateTime(s);
  }

  /** With a zero offset a decodable DATE comes back as its first 8 characters. */
  lemma FixDateZero(s: string)
    requires Decode(s).Ok?
    ensures FixDate(s, 0) == Ok(s[..8])
  {
    ShiftZero(Decode(s).value);
    EncodeDecodeDate(s);
  }

  /** Fixing a DATE-TIME twice is fixing it once by the summed offset. */
  lemma FixDateTimeTwice(s: string, d1: int, h1: int, d2: int, h2: int)
    requires FixDateTime(s, d1, h1).Ok?
    ensures FixDateTime(FixDateTime(s, d1, h1).value, d2, h2) == FixDateTime(s, d1 + d2, h1 + h2)
  {
    ShiftShift(Decode(s).value, d1, h1, d2, h2);
  }

  /** The DATE text of the day with ordinal `n`, or OverflowError when `n`
      lies outside the years 1 to 9999. */
  function DateTextAt(n: int): (r: Result<string>)
    ensures r.Ok? <==> 1 <= n <= MaxOrdinal
    ensures r.Ok? ==> r.value == DateText(FromOrdinal(n))
    ensures r.Err? ==> r.error == OutOfRange
  {
    if 1 <= n <= MaxOrdinal then Ok(DateText(FromOrdinal(n))) else Err(OutOfRange)
  }

  /** `_fix_date` in calendar terms: the written date is the day with
      ordinal `n`, `days` ordinals before the decoded one, whatever clock the
      text carried. */
  lemma FixDateByOrdinal(s: string, days: int, n: int)
    requires Decode(s).Ok? && n == ToOrdinal(Decode(s).value.date) - days
    ensures FixDate(s, days) == DateTextAt(n)
  {
    hide Decode, Shift, DateText, FromOrdinal, ToOrdinal, Seconds;
    ShiftWholeDays(Decode(s).value, days);
  }

  /** The DATE text `_fix_date` writes decodes to the day it moved to. */
  lemma FixDateDecodes(s: string, days: int, n: int)
    requires Decode(s).Ok? && n == ToOrdinal(Decode(s).value.date) - days
    requires FixDate(s, days).Ok?
    ensures Decode(FixDate(s, days).value).Ok?
    ensures ToOrdinal(Decode(FixDate(s, days).value).value.date) == n
  {
    ShiftWholeDays(Decode(s).value, days);
  }

  /** Fixing a DATE twice is fixing it once by the summed days: the clock
      that the first fix drops never influences the date. */
  lemma FixDateTwice(s: string, d1: int, d2: int)
    requires FixDate(s, d1).Ok?
    ensures FixDate(FixDate(s, d1).value, d2) == FixDate(s, d1 + d2)
  {
    hide FixDate, Decode, Shift, DateTextAt, DateText, FromOrdinal, ToOrdinal, Seconds;
    var n := ToOrdinal(Decode(s).value.date);
    FixDateDecodes(s, d1, n - d1);
    FixDateByOrdinal(FixDate(s, d1).value, d2, n - d1 - d2);
    FixDateByOrdinal(s, d1 + d2, n - d1 - d2);
  }
}
