# schedule-fixer date fixer, modelled in Dafny

`schedule_fixer/fixer.py` moves every date in an iCalendar file back by a
fixed offset of days and hours. It reads the file line by line. A line that
contains `DTSTAMP`, `DTSTART`, `DTEND` or `UNTIL` (the first of these it
contains decides) is cut at a hard-coded position. The text after the cut
is decoded as a compact RFC 5545 DATE (`YYYYMMDD`, section 3.3.4) or
DATE-TIME (`YYYYMMDDTHHMMSS`, section 3.3.5) and shifted back with
calendar carry. It is then written again, zero-padded, between the kept
prefix and a new line ending. Every other line is copied. A value that
does not decode, or a shift that leaves the years 1 to 9999, aborts the
run. The lines written before that point stay written.

The model has four modules, plus worked examples:

- `Text` (`text.dfy`) holds decimal digits, zero padding (`f"{n:04}"`,
  `f"{n:02}"`), Python's clamped slices and Python's substring search
  (`in`, `str.find`).
- `Civil` (`civil.dfy`) holds proleptic Gregorian calendar arithmetic over
  the years 1 to 9999:
  - days-from-civil (`ToOrdinal`), in closed form;
  - civil-from-days (`FromOrdinal`), found by walking through the years and
    months;
  - proofs that each undoes the other.
- `Codec` (`codec.dfy`) holds the codec and the shift:
  - the naive timestamp;
  - decoding (`_date_from_ical_time`) and the two encoders;
  - the shift by a `timedelta`, as seconds since 0001-01-01T00:00:00;
  - `_fix_date` and `_fix_date_and_time`;
  - round-trip, zero-offset, composition and undo lemmas.
- `Rewriter` (`rewriter.dfy`) holds the line rewriter:
  - the first-match dispatch;
  - the cut positions 8, 30, 28, and `find("UNTIL=") + 6`;
  - the rewrite of one line;
  - `Fix`, the loop over the lines.
- `Scenarios` (`scenarios.dfy`) holds concrete lines and values and what
  the fixer makes of them.

The behaviour followed is the code's:

- A DATE decodes to midnight of that day. There is no date-only timestamp,
  because the code always builds a `datetime`.
- Below 15 characters only the date is read. From 15 characters on, the
  clock at characters 9-15 is read and checked, even by `_fix_date`, which
  then drops it. Character 8 is never checked, and characters past 15 are
  ignored.
- So an `UNTIL` value that is not the last part of its rule behaves in two
  ways. A DATE value followed by another part aborts the run, because that
  part is read as its clock (`Scenarios.UntilNotLastExample`). A DATE-TIME
  value decodes, and the line is cut down to the shifted date. The clock,
  the `Z` and every part after it are dropped
  (`Scenarios.UntilDateTimeExample`).
- A line with `UNTIL` but no `UNTIL=` is cut at 5, because `find` gives -1.
- The leap-day carry example uses 2024. 2022 is not a leap year.

## Model

| member | source | states |
|---|---|---|
| Text.Pad | schedule_fixer/fixer.py:74 | `n` written in exactly `width` decimal digits, zero-padded, whose value is `n` |
| Text.PadValueOf | schedule_fixer/fixer.py:65 | zero padding undoes digit reading: a digit string is its own value padded to its length |
| Text.ValueOfInjective | schedule_fixer/fixer.py:47-49 | two digit strings of one length with one value are equal |
| Text.Take | schedule_fixer/fixer.py:29 | Python's `s[:k]`: the first `min(k, len)` characters |
| Text.Drop | schedule_fixer/fixer.py:31 | Python's `s[k:]`: the characters after the first `min(k, len)` |
| Text.DropLast | schedule_fixer/fixer.py:29 | Python's `s[:-1]`: all but the last character, empty stays empty |
| Text.Contains | schedule_fixer/fixer.py:28-34 | Python's `pat in s`: the empty pattern is in every string, and a pattern that is in `s` is no longer than `s`; `Text.Find` gives -1 exactly when it is not in `s` |
| Text.Find | schedule_fixer/fixer.py:35 | `str.find`: the first index of an occurrence, -1 exactly when there is none |
| Text.AbsentWithout | schedule_fixer/fixer.py:28-34 | a pattern with a character absent from the line neither occurs in it nor is found |
| Text.FindFirst | schedule_fixer/fixer.py:35 | `find` returns an occurrence when no earlier position can hold the pattern |
| Civil.DaysInMonth | schedule_fixer/fixer.py:52 | month lengths 28 to 31, and 29 exactly for February of a leap year |
| Civil.DaysBeforeNextYear | schedule_fixer/fixer.py:85 | the closed form for the days before a year grows by exactly that year's length |
| Civil.ToOrdinal | schedule_fixer/fixer.py:85 | days-from-civil: a valid date's ordinal lies within its own year's ordinals, within 1 to 3652059 |
| Civil.FromOrdinal | schedule_fixer/fixer.py:85 | civil-from-days: every ordinal in range names a valid date with exactly that ordinal |
| Civil.SameOrdinalSameYear | schedule_fixer/fixer.py:85 | dates with one ordinal lie in one year |
| Civil.ToOrdinalInjective | schedule_fixer/fixer.py:85 | distinct valid dates have distinct ordinals |
| Civil.FromOrdinalToOrdinal | schedule_fixer/fixer.py:85 | civil-from-days undoes days-from-civil |
| Codec.Seconds | schedule_fixer/fixer.py:98 | a valid timestamp lies 0 to 315537897599 seconds after 0001-01-01T00:00:00 |
| Codec.FromSeconds | schedule_fixer/fixer.py:98 | every second in range is the position of a valid timestamp |
| Codec.SecondsInjective | schedule_fixer/fixer.py:98 | distinct valid timestamps lie at distinct seconds |
| Codec.FromSecondsSeconds | schedule_fixer/fixer.py:98 | the timestamp at a timestamp's own second is that timestamp |
| Codec.OffsetSeconds | schedule_fixer/fixer.py:98 | `timedelta(days=days, hours=hours)` is `24 * days + hours` hours of 3600 seconds; `Codec.ShiftShift` shows that offsets add |
| Codec.AtSeconds | schedule_fixer/fixer.py:98 | a position yields a timestamp exactly when it is in range, else OverflowError |
| Codec.Shift | schedule_fixer/fixer.py:98 | `t - timedelta(days, hours)` succeeds exactly when the result is in range; the result lies the offset's seconds earlier |
| Codec.ShiftLands | schedule_fixer/fixer.py:98 | the shift is the valid timestamp the offset's seconds earlier |
| Codec.ShiftZero | schedule_fixer/fixer.py:98 | shifting by (0, 0) changes nothing |
| Codec.ShiftShift | schedule_fixer/fixer.py:98 | two shifts in a row equal one shift by the summed days and hours |
| Codec.ShiftUndo | schedule_fixer/fixer.py:98 | shifting back by the opposite offset restores the timestamp |
| Codec.ShiftWholeDays | schedule_fixer/fixer.py:85 | a shift by whole days keeps the clock and moves the date exactly that many ordinals back, failing exactly off the range |
| Codec.DateText | schedule_fixer/fixer.py:74 | the date text is 8 digits |
| Codec.ClockText | schedule_fixer/fixer.py:65 | the clock text is 6 digits |
| Codec.EncodeDate | schedule_fixer/fixer.py:68-74 | `_ical_date_from_datetime` writes 8 digits |
| Codec.EncodeDateTime | schedule_fixer/fixer.py:59-65 | `_ical_datetime_from_datetime` writes 15 characters: the date text, `T` at index 8, the clock text |
| Codec.ReadDate | schedule_fixer/fixer.py:47-49 | the 8 date characters give a valid date, or ValueError |
| Codec.ReadClock | schedule_fixer/fixer.py:53-56 | the 6 clock characters give hours below 24 and minutes and seconds below 60, or ValueError |
| Codec.ReadDateText | schedule_fixer/fixer.py:47-52 | reading a date's text gives the date back |
| Codec.DateTextRead | schedule_fixer/fixer.py:47-52 | a date that reads is written back as the same 8 characters |
| Codec.ReadClockText | schedule_fixer/fixer.py:53-56 | reading a clock's text gives the timestamp back |
| Codec.ClockTextRead | schedule_fixer/fixer.py:53-56 | a clock that reads is written back as the same 6 characters |
| Codec.Decode | schedule_fixer/fixer.py:41-56 | a decode that succeeds saw at least 8 characters and gives a valid timestamp, at midnight below 15 characters; failure is ValueError |
| Codec.DecodeReads | schedule_fixer/fixer.py:47-56 | a successful decode read exactly characters 0-8 as its date and, from 15 characters on, 9-15 as its clock |
| Codec.DecodeAccepts | schedule_fixer/fixer.py:41-56 | any text carrying a date's text at 0-8, and its clock's at 9-15 from 15 characters on, decodes to that timestamp from 15 characters on and to midnight of its date below 15, whatever stands at 8 and past 15 |
| Codec.DecodeEncodeDateTime | schedule_fixer/fixer.py:59-65 | decoding an encoded DATE-TIME gives the timestamp back |
| Codec.DecodeEncodeDate | schedule_fixer/fixer.py:68-74 | decoding an encoded DATE gives midnight of its date |
| Codec.EncodeDecodeDateTime | schedule_fixer/fixer.py:59-65 | encoding a decoded DATE-TIME with `T` at 8 reproduces its first 15 characters |
| Codec.EncodeDecodeDate | schedule_fixer/fixer.py:68-74 | encoding a decoded DATE reproduces its first 8 characters |
| Codec.FixDate | schedule_fixer/fixer.py:77-86 | `_fix_date` succeeds exactly when the text decodes and the day shift stays in range; its 8 characters decode to midnight of the shifted day; the error says which step failed |
| Codec.FixDateTime | schedule_fixer/fixer.py:89-99 | `_fix_date_and_time` succeeds exactly when the text decodes and the shift stays in range; its 15 characters decode to the shifted timestamp; the error says which step failed |
| Codec.FixDateTimeZero | schedule_fixer/fixer.py:89-99 | a zero offset gives back the first 15 characters of a decodable DATE-TIME |
| Codec.FixDateZero | schedule_fixer/fixer.py:77-86 | a zero offset gives back the first 8 characters of a decodable DATE |
| Codec.FixDateTimeTwice | schedule_fixer/fixer.py:89-99 | fixing a DATE-TIME twice equals fixing it once by the summed offset |
| Codec.DateTextAt | schedule_fixer/fixer.py:85-86 | the DATE text of an ordinal, or OverflowError exactly off the range |
| Codec.FixDateByOrdinal | schedule_fixer/fixer.py:77-86 | `_fix_date` writes the day `days` ordinals before the decoded one, whatever clock the text carried |
| Codec.FixDateDecodes | schedule_fixer/fixer.py:77-86 | the text `_fix_date` writes decodes to the day it moved to |
| Codec.FixDateTwice | schedule_fixer/fixer.py:77-86 | fixing a DATE twice equals fixing it once by the summed days |
| Rewriter.RuleFor | schedule_fixer/fixer.py:28-34 | an unmarked line contains none of the four markers, and a marked line contains its own marker; `Rewriter.RuleForFirstMatch` states the first-match order |
| Rewriter.RuleForFirstMatch | schedule_fixer/fixer.py:28-36 | a line takes the branch of a marker exactly when it contains it and none tested before; it is copied exactly when it contains none |
| Rewriter.Cut | schedule_fixer/fixer.py:35 | the `UNTIL` cut is `find("UNTIL=") + 6`: just after the first `UNTIL=`, or 5 without one |
| Rewriter.Field | schedule_fixer/fixer.py:29-36 | no character is lost at the cut: the kept prefix and the field rebuild the line, except that for `DTSTAMP` the last character is dropped (`line[8:-1]`) |
| Rewriter.Terminator | schedule_fixer/fixer.py:29-36 | every rewritten line ends in a new line, preceded by `Z` exactly for `DTSTAMP` |
| Rewriter.FixField | schedule_fixer/fixer.py:29-36 | the new value is 8 characters for `UNTIL` and 15 otherwise, and exists exactly when the field decodes and its shift (hours ignored for `UNTIL`) stays in range |
| Rewriter.FixLine | schedule_fixer/fixer.py:28-36 | an unmarked line is copied; a marked one becomes its kept prefix, the new value and the terminator, or fails with the codec's error |
| Rewriter.FixLineShifts | schedule_fixer/fixer.py:28-36 | a rewritten line keeps its prefix and ends in the terminator, and the text between decodes to the shifted value of the original field |
| Rewriter.UntilIgnoresHours | schedule_fixer/fixer.py:34-36 | the hours offset never changes an `UNTIL` line |
| Rewriter.FixLineZeroOffset | schedule_fixer/fixer.py:28-36 | with a zero offset a line already in canonical form comes out unchanged |
| Rewriter.Fix | schedule_fixer/fixer.py:27-38 | the lines are written in order, one per line read, each the rewrite of its input and unmarked lines unchanged, up to the first failing line, which stops the run with its error |
| Scenarios.FixDateTimeLands | schedule_fixer/fixer.py:89-99 | a DATE-TIME that reads as `t`, shifted onto `u`, is rewritten as the text of `u` |
| Scenarios.FixDateLands | schedule_fixer/fixer.py:77-86 | a DATE that reads as one day, shifted onto another, is rewritten as the other's text |
| Scenarios.FixDateLeaves | schedule_fixer/fixer.py:85 | a DATE cannot move before 0001-01-01: OverflowError |
| Scenarios.StampField | schedule_fixer/fixer.py:89-99 | 20220825T192700Z less 10 days is 20220815T192700 |
| Scenarios.StampExample | schedule_fixer/fixer.py:28-29 | `DTSTAMP:20220825T192700Z` less 10 days is `DTSTAMP:20220815T192700Z` |
| Scenarios.StartField | schedule_fixer/fixer.py:89-99 | 20220902T110000 less 1 day and 1 hour is 20220901T100000 |
| Scenarios.StartExample | schedule_fixer/fixer.py:30-31 | the `DTSTART;TZID=America/New_York:` line less (1, 1) ends in `20220901T100000` |
| Scenarios.UntilField | schedule_fixer/fixer.py:77-86 | 20221209 less 5 days is 20221204 |
| Scenarios.WeeklyUntil | schedule_fixer/fixer.py:34-36 | a weekly rule line whose value after `UNTIL=` contains no `D` (so no other marker) takes the `UNTIL` branch and is cut just after `UNTIL=` |
| Scenarios.UntilExample | schedule_fixer/fixer.py:34-36 | `...UNTIL=20221209` less 5 days, with any hours offset, is `...UNTIL=20221204` |
| Scenarios.UntilNotLastField | schedule_fixer/fixer.py:51-56 | an `UNTIL` value followed by `;BYMONTH=12` is read as a DATE-TIME and fails |
| Scenarios.UntilNotLastExample | schedule_fixer/fixer.py:34-36 | a rule whose DATE-valued `UNTIL` is followed by another part aborts the run |
| Scenarios.UntilDateTimeField | schedule_fixer/fixer.py:77-86 | `20221209T045959Z;WKST=SU` decodes with its clock, and less 5 days is written as the date `20221204` |
| Scenarios.UntilDateTimeExample | schedule_fixer/fixer.py:34-36 | a rule whose DATE-TIME `UNTIL` is followed by another part does not abort: with any hours offset, it becomes `...UNTIL=20221204` and loses the clock, the `Z` and the parts after it |
| Scenarios.VerbatimExample | schedule_fixer/fixer.py:38 | an unmarked line is written unchanged |
| Scenarios.MonthThirteenDate | schedule_fixer/fixer.py:52 | `20221302` is not a date |
| Scenarios.MonthThirteenField | schedule_fixer/fixer.py:56 | a DATE-TIME in month 13 does not decode |
| Scenarios.MonthThirteenExample | schedule_fixer/fixer.py:32-33 | a `DTEND` line in month 13 aborts the run |
| Scenarios.MonthEndCarry | schedule_fixer/fixer.py:85 | one day before 2022-03-01 is 2022-02-28 |
| Scenarios.LeapDayCarry | schedule_fixer/fixer.py:85 | one day before 2024-03-01 is 2024-02-29 |
| Scenarios.YearEndCarry | schedule_fixer/fixer.py:98 | one hour before 2022-01-01T00:00:00 is 2021-12-31T23:00:00 |
| Scenarios.BeforeYearOne | schedule_fixer/fixer.py:85 | one day before 0001-01-01 is OverflowError |

## Left out

- Opening, reading, writing and closing the files (schedule_fixer/fixer.py:26). The input is a sequence of lines and the output the sequence written. A failure is returned as a value with the lines written before it, not raised.
- Text-mode newline translation. The lines are taken as Python hands them over, with `\r\n` already turned into `\n`.
- Time zones. `TZID` and the `Z` suffix are never interpreted, so every value is naive clock time.
- Python's `datetime`, `timedelta` and `fromisoformat`. They are replaced by explicit arithmetic. Validation: ASCII digits, a valid proleptic Gregorian date in the years 1 to 9999, hours below 24, minutes and seconds below 60.
- Shift: a position in seconds. A result outside the years 1 to 9999 is `OutOfRange`. `timedelta`'s own limit of 999999999 days is not modelled separately: an offset past it lands outside the years 1 to 9999 and fails with the same OverflowError.
- `FromOrdinal` walks through years and months rather than using CPython's closed-form civil-from-days; both give the unique date with the ordinal.
- The tkinter forms (schedule_fixer/fixer_form.py, schedule_fixer/form/fixer_form.py, schedule_fixer/form/settings_pane.py) and the path helpers in schedule_fixer/fs_util.py. They are user interface and `os.path` wrappers, with no part in the rewriting.
- Codec.ReadClock: hour 24 is rejected as ValueError, as in the Python releases of the code's time. Newer `fromisoformat` releases that read `24:00:00` as midnight of the next day are not modelled.
- Codec.EncodeDate: its contract states only the length and digits of the text. What the text means is stated by Codec.DecodeEncodeDate and Codec.EncodeDecodeDate.
