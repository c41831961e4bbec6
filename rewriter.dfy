/** The line rewriter of `schedule_fixer/fixer.py`: every line of a calendar
    file goes down exactly one branch, chosen by the first of the markers
    `DTSTAMP`, `DTSTART`, `DTEND` and `UNTIL` it contains. A marked line is
    cut at a fixed position; the part after the cut is decoded, shifted back
    and written again, and the kept prefix and a terminator are glued around
    it. A line with no marker is written as it is. */
module Rewriter {
  import opened Text
  import opened Codec

  /** The branch a line takes. */
  datatype Rule = Stamp | Start | End | Until | Verbatim

  /** The markers, in the order the branches test them. */
  const Markers: seq<string> := ["DTSTAMP", "DTSTART", "DTEND", "UNTIL"]

  /** The rule whose marker is `Markers[k]`. */
  function RuleAt(k: nat): Rule
    requires k < 4
  {
    [Stamp, Start, End, Until][k]
  }

  /** The if/elif chain: the first marker the line contains picks its branch. */
  function RuleFor(line: string): (r: Rule)
    ensures r == Verbatim ==> forall k :: 0 <= k < 4 ==> !Contains(line, Markers[k])
    ensures forall k :: 0 <= k < 4 && r == RuleAt(k) ==> Contains(line, Markers[k])
  {
    assert Markers[0] == "DTSTAMP" && Markers[1] == "DTSTART";
    assert Markers[2] == "DTEND" && Markers[3] == "UNTIL";
    if Contains(line, "DTSTAMP") then Stamp
    else if Contains(line, "DTSTART") then Start
    else if Contains(line, "DTEND") then End
    else if Contains(line, "UNTIL") then Until
    else Verbatim
  }

  /** Dispatch is first-match: a line takes the branch of marker `k` exactly
      when it contains that marker and none tested before it, and it is
      left verbatim exactly when it contains none of them. */
  lemma RuleForFirstMatch(line: string)
    ensures forall k :: 0 <= k < 4 ==>
      (RuleFor(line) == RuleAt(k) <==>
        Contains(line, Markers[k]) && forall j :: 0 <= j < k ==> !Contains(line, Markers[j]))
    ensures RuleFor(line) == Verbatim <==> forall k :: 0 <= k < 4 ==> !Contains(line, Markers[k])
  {
    assert Markers[0] == "DTSTAMP" && Markers[1] == "DTSTART";
    assert Markers[2] == "DTEND" && Markers[3] == "UNTIL";
  }

  /** Where a marked line is cut: after `DTSTAMP:` (8), after
      `DTSTART;TZID=America/New_York:` (30), after
      `DTEND;TZID=America/New_York:` (28), and six past the first `UNTIL=`
      (which is 5 when the line has `UNTIL` but no `UNTIL=`, as `find`
      gives -1). */
  function Cut(rule: Rule, line: string): (k: nat)
    requires rule != Verbatim
    ensures rule == Until ==> k == Find(line, "UNTIL=") + 6
    ensures rule == Until && Contains(line, "UNTIL=") ==> OccursAt(line, "UNTIL=", k - 6)
    ensures rule == Until && !Contains(line, "UNTIL=") ==> k == 5
  {
    match rule
    case Stamp => 8
    case Start => 30
    case End => 28
    case Until => Find(line, "UNTIL=") + 6
  }

  /** The part of the line handed to the codec: `line[8:-1]` for `DTSTAMP`
      (the `Z` stays in, the last character is dropped), `line[cut:]` otherwise.
      No character is lost at the cut: the kept prefix and the field rebuild
      the line, up to the last character that `DTSTAMP` drops. */
  function Field(rule: Rule, line: string): (f: string)
    requires rule != Verbatim
    ensures rule != Stamp ==> Take(line, Cut(rule, line)) + f == line
    ensures rule == Stamp && |line| > 8 ==> Take(line, 8) + f + [line[|line| - 1]] == line
    ensures rule == Stamp && |line| <= 9 ==> f == ""
  {
    hide Find;
    if rule == Stamp then Drop(DropLast(line), 8) else Drop(line, Cut(rule, line))
  }

  /** What is written after the new value. */
  function Terminator(rule: Rule): (t: string)
    ensures |t| >= 1 && t[|t| - 1] == '\n'
    ensures t == "Z\n" <==> rule == Stamp
  {
    if rule == Stamp then "Z\n" else "\n"
  }

  /** The new value of the field: a DATE shifted by whole days for `UNTIL`
      (the hours are ignored), a DATE-TIME shifted by days and hours otherwise. */
  function FixField(rule: Rule, field: string, days: int, hours: int): (r: Result<string>)
    requires rule != Verbatim
    ensures r.Ok? ==> |r.value| == (if rule == Until then 8 else 15)
    ensures r.Ok? <==>
              Decode(field).Ok? && Shift(Decode(field).value, days, if rule == Until then 0 else hours).Ok?
  {
    if rule == Until then FixDate(field, days) else FixDateTime(field, days, hours)
  }

  /** The body of the loop in `fix`: the line as written, or the error that
      aborts the run. */
  function FixLine(line: string, days: int, hours: int): (r: Result<string>)
    ensures RuleFor(line) == Verbatim ==> r == Ok(line)
    ensures RuleFor(line) != Verbatim ==>
      var rule := RuleFor(line);
      var field := Field(rule, line);
      (r.Ok? <==> FixField(rule, field, days, hours).Ok?) &&
      (r.Ok? ==> r.value == Take(line, Cut(rule, line)) + FixField(rule, field, days, hours).value + Terminator(rule)) &&
      (r.Err? ==> r.error == FixField(rule, field, days, hours).error)
  {
    var rule := RuleFor(line);
    if rule == Verbatim then Ok(line)
    else
      match FixField(rule, Field(rule, line), days, hours)
      case Err(e) => Err(e)
      case Ok(v) => Ok(Take(line, Cut(rule, line)) + v + Terminator(rule))
  }

  /** A rewritten line decodes, just after its kept prefix, to the shifted
      value of what the original line held at its cut: the full timestamp for
      the date-time markers, midnight of the shifted day for `UNTIL`. */
  lemma FixLineShifts(line: string, days: int, hours: int)
    requires RuleFor(line) != Verbatim && FixLine(line, days, hours).Ok?
    ensures
      var rule := RuleFor(line);
      var k := |Take(line, Cut(rule, line))|;
      var w := if rule == Until then 8 else 15;
      var out := FixLine(line, days, hours).value;
      var t := Decode(Field(rule, line)).value;
      k + w + |Terminator(rule)| == |out| &&
      out[..k] == Take(line, Cut(rule, line)) &&
      out[k + w..] == Terminator(rule) &&
      Decode(out[k..k + w]) ==
        (if rule == Until then Ok(Midnight(Shift(t, days, 0).value.date)) else Shift(t, days, hours))
  {
    hide Decode, Shift, FixDate, FixDateTime, Contains, Find;
    var rule := RuleFor(line);
    var p := Take(line, Cut(rule, line));
    var v := FixField(rule, Field(rule, line), days, hours).value;
    var out := p + v + Terminator(rule);
    assert out[..|p|] == p;
    assert out[|p|..|p| + |v|] == v;
    assert out[|p| + |v|..] == Terminator(rule);
  }

  /** The hours offset never touches an `UNTIL` line. */
  lemma UntilIgnoresHours(line: string, days: int, h1: int, h2: int)
    requires RuleFor(line) == Until
    ensures FixLine(line, days, h1) == FixLine(line, days, h2)
  {
  }

  /** A marked line whose field is already canonical: the kept prefix, the
      field's value written as the encoder writes it, and the terminator. */
  predicate Canonical(line: string) {
    var rule := RuleFor(line);
    rule != Verbatim &&
    var field := Field(rule, line);
    var w := if rule == Until then 8 else 15;
    Decode(field).Ok? && |field| >= w && (rule != Until ==> field[8] == 'T') &&
    line == Take(line, Cut(rule, line)) + field[..w] + Terminator(rule)
  }

  /** With a zero offset a canonical line comes out exactly as it went in. */
  lemma FixLineZeroOffset(line: string)
    requires Canonical(line)
    ensures FixLine(line, 0, 0) == Ok(line)
  {
    var rule := RuleFor(line);
    var field := Field(rule, line);
    if rule == Until {
      FixDateZero(field);
    } else {
      FixDateTimeZero(field);
    }
  }

  /** `fix`: the lines are rewritten one by one and written in order; the
      first line that fails aborts the run, leaving the lines before it
      written and nothing after. */
  method Fix(lines: seq<string>, days: int, hours: int) returns (written: seq<string>, failure: Option<Error>)
    ensures |written| <= |lines|
    ensures forall i :: 0 <= i < |written| ==> FixLine(lines[i], days, hours) == Ok(written[i])
    ensures failure.None? <==> |written| == |lines|
    ensures failure.Some? ==> FixLine(lines[|written|], days, hours) == Err(failure.value)
    ensures forall i :: 0 <= i < |written| && RuleFor(lines[i]) == Verbatim ==> written[i] == lines[i]
  {
    hide FixLine, RuleFor, Contains, FixField, Field;
    written := [];
    var i := 0;
    while i < |lines|
      invariant 0 <= i <= |lines| && |written| == i
      invariant forall j :: 0 <= j < i ==> FixLine(lines[j], days, hours) == Ok(written[j])
    {
      var r := FixLine(lines[i], days, hours);
      if r.Err? {
        return written, Some(r.error);
      }
      written := written + [r.value];
      i := i + 1;
    }
    failure := None;
  }
}
