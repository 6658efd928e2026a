/**
 * The payload builder of script.js: `getPreviousDay` and `formatPayload`.
 * A JavaScript `Date` is either a UTC date-time (Some) or an `Invalid Date`
 * (None); calling `toISOString` on an invalid date throws a RangeError, which
 * is a Failure here.
 */
module Payloads {
  import opened Wrappers
  import opened Calendar
  import opened IsoFormat

  /**
   * A date-time that a parsed CSV cell can denote. Years are kept to 1..9999 so
   * that the day before is still printed with a four-digit year.
   */
  type Instant = t: DateTime | PrintableDateTime(t) && t.date.year >= 1
    witness DateTime(Date(1970, 1, 1), 0, 0, 0, 0)

  /** What a failed `toISOString` throws ("Invalid time value"). */
  datatype Thrown = RangeError

  /** One CSV row: column header to cell text. */
  type Row = map<string, string>

  /** Column names, the first with a literal backslash. */
  const StartedColumn := "Date\\Started"
  const EndColumn := "End"

  /** The fixed top-level id every payload carries. */
  const PayloadId := "673cab8c2b00164687c238b5"

  /** The time of day appended to both ends of the outer window. */
  const ElevenPm := "T23:00:00.000Z"

  datatype Interval = Interval(startTime: string, endTime: string, projectId: string)

  datatype Payload = Payload(id: string, intervals: seq<Interval>, startTime: string, endTime: string)

  /** `line[key]`: the cell, or undefined when the row has no such column. */
  function Field(line: Row, key: string): Option<string>
  {
    if key in line then Some(line[key]) else None
  }

  /**
   * `new Date(value)`: `parse` stands for JavaScript's date-string parser;
   * `new Date(undefined)` is an invalid date.
   */
  function NewDate(parse: string -> Option<Instant>, value: Option<string>): Option<Instant>
  {
    match value
    case None => None
    case Some(s) => parse(s)
  }

  /** `date.toISOString()`, which throws on an invalid date. */
  function ToIsoStringOf(date: Option<Instant>): (r: Result<string, Thrown>)
    ensures r.Success? <==> date.Some?
    ensures date.Some? ==> |r.value| == 24 && r.value[..10] == IsoDate(date.value.date) && r.value[10] == 'T'
  {
    match date
    case None => Failure(RangeError)
    case Some(t) => Success(ToIsoString(t))
  }

  /** The calendar day a window bound `YYYY-MM-DDT23:00:00.000Z` stands for, if it has that form. */
  function StampDay(s: string): (r: Option<Date>)
    ensures r.Some? ==> |s| == 24 && s[10..] == ElevenPm
  {
    if |s| == 24 && s[10..] == ElevenPm then ParseIsoDate(s[..10]) else None
  }

  /** `s` is exactly 23:00:00.000 UTC on day `d`. */
  predicate StampsDay(s: string, d: Date) {
    StampDay(s) == Some(d)
  }

  /** The date part of a printable date-time, followed by `T23:00:00.000Z`, marks 23:00 on its day. */
  lemma ElevenPmStampsDay(t: DateTime)
    requires PrintableDateTime(t)
    ensures StampsDay(IsoDatePart(t) + ElevenPm, t.date)
  {
    var s := IsoDatePart(t) + ElevenPm;
    assert s[..10] == IsoDate(t.date);
    assert s[10..] == ElevenPm;
    IsoDateRoundTrip(t.date);
  }

  /**
   * `getPreviousDay(date)`: copy the date, step it back one calendar day with
   * `setDate(getDate() - 1)`, print it and keep the date part at 23:00 UTC.
   * An invalid date stays invalid through `setDate`, so `toISOString` throws.
   */
  function GetPreviousDay(date: Option<Instant>): (r: Result<string, Thrown>)
    ensures r.Success? <==> date.Some?
    ensures date.Some? ==> StampsDay(r.value, PreviousDate(date.value.date))
  {
    match date
    case None => Failure(RangeError)
    case Some(t) =>
      var newDate := t.(date := PreviousDate(t.date));
      ElevenPmStampsDay(newDate);
      Success(IsoDatePart(newDate) + ElevenPm)
  }

  /**
   * `formatPayload(line, projectId)`: one interval carrying the row's raw start
   * and end text and the project id, a fixed id, and an outer window from
   * 23:00 on the day before the start to 23:00 on the day of the end.
   */
  function FormatPayload(line: Row, projectId: string, parse: string -> Option<Instant>): (r: Result<Payload, Thrown>)
    ensures r.Success? <==>
      StartedColumn in line && EndColumn in line
      && parse(line[StartedColumn]).Some? && parse(line[EndColumn]).Some?
    ensures r.Success? ==>
      && r.value.id == PayloadId
      && r.value.intervals == [Interval(line[StartedColumn], line[EndColumn], projectId)]
  {
    var intervalStartTime := NewDate(parse, Field(line, StartedColumn));
    var intervalEndTime := NewDate(parse, Field(line, EndColumn));
    var outerStartTime :- GetPreviousDay(intervalStartTime);
    var endIso :- ToIsoStringOf(intervalEndTime);
    var outerEndTime := FirstField(endIso, 'T') + ElevenPm;
    Success(Payload(
      PayloadId,
      [Interval(line[StartedColumn], line[EndColumn], projectId)],
      outerStartTime,
      outerEndTime))
  }

  /**
   * The outer window of a payload runs from 23:00 UTC on the day before the
   * parsed start to 23:00 UTC on the day of the parsed end.
   */
  lemma OuterWindowDays(line: Row, projectId: string, parse: string -> Option<Instant>)
    requires StartedColumn in line && EndColumn in line
    requires parse(line[StartedColumn]).Some? && parse(line[EndColumn]).Some?
    ensures
      var p := FormatPayload(line, projectId, parse).value;
      && StampsDay(p.startTime, PreviousDate(parse(line[StartedColumn]).value.date))
      && StampsDay(p.endTime, parse(line[EndColumn]).value.date)
  {
    var end := parse(line[EndColumn]).value;
    ElevenPmStampsDay(end);
    assert FirstField(ToIsoString(end), 'T') == IsoDatePart(end);
  }

  /** The result of getPreviousDay depends only on the date, never on the time of day. */
  lemma GetPreviousDayIgnoresTime(a: Instant, b: Instant)
    requires a.date == b.date
    ensures GetPreviousDay(Some(a)) == GetPreviousDay(Some(b))
  {
  }

  /**
   * Whenever the interval does not end on a day before it starts, the outer
   * window starts on a strictly earlier day than it ends.
   */
  lemma OuterWindowOrdered(line: Row, projectId: string, parse: string -> Option<Instant>)
    requires StartedColumn in line && EndColumn in line
    requires parse(line[StartedColumn]).Some? && parse(line[EndColumn]).Some?
    requires !Before(parse(line[EndColumn]).value.date, parse(line[StartedColumn]).value.date)
    ensures
      var p := FormatPayload(line, projectId, parse).value;
      StampDay(p.startTime).Some? && StampDay(p.endTime).Some?
      && Before(StampDay(p.startTime).value, StampDay(p.endTime).value)
  {
    OuterWindowDays(line, projectId, parse);
    var s := parse(line[StartedColumn]).value.date;
    var e := parse(line[EndColumn]).value.date;
    if s != e {
      BeforeTransitive(PreviousDate(s), s, e);
    }
  }

  /** For an interval within one day the outer window is exactly that one day long. */
  lemma SameDayWindowIsOneDay(line: Row, projectId: string, parse: string -> Option<Instant>)
    requires StartedColumn in line && EndColumn in line
    requires parse(line[StartedColumn]).Some? && parse(line[EndColumn]).Some?
    requires parse(line[EndColumn]).value.date == parse(line[StartedColumn]).value.date
    ensures
      var p := FormatPayload(line, projectId, parse).value;
      StampDay(p.startTime).Some? && StampDay(p.endTime).Some?
      && NextDate(StampDay(p.startTime).value) == StampDay(p.endTime).value
  {
    OuterWindowDays(line, projectId, parse);
    NextOfPrevious(parse(line[StartedColumn]).value.date);
  }

  /** 10:00 on 5 November 2024 gives 23:00 on 4 November 2024. */
  lemma GetPreviousDayExample(t: Instant)
    requires t == DateTime(Date(2024, 11, 5), 10, 0, 0, 0)
    ensures GetPreviousDay(Some(t)) == Success("2024-11-04T23:00:00.000Z")
  {
    var back := t.(date := Date(2024, 11, 4));
    var day := IsoDatePart(back);
    assert day == "2024-11-04" by {
      NovemberFourth();
    }
    assert GetPreviousDay(Some(t)) == Success(day + ElevenPm);
    assert day + ElevenPm == "2024-11-04T23:00:00.000Z" by {
      NovemberStamps();
    }
  }

  /** The zero-padded fields of 4 and 5 November 2024. */
  lemma NovemberFields()
    ensures Digits(2024, 4) == "2024" && Digits(11, 2) == "11"
    ensures Digits(4, 2) == "04" && Digits(5, 2) == "05"
  {
    assert DigitChar(0) == '0' && DigitChar(1) == '1' && DigitChar(2) == '2';
    assert DigitChar(4) == '4' && DigitChar(5) == '5';
    assert Digits(0, 0) == [];
    assert Digits(2, 1) == "2" && Digits(0, 1) == "0" && Digits(1, 1) == "1";
    assert Digits(20, 2) == Digits(2, 1) + [DigitChar(0)] == "20";
    assert Digits(202, 3) == Digits(20, 2) + [DigitChar(2)] == "202";
    assert Digits(2024, 4) == Digits(202, 3) + [DigitChar(4)] == "2024";
    assert Digits(11, 2) == Digits(1, 1) + [DigitChar(1)] == "11";
    assert Digits(4, 2) == Digits(0, 1) + [DigitChar(4)] == "04";
    assert Digits(5, 2) == Digits(0, 1) + [DigitChar(5)] == "05";
  }

  /** The printed form of the day before the example's date. */
  lemma NovemberFourth()
    ensures IsoDate(Date(2024, 11, 4)) == "2024-11-04"
  {
    NovemberFields();
  }

  /** The printed form of the example's date. */
  lemma NovemberFifth()
    ensures IsoDate(Date(2024, 11, 5)) == "2024-11-05"
  {
    NovemberFields();
  }

  /** The window bounds the examples expect, as text. */
  lemma NovemberStamps()
    ensures "2024-11-04" + ElevenPm == "2024-11-04T23:00:00.000Z"
    ensures "2024-11-05" + ElevenPm == "2024-11-05T23:00:00.000Z"
  {
  }

  /** The worked example of a single mapped row. */
  lemma FormatPayloadExample(parse: string -> Option<Instant>)
    requires parse("2024-11-05T10:00:00Z") == Some(DateTime(Date(2024, 11, 5), 10, 0, 0, 0))
    requires parse("2024-11-05T12:00:00Z") == Some(DateTime(Date(2024, 11, 5), 12, 0, 0, 0))
    ensures
      var line := map["Task" := "Acme", StartedColumn := "2024-11-05T10:00:00Z", EndColumn := "2024-11-05T12:00:00Z"];
      FormatPayload(line, "proj-1", parse) == Success(Payload(
        PayloadId,
        [Interval("2024-11-05T10:00:00Z", "2024-11-05T12:00:00Z", "proj-1")],
        "2024-11-04T23:00:00.000Z",
        "2024-11-05T23:00:00.000Z"))
  {
    var line := map["Task" := "Acme", StartedColumn := "2024-11-05T10:00:00Z", EndColumn := "2024-11-05T12:00:00Z"];
    var ts := parse("2024-11-05T10:00:00Z").value;
    var te := parse("2024-11-05T12:00:00Z").value;
    assert line[StartedColumn] == "2024-11-05T10:00:00Z" && line[EndColumn] == "2024-11-05T12:00:00Z";
    assert GetPreviousDay(Some(ts)) == Success("2024-11-04T23:00:00.000Z") by {
      GetPreviousDayExample(ts);
    }
    var day := IsoDatePart(te);
    assert day == "2024-11-05" by {
      NovemberFifth();
    }
    assert FirstField(ToIsoString(te), 'T') == day;
    assert day + ElevenPm == "2024-11-05T23:00:00.000Z" by {
      NovemberStamps();
    }
  }
}
