# Timesheet filler: payload builder and row loop

The program reads time-tracking rows from a CSV export. It looks up each row's
`Task` (a company name) in a mapping to a project id. For every mapped row it
builds an interval-update payload and sends it with an HTTP PATCH, logging each
request first. This project models the deterministic heart of `script.js`:

- **Calendar** (`calendar.dfy`): civil Gregorian dates with leap years. It
  models `setDate(getDate() - 1)` as `PreviousDate`, with `NextDate` as its
  inverse.
- **IsoFormat** (`iso_format.dfy`): the text `toISOString` prints for years
  0..9999 and the date part `split('T')[0]` keeps. A decoder reads the date
  part back, so properties of the strings can be stated as properties of dates.
- **Payloads** (`payload.dfy`): `getPreviousDay` and `formatPayload`. A
  JavaScript `Date` is either a UTC date-time or an invalid date (`None`).
  `toISOString` on an invalid date throws a RangeError, which is a `Failure`.
  `Field` is the cell lookup `line[key]` (no value for a missing column) and
  `NewDate` is `new Date(cell)`, invalid for a missing cell or unparsable text.
- **Batch** (`batch.dfy`): the row loop of `main`. The loop is the method
  `ProcessRows`, proved equal to the event trace `Run`. `performAPICall` and
  `logRequest` are reduced to events: warned, logged, patched, finished,
  aborted. `CompanyName` is the `Task` cell used as a key (the key
  `"undefined"` when the cell is missing) and `ProjectIdFor` is the truthy
  lookup `companyMapping[companyName]`. `Run` takes the payload builder as a parameter (`Formatter`); the
  loop uses `FormatWith(parse)`, which is `formatPayload`. The world's answer to each call is an input, one outcome per call in
  order. The possible outcomes are: config unreadable, log unwritable, PATCH
  accepted, PATCH rejected.

Four behaviours of the code are easy to misread; the model follows the code:

- An unparsable `Date\Started` or `End` is not submitted silently.
  `toISOString` throws inside `formatPayload`. That call is outside
  `performAPICall`'s try, so the throw reaches `main`'s top-level catch. No
  later row is attempted.
- A row is skipped when its project id is missing or is the empty string
  (falsy), not only when the id is missing.
- A row without a `Task` cell is looked up under the key `"undefined"`,
  because JavaScript converts the undefined property key to that string.
- A log write that fails is caught inside `performAPICall`. That call then
  ends without sending, and the loop goes on.

## Model

| member | source | states |
|---|---|---|
| Calendar.DaysInMonth | script.js:37 | month lengths lie in 28..31; February has 29 days in leap years and 28 otherwise, and exactly April, June, September and November have 30 |
| Calendar.YearLength | script.js:37 | the twelve months add up to 366 days in a leap year and 365 otherwise, which leaves 31 days for each of the other seven months |
| Calendar.SetDate | script.js:37 | `setDate(n)` for a day number of the month yields a valid date; day 0 becomes the last day of the month before, the day whose successor is the 1st of the given month |
| Calendar.PreviousDate | script.js:37 | stepping back one day gives a valid date strictly before the input |
| Calendar.NextDate | script.js:37 | the partner step forward gives a valid date strictly after the input |
| Calendar.PreviousDateIsLatestBefore | script.js:37 | no valid date lies strictly between the previous day and the input, so it is the day immediately before |
| Calendar.NextDateIsEarliestAfter | script.js:37 | no valid date lies strictly between the input and the next day |
| Calendar.PreviousOfNext | script.js:37 | stepping forward then back returns the same date |
| Calendar.NextOfPrevious | script.js:37 | stepping back then forward returns the same date |
| Calendar.MarchFirstRollsBack | script.js:35-39 | 1 March steps back to 29 February in leap years and to 28 February otherwise |
| Calendar.NewYearRollsBack | script.js:35-39 | 1 January steps back to 31 December of the previous year |
| Calendar.MonthStartRollsBack | script.js:35-39 | the first day of any other month steps back to the last day of the month before |
| IsoFormat.DigitsRoundTrip | script.js:38 | a zero-padded decimal field reads back as the number it prints |
| IsoFormat.ToIsoString | script.js:38 | the ISO text is 24 characters, has `T` at position 10 and `Z` at the end, and begins with the date's `YYYY-MM-DD` |
| IsoFormat.IsoDate | script.js:38 | the date text is `YYYY-MM-DD`, 10 characters with dashes at positions 4 and 7 and no `T` |
| IsoFormat.FirstField | script.js:38 | `split(sep)[0]` is the longest prefix without `sep`: it is all of the string or stops just before the first `sep` |
| IsoFormat.FirstFieldOfJoin | script.js:38 | splitting `a + sep + b` on `sep` gives `a` when `a` has no `sep` |
| IsoFormat.IsoDatePart | script.js:38 | `toISOString().split('T')[0]` is the date text alone, whatever the time of day |
| IsoFormat.IsoDateRoundTrip | script.js:38 | decoding the printed date text gives back the date |
| IsoFormat.IsoDateInjective | script.js:38 | two dates print the same text exactly when they are equal |
| Payloads.ToIsoStringOf | script.js:51 | `toISOString` throws exactly on an invalid date; otherwise its first 10 characters are the date text |
| Payloads.ElevenPmStampsDay | script.js:38 | the date part followed by `T23:00:00.000Z` denotes 23:00 UTC on that same day |
| Payloads.GetPreviousDay | script.js:35-39 | throws exactly on an invalid date; otherwise returns 23:00:00.000Z on the calendar day before the input's date |
| Payloads.GetPreviousDayIgnoresTime | script.js:37-38 | two instants on the same date give the same result, whatever their times of day |
| Payloads.GetPreviousDayExample | script.js:35-39 | 2024-11-05 at 10:00 gives `2024-11-04T23:00:00.000Z` |
| Payloads.FormatPayload | script.js:42-66 | succeeds exactly when both date cells exist and parse; then the payload has the fixed id and exactly one interval holding the raw start and end text and the given project id |
| Payloads.OuterWindowDays | script.js:48-51 | the outer startTime is 23:00 UTC on the day before the parsed start, and the outer endTime is 23:00 UTC on the day of the parsed end |
| Payloads.OuterWindowOrdered | script.js:48-51 | when the interval does not end on an earlier day than it starts, the outer window's start day is strictly before its end day |
| Payloads.SameDayWindowIsOneDay | script.js:48-51 | for an interval within one day, the outer window's end day is the day after its start day |
| Payloads.FormatPayloadExample | script.js:42-66 | the worked `Acme` to `proj-1` row gives the expected interval and the window `2024-11-04T23:00:00.000Z` to `2024-11-05T23:00:00.000Z` |
| Batch.MissingTaskIsUndefinedCompany | script.js:112-115 | a row without a `Task` cell gets the same project id, or is skipped in the same way, as a row whose `Task` is the text "undefined" |
| Batch.PerformApiCall | script.js:80-103 | every call returns normally, never reaching the top-level catch, and its last event is the finished event carrying the world's outcome |
| Batch.PerformApiCallLogsThenSends | script.js:80-103 | the request is logged and sent exactly when the config loads and the log is written; the log entry comes right before the PATCH, which is followed by the finished event |
| Batch.ProcessRows | script.js:111-122 | the loop's events are exactly the trace `Run` of the rows, with formatPayload as the payload builder, from the first call on |
| Batch.Eligible | script.js:111-118 | the rows handed to formatPayload come from the batch and each carries the truthy project id of its company |
| Batch.EligibleComplete | script.js:111-118 | every row whose company has a truthy project id is handed to formatPayload with that id |
| Batch.EligibleJoin | script.js:111-118 | the rows handed on from two consecutive stretches of the CSV are those of the first, then those of the second |
| Batch.EligibleExtend | script.js:111-118 | one more row adds exactly one entry, at the end, when its company is mapped to a truthy id, and none otherwise: one payload per mapped row, in CSV order |
| Batch.RunCallsEligibleRows | script.js:111-125 | for any payload builder, formatPayload included: the calls made are the builder's results on the eligible rows in CSV order, up to the first one that throws; the j-th call gets the world's j-th outcome; the batch aborts exactly when such a throw happens |
| Batch.FailuresDoNotStopTheBatch | script.js:100-121 | whatever the server and files do on each call, the same payloads are attempted in the same order |
| Batch.LoggedBeforeSent | script.js:94-97 | every send is immediately preceded by logging the same payload and followed by its finished event; every log entry is immediately followed by its send |
| Batch.SentProjectIdsAreMapped | script.js:113-120 | every payload logged, sent or finished has the fixed id and one interval whose project id is a non-empty mapping value |
| Batch.AbortIsFinal | script.js:120-125 | an abort is the last event: nothing follows the top-level catch |
| Batch.WarningsAreForUnmappedRows | script.js:115-117 | every warning names the company of a batch row that has no truthy project id |
| Batch.UnmappedRowsAreWarned | script.js:111-125 | conversely, every row whose company has no truthy project id is warned about, unless an earlier row already aborted the batch |

## Left out

- Reading `config.json` and `mapping.json` (`loadConfig`, `loadMapping`) is file I/O plus a JSON parser. The mapping is an input `map<string, string>`. A config read that fails inside `performAPICall` is the call outcome `ConfigUnreadable`.
- A failure to load the mapping or the CSV before the loop, which also lands in `main`'s top-level catch, is outside the loop and not modelled.
- `parseCSV` and the `csv-parser` stream are foreign code. The rows are an input sequence of column-to-text maps.
- The axios PATCH, the response body and the console messages are network I/O and output. Each call is a `Patched` event followed by a `Finished` event carrying the world's outcome. A call that never resolves (no timeout exists) is not modelled: every call returns.
- The log entry's text layout and its wall-clock timestamp are not modelled. Only a `Logged` event holding the payload is recorded.
- JavaScript's date-string parser is foreign code. It is the opaque input `parse`, from text to an optional UTC date-time.
- Dates the parser yields are kept to the years 1..9999 (`Payloads.Instant`). The expanded `±YYYYYY` form that `toISOString` uses for other years is not modelled, nor its range limit on time values.
- `setDate` and `getDate` work in local time while `toISOString` works in UTC. The model takes the process time zone to be UTC.
- Keys inherited from `Object.prototype` in the mapping lookup are not modelled. Mapping values are strings, so the only falsy id is the empty string.
- `Calendar.SetDate` covers only day numbers from 0 to the month's length (0..31), which include every value `getDate() - 1` produces; `setDate`'s normalisation of negative numbers and of numbers past the month's end is not modelled.
