/**
 * The row loop of `main` in script.js, with `performAPICall` and `logRequest`
 * reduced to the events they cause. What the outside world does on each call
 * (config file readable, log file writable, server accepting or rejecting the
 * PATCH) is an input, one outcome per attempted call in order.
 */
module Batch {
  import opened Wrappers
  import opened Payloads

  /** What the world does to the n-th call of performAPICall. */
  datatype CallOutcome =
    | ConfigUnreadable   // loadConfig throws inside the try
    | LogUnwritable      // appendFileSync throws inside the try
    | Accepted           // the PATCH resolves
    | Rejected           // the PATCH rejects (network error or non-2xx)

  /** What the loop does that can be observed, in order. */
  datatype Event =
    | Warned(company: string)                          // console.warn for an unmapped row
    | Logged(payload: Payload)                         // a request block appended to the log
    | Patched(payload: Payload)                        // the PATCH request issued
    | Finished(payload: Payload, outcome: CallOutcome) // performAPICall returned (success or caught error)
    | Aborted                                          // the top-level catch of main

  /** A payload builder: a row and its project id to a payload, or the error it throws. */
  type Formatter = (Row, string) -> Result<Payload, Thrown>

  /** The builder `main` uses: formatPayload, with `parse` as JavaScript's date parser. */
  function FormatWith(parse: string -> Option<Instant>): Formatter
  {
    (line, projectId) => FormatPayload(line, projectId, parse)
  }

  /** The column holding the company name. */
  const TaskColumn := "Task"

  /**
   * `line['Task']` used as a property key: a missing cell is `undefined`, which
   * JavaScript turns into the key "undefined".
   */
  function CompanyName(line: Row): string
  {
    if TaskColumn in line then line[TaskColumn] else "undefined"
  }

  /** `companyMapping[companyName]` when it is truthy: present and not the empty string. */
  function ProjectIdFor(mapping: map<string, string>, name: string): (r: Option<string>)
    ensures r.Some? ==> r.value in mapping.Values
  {
    if name in mapping && mapping[name] != "" then Some(mapping[name]) else None
  }

  /**
   * A row with no `Task` cell is treated as the company named "undefined":
   * it gets that company's project id, or is skipped exactly when it would be.
   */
  lemma MissingTaskIsUndefinedCompany(mapping: map<string, string>, line: Row, named: Row)
    requires TaskColumn !in line && TaskColumn in named && named[TaskColumn] == "undefined"
    ensures ProjectIdFor(mapping, CompanyName(line)) == ProjectIdFor(mapping, CompanyName(named))
  {
  }

  /**
   * `performAPICall(payload)`: load the config, log the request, then PATCH.
   * Every failure is caught, so the call always returns normally.
   */
  function PerformApiCall(payload: Payload, outcome: CallOutcome): (events: seq<Event>)
    ensures |events| >= 1 && events[|events| - 1] == Finished(payload, outcome)
    ensures Aborted !in events
  {
    match outcome
    case ConfigUnreadable => [Finished(payload, outcome)]
    case LogUnwritable => [Finished(payload, outcome)]
    case _ => [Logged(payload), Patched(payload), Finished(payload, outcome)]
  }

  /**
   * The request is logged and sent exactly when the config loads and the log
   * is written, and then the log entry comes first, right before the PATCH.
   */
  lemma PerformApiCallLogsThenSends(payload: Payload, outcome: CallOutcome)
    ensures var events := PerformApiCall(payload, outcome);
      && (Logged(payload) in events <==> outcome in {Accepted, Rejected})
      && (Patched(payload) in events <==> outcome in {Accepted, Rejected})
      && LoggedThenSent(events)
  {
    var events := PerformApiCall(payload, outcome);
    if outcome in {Accepted, Rejected} {
      assert events[0] == Logged(payload) && events[1] == Patched(payload);
    }
  }

  /**
   * The events of the loop over `rows`, when `calls` calls of performAPICall
   * have already been made. A row with no truthy project id is warned about
   * and skipped; a row whose dates do not parse throws out of formatPayload
   * and ends the whole batch in the top-level catch.
   */
  function Run(mapping: map<string, string>, rows: seq<Row>, format: Formatter,
               world: nat -> CallOutcome, calls: nat): (events: seq<Event>)
    decreases |rows|
  {
    if rows == [] then []
    else
      var name := CompanyName(rows[0]);
      match ProjectIdFor(mapping, name)
      case None => [Warned(name)] + Run(mapping, rows[1..], format, world, calls)
      case Some(projectId) =>
        match format(rows[0], projectId)
        case Failure(_) => [Aborted]
        case Success(payload) =>
          PerformApiCall(payload, world(calls)) + Run(mapping, rows[1..], format, world, calls + 1)
  }

  /** One step of Run: what the first row contributes, followed by the run over the others. */
  lemma RunStep(mapping: map<string, string>, rows: seq<Row>, format: Formatter,
      world: nat -> CallOutcome, calls: nat)
    requires rows != []
    ensures
      var name := CompanyName(rows[0]);
      var events := Run(mapping, rows, format, world, calls);
      match ProjectIdFor(mapping, name)
      case None => events == [Warned(name)] + Run(mapping, rows[1..], format, world, calls)
      case Some(projectId) =>
        match format(rows[0], projectId)
        case Failure(_) => events == [Aborted]
        case Success(payload) =>
          events == PerformApiCall(payload, world(calls)) + Run(mapping, rows[1..], format, world, calls + 1)
  {
  }

  /** The loop of `main`, one row at a time, awaiting each call before the next row. */
  method ProcessRows(mapping: map<string, string>, rows: seq<Row>, parse: string -> Option<Instant>,
                     world: nat -> CallOutcome) returns (events: seq<Event>)
    ensures events == Run(mapping, rows, FormatWith(parse), world, 0)
  {
    var format := FormatWith(parse);
    events := [];
    var i, calls := 0, 0;
    while i < |rows|
      invariant 0 <= i <= |rows|
      invariant events + Run(mapping, rows[i..], format, world, calls) == Run(mapping, rows, format, world, 0)
    {
      var line := rows[i];
      assert rows[i..][0] == line && rows[i..][1..] == rows[i + 1..];
      RunStep(mapping, rows[i..], format, world, calls);
      var companyName := CompanyName(line);
      var projectId := ProjectIdFor(mapping, companyName);
      if projectId.None? {
        RunResumes(events, [Warned(companyName)], Run(mapping, rows[i..], format, world, calls),
                   Run(mapping, rows[i + 1..], format, world, calls));
        events := events + [Warned(companyName)];
        i := i + 1;
        continue;
      }
      var payload := format(line, projectId.value);
      if payload.Failure? {
        events := events + [Aborted];
        return;
      }
      var step := PerformApiCall(payload.value, world(calls));
      RunResumes(events, step, Run(mapping, rows[i..], format, world, calls),
                 Run(mapping, rows[i + 1..], format, world, calls + 1));
      events := events + step;
      calls := calls + 1;
      i := i + 1;
    }
  }

  /** Regrouping the trace after one row: what is done, that row's events, the rest. */
  lemma RunResumes(done: seq<Event>, step: seq<Event>, pending: seq<Event>, rest: seq<Event>)
    requires pending == step + rest
    ensures done + pending == (done + step) + rest
  {
  }

  /** The rows the loop hands to formatPayload, in CSV order, with their project ids. */
  function Eligible(mapping: map<string, string>, rows: seq<Row>): (r: seq<(Row, string)>)
    ensures |r| <= |rows|
    ensures forall j :: 0 <= j < |r| ==> r[j].0 in rows && ProjectIdFor(mapping, CompanyName(r[j].0)) == Some(r[j].1)
  {
    if rows == [] then []
    else match ProjectIdFor(mapping, CompanyName(rows[0]))
      case None => Eligible(mapping, rows[1..])
      case Some(projectId) => [(rows[0], projectId)] + Eligible(mapping, rows[1..])
  }

  /** The eligible rows of two consecutive stretches of the CSV are those of each, in order. */
  lemma {:induction false} EligibleJoin(mapping: map<string, string>, a: seq<Row>, b: seq<Row>)
    ensures Eligible(mapping, a + b) == Eligible(mapping, a) + Eligible(mapping, b)
  {
    if a == [] {
      assert a + b == b;
    } else {
      assert (a + b)[0] == a[0];
      assert (a + b)[1..] == a[1..] + b;
      EligibleJoin(mapping, a[1..], b);
    }
  }

  /**
   * Reading one more row adds exactly one entry when its company has a truthy
   * project id and none otherwise, at the end: one payload per mapped row, in
   * CSV order.
   */
  lemma EligibleExtend(mapping: map<string, string>, rows: seq<Row>, i: nat)
    requires i < |rows|
    ensures Eligible(mapping, rows[..i + 1]) == Eligible(mapping, rows[..i]) +
      match ProjectIdFor(mapping, CompanyName(rows[i]))
      case None => []
      case Some(projectId) => [(rows[i], projectId)]
  {
    assert rows[..i + 1] == rows[..i] + [rows[i]];
    EligibleJoin(mapping, rows[..i], [rows[i]]);
    assert [rows[i]][1..] == [];
  }

  /** Every row whose company has a truthy project id is handed to formatPayload with that id. */
  lemma {:induction false} EligibleComplete(mapping: map<string, string>, rows: seq<Row>, i: nat)
    requires i < |rows| && ProjectIdFor(mapping, CompanyName(rows[i])).Some?
    ensures (rows[i], ProjectIdFor(mapping, CompanyName(rows[i])).value) in Eligible(mapping, rows)
  {
    if i > 0 {
      assert rows[1..][i - 1] == rows[i];
      EligibleComplete(mapping, rows[1..], i - 1);
    }
  }

  /** The calls of performAPICall that returned, in order: the Finished events. */
  function Calls(events: seq<Event>): (r: seq<Event>)
    ensures |r| <= |events|
    ensures forall j :: 0 <= j < |r| ==> r[j].Finished? && r[j] in events
  {
    if events == [] then []
    else (if events[0].Finished? then [events[0]] else []) + Calls(events[1..])
  }

  lemma {:induction false} CallsOfJoin(a: seq<Event>, b: seq<Event>)
    ensures Calls(a + b) == Calls(a) + Calls(b)
  {
    if a == [] {
      assert a + b == b;
    } else {
      var head := if a[0].Finished? then [a[0]] else [];
      assert (a + b)[0] == a[0];
      assert (a + b)[1..] == a[1..] + b;
      CallsOfJoin(a[1..], b);
      assert Calls(a + b) == head + Calls(a[1..] + b);
      assert Calls(a) == head + Calls(a[1..]);
    }
  }

  lemma CallsOfPerformApiCall(payload: Payload, outcome: CallOutcome)
    ensures Calls(PerformApiCall(payload, outcome)) == [Finished(payload, outcome)]
  {
    var events := PerformApiCall(payload, outcome);
    var done := Finished(payload, outcome);
    assert Calls([done]) == [done] by {
      assert [done][1..] == [];
    }
    if outcome in {Accepted, Rejected} {
      assert events[1..] == [Patched(payload), done];
      assert events[1..][1..] == [done];
    }
  }

  /** formatPayload applied to each eligible row with its project id. */
  function Formatted(eligible: seq<(Row, string)>, format: Formatter): (r: seq<Result<Payload, Thrown>>)
    ensures |r| == |eligible|
  {
    if eligible == [] then []
    else [format(eligible[0].0, eligible[0].1)] + Formatted(eligible[1..], format)
  }

  /**
   * `made` are the calls for the first |made| formatted rows, in order, the
   * j-th with the world's outcome number calls + j; and if they stop short of
   * the formatted rows, it is because the next one threw.
   */
  ghost predicate CallsFollowRows(made: seq<Event>, formatted: seq<Result<Payload, Thrown>>,
      world: nat -> CallOutcome, calls: nat)
  {
    && |made| <= |formatted|
    && (forall j :: 0 <= j < |made| ==>
          made[j].Finished? && formatted[j] == Success(made[j].payload) && made[j].outcome == world(calls + j))
    && (|made| < |formatted| ==> formatted[|made|].Failure?)
  }

  /** One more successful row in front keeps CallsFollowRows, one outcome earlier in the world. */
  lemma CallsFollowRowsCons(made: seq<Event>, formatted: seq<Result<Payload, Thrown>>,
      world: nat -> CallOutcome, calls: nat, payload: Payload)
    requires CallsFollowRows(made, formatted, world, calls + 1)
    ensures CallsFollowRows([Finished(payload, world(calls))] + made, [Success(payload)] + formatted, world, calls)
  {
    var made' := [Finished(payload, world(calls))] + made;
    var formatted' := [Success(payload)] + formatted;
    forall j | 1 <= j < |made'|
      ensures made'[j] == made[j - 1] && formatted'[j] == formatted[j - 1]
    {
    }
  }

  /** The calls of the run over `rows` follow its formatted eligible rows, and it aborts exactly when they stop short. */
  ghost predicate RunFollowsRows(mapping: map<string, string>, rows: seq<Row>,
      format: Formatter, world: nat -> CallOutcome, calls: nat)
  {
    var events := Run(mapping, rows, format, world, calls);
    && CallsFollowRows(Calls(events), Formatted(Eligible(mapping, rows), format), world, calls)
    && (Aborted in events <==> |Calls(events)| < |Eligible(mapping, rows)|)
  }

  /** A skipped row adds a warning and nothing else. */
  lemma RunFollowsRowsSkip(mapping: map<string, string>, rows: seq<Row>,
      format: Formatter, world: nat -> CallOutcome, calls: nat)
    requires rows != [] && ProjectIdFor(mapping, CompanyName(rows[0])).None?
    requires RunFollowsRows(mapping, rows[1..], format, world, calls)
    ensures RunFollowsRows(mapping, rows, format, world, calls)
  {
    var name := CompanyName(rows[0]);
    var rest := Run(mapping, rows[1..], format, world, calls);
    assert Eligible(mapping, rows) == Eligible(mapping, rows[1..]);
    assert Run(mapping, rows, format, world, calls) == [Warned(name)] + rest;
    assert Calls([Warned(name)] + rest) == Calls(rest) by {
      CallsOfJoin([Warned(name)], rest);
      assert Calls([Warned(name)]) == [];
    }
    assert Aborted in [Warned(name)] + rest <==> Aborted in rest;
  }

  /** A mapped row that formatPayload throws on ends the run with nothing called. */
  lemma RunFollowsRowsAbort(mapping: map<string, string>, rows: seq<Row>,
      format: Formatter, world: nat -> CallOutcome, calls: nat, projectId: string)
    requires rows != [] && ProjectIdFor(mapping, CompanyName(rows[0])) == Some(projectId)
    requires format(rows[0], projectId).Failure?
    ensures RunFollowsRows(mapping, rows, format, world, calls)
  {
    var eligible := Eligible(mapping, rows);
    assert eligible == [(rows[0], projectId)] + Eligible(mapping, rows[1..]);
    assert Formatted(eligible, format)[0] == format(rows[0], projectId);
    assert Run(mapping, rows, format, world, calls) == [Aborted];
    assert Calls([Aborted]) == [];
  }

  /** A mapped row that formats adds one call, with the next outcome of the world. */
  lemma RunFollowsRowsCall(mapping: map<string, string>, rows: seq<Row>,
      format: Formatter, world: nat -> CallOutcome, calls: nat,
      projectId: string, payload: Payload)
    requires rows != [] && ProjectIdFor(mapping, CompanyName(rows[0])) == Some(projectId)
    requires format(rows[0], projectId) == Success(payload)
    requires RunFollowsRows(mapping, rows[1..], format, world, calls + 1)
    ensures RunFollowsRows(mapping, rows, format, world, calls)
  {
    var call := PerformApiCall(payload, world(calls));
    var rest := Run(mapping, rows[1..], format, world, calls + 1);
    var eligible := Eligible(mapping, rows);
    assert eligible == [(rows[0], projectId)] + Eligible(mapping, rows[1..]);
    assert eligible[1..] == Eligible(mapping, rows[1..]);
    assert Formatted(eligible, format) == [Success(payload)] + Formatted(Eligible(mapping, rows[1..]), format);
    CallsOfJoin(call, rest);
    CallsOfPerformApiCall(payload, world(calls));
    CallsFollowRowsCons(Calls(rest), Formatted(Eligible(mapping, rows[1..]), format), world, calls, payload);
    assert Run(mapping, rows, format, world, calls) == call + rest;
    assert Aborted !in call;
  }

  lemma {:induction false} RunFollowsEligibleRows(mapping: map<string, string>, rows: seq<Row>,
      format: Formatter, world: nat -> CallOutcome, calls: nat)
    ensures RunFollowsRows(mapping, rows, format, world, calls)
  {
    if rows != [] {
      match ProjectIdFor(mapping, CompanyName(rows[0]))
      case None =>
        RunFollowsEligibleRows(mapping, rows[1..], format, world, calls);
        RunFollowsRowsSkip(mapping, rows, format, world, calls);
      case Some(projectId) =>
        match format(rows[0], projectId)
        case Failure(_) =>
          RunFollowsRowsAbort(mapping, rows, format, world, calls, projectId);
        case Success(payload) =>
          RunFollowsEligibleRows(mapping, rows[1..], format, world, calls + 1);
          RunFollowsRowsCall(mapping, rows, format, world, calls, projectId, payload);
    }
  }

  /**
   * The calls made are formatPayload's results on the eligible rows, in CSV
   * order, up to the first eligible row it throws on; the j-th call gets the
   * world's j-th outcome; and the batch is aborted exactly when such a row exists.
   */
  lemma RunCallsEligibleRows(mapping: map<string, string>, rows: seq<Row>,
      format: Formatter, world: nat -> CallOutcome, calls: nat)
    ensures
      var events := Run(mapping, rows, format, world, calls);
      var made := Calls(events);
      var formatted := Formatted(Eligible(mapping, rows), format);
      && |made| <= |formatted|
      && (forall j :: 0 <= j < |made| ==>
            made[j].Finished? && formatted[j] == Success(made[j].payload) && made[j].outcome == world(calls + j))
      && (|made| < |formatted| ==> formatted[|made|].Failure?)
      && (Aborted in events <==> |made| < |formatted|)
  {
    RunFollowsEligibleRows(mapping, rows, format, world, calls);
  }

  /**
   * A failed or refused call never changes which payloads are sent afterwards:
   * whatever the world does, the same payloads are attempted in the same order.
   */
  lemma FailuresDoNotStopTheBatch(mapping: map<string, string>, rows: seq<Row>,
      format: Formatter, world1: nat -> CallOutcome, world2: nat -> CallOutcome)
    ensures
      var made1 := Calls(Run(mapping, rows, format, world1, 0));
      var made2 := Calls(Run(mapping, rows, format, world2, 0));
      |made1| == |made2| && forall j :: 0 <= j < |made1| ==> made1[j].payload == made2[j].payload
  {
    RunCallsEligibleRows(mapping, rows, format, world1, 0);
    RunCallsEligibleRows(mapping, rows, format, world2, 0);
  }

  /**
   * Every logged request is sent right after it is logged, and every send is
   * preceded by logging it and followed by the call returning with the server's answer.
   */
  ghost predicate LoggedThenSent(events: seq<Event>) {
    && (forall i :: 0 <= i < |events| && events[i].Logged? ==>
          i + 1 < |events| && events[i + 1] == Patched(events[i].payload))
    && (forall i :: 0 <= i < |events| && events[i].Patched? ==>
          0 < i && events[i - 1] == Logged(events[i].payload)
          && i + 1 < |events| && events[i + 1].Finished?
          && events[i + 1].payload == events[i].payload
          && events[i + 1].outcome in {Accepted, Rejected})
  }

  lemma LoggedThenSentJoin(a: seq<Event>, b: seq<Event>)
    requires LoggedThenSent(a) && LoggedThenSent(b)
    ensures LoggedThenSent(a + b)
  {
    var ab := a + b;
    forall i | |a| <= i < |ab|
      ensures ab[i] == b[i - |a|]
    {
    }
  }

  /** In the whole run, each request is logged immediately before it is sent. */
  lemma {:induction false} LoggedBeforeSent(mapping: map<string, string>, rows: seq<Row>,
      format: Formatter, world: nat -> CallOutcome, calls: nat)
    ensures LoggedThenSent(Run(mapping, rows, format, world, calls))
  {
    if rows != [] {
      var name := CompanyName(rows[0]);
      match ProjectIdFor(mapping, name)
      case None =>
        var rest := Run(mapping, rows[1..], format, world, calls);
        LoggedBeforeSent(mapping, rows[1..], format, world, calls);
        LoggedThenSentJoin([Warned(name)], rest);
        assert Run(mapping, rows, format, world, calls) == [Warned(name)] + rest;
      case Some(projectId) =>
        match format(rows[0], projectId)
        case Failure(_) =>
        case Success(payload) =>
          var call := PerformApiCall(payload, world(calls));
          var rest := Run(mapping, rows[1..], format, world, calls + 1);
          LoggedBeforeSent(mapping, rows[1..], format, world, calls + 1);
          PerformApiCallLogsThenSends(payload, world(calls));
          LoggedThenSentJoin(call, rest);
          assert Run(mapping, rows, format, world, calls) == call + rest;
    }
  }

  /** Every payload a builder returns has the fixed id and one interval tagged with the given project id. */
  ghost predicate TagsProjectId(format: Formatter) {
    forall line, projectId :: format(line, projectId).Success? ==>
      && format(line, projectId).value.id == PayloadId
      && |format(line, projectId).value.intervals| == 1
      && format(line, projectId).value.intervals[0].projectId == projectId
  }

  lemma FormatPayloadTagsProjectId(parse: string -> Option<Instant>)
    ensures TagsProjectId(FormatWith(parse))
  {
  }

  /** Every payload logged, sent or finished in `events` has the fixed id and one interval with a non-empty mapped project id. */
  ghost predicate PayloadsMapped(events: seq<Event>, mapping: map<string, string>) {
    forall e :: e in events && (e.Logged? || e.Patched? || e.Finished?) ==>
      && e.payload.id == PayloadId
      && |e.payload.intervals| == 1
      && e.payload.intervals[0].projectId in mapping.Values
      && e.payload.intervals[0].projectId != ""
  }

  lemma {:induction false} RunPayloadsMapped(mapping: map<string, string>, rows: seq<Row>,
      format: Formatter, world: nat -> CallOutcome, calls: nat)
    requires TagsProjectId(format)
    ensures PayloadsMapped(Run(mapping, rows, format, world, calls), mapping)
  {
    if rows != [] {
      var name := CompanyName(rows[0]);
      match ProjectIdFor(mapping, name)
      case None =>
        var rest := Run(mapping, rows[1..], format, world, calls);
        RunPayloadsMapped(mapping, rows[1..], format, world, calls);
        assert Run(mapping, rows, format, world, calls) == [Warned(name)] + rest;
      case Some(projectId) =>
        match format(rows[0], projectId)
        case Failure(_) =>
        case Success(payload) =>
          var call := PerformApiCall(payload, world(calls));
          var rest := Run(mapping, rows[1..], format, world, calls + 1);
          RunPayloadsMapped(mapping, rows[1..], format, world, calls + 1);
          assert Run(mapping, rows, format, world, calls) == call + rest;
          assert payload.id == PayloadId && payload.intervals[0].projectId == projectId;
          assert forall e :: e in call ==> e.payload == payload;
    }
  }

  /** Only mapped rows reach the log or the server, each tagged with a non-empty mapped project id. */
  lemma SentProjectIdsAreMapped(mapping: map<string, string>, rows: seq<Row>,
      parse: string -> Option<Instant>, world: nat -> CallOutcome)
    ensures
      var events := Run(mapping, rows, FormatWith(parse), world, 0);
      forall e :: e in events && (e.Logged? || e.Patched? || e.Finished?) ==>
        && e.payload.id == PayloadId
        && |e.payload.intervals| == 1
        && e.payload.intervals[0].projectId in mapping.Values
        && e.payload.intervals[0].projectId != ""
  {
    FormatPayloadTagsProjectId(parse);
    RunPayloadsMapped(mapping, rows, FormatWith(parse), world, 0);
  }

  /** Nothing follows an abort. */
  ghost predicate EndsAtAbort(events: seq<Event>) {
    forall i :: 0 <= i < |events| && events[i] == Aborted ==> i == |events| - 1
  }

  lemma EndsAtAbortJoin(a: seq<Event>, b: seq<Event>)
    requires Aborted !in a && EndsAtAbort(b)
    ensures EndsAtAbort(a + b)
  {
    var ab := a + b;
    forall i | 0 <= i < |ab| && ab[i] == Aborted
      ensures i == |ab| - 1
    {
      if i >= |a| {
        assert ab[i] == b[i - |a|];
      }
    }
  }

  /** The top-level catch ends the batch: nothing happens after an abort. */
  lemma {:induction false} AbortIsFinal(mapping: map<string, string>, rows: seq<Row>,
      format: Formatter, world: nat -> CallOutcome, calls: nat)
    ensures EndsAtAbort(Run(mapping, rows, format, world, calls))
  {
    if rows != [] {
      var name := CompanyName(rows[0]);
      match ProjectIdFor(mapping, name)
      case None =>
        AbortIsFinal(mapping, rows[1..], format, world, calls);
        EndsAtAbortJoin([Warned(name)], Run(mapping, rows[1..], format, world, calls));
      case Some(projectId) =>
        match format(rows[0], projectId)
        case Failure(_) =>
        case Success(payload) =>
          var call := PerformApiCall(payload, world(calls));
          AbortIsFinal(mapping, rows[1..], format, world, calls + 1);
          assert Aborted !in call;
          EndsAtAbortJoin(call, Run(mapping, rows[1..], format, world, calls + 1));
    }
  }

  /** Every warning names a row of the batch whose company has no truthy project id. */
  lemma {:induction false} WarningsAreForUnmappedRows(mapping: map<string, string>, rows: seq<Row>,
      format: Formatter, world: nat -> CallOutcome, calls: nat, name: string)
    requires Warned(name) in Run(mapping, rows, format, world, calls)
    ensures exists line :: line in rows && CompanyName(line) == name && ProjectIdFor(mapping, name).None?
  {
    var first := CompanyName(rows[0]);
    match ProjectIdFor(mapping, first)
    case None =>
      if name != first {
        WarningsAreForUnmappedRows(mapping, rows[1..], format, world, calls, name);
        var line :| line in rows[1..] && CompanyName(line) == name && ProjectIdFor(mapping, name).None?;
        assert line in rows;
      } else {
        assert rows[0] in rows;
      }
    case Some(projectId) =>
      match format(rows[0], projectId)
      case Failure(_) =>
      case Success(payload) =>
        assert Warned(name) !in PerformApiCall(payload, world(calls));
        WarningsAreForUnmappedRows(mapping, rows[1..], format, world, calls + 1, name);
        var line :| line in rows[1..] && CompanyName(line) == name && ProjectIdFor(mapping, name).None?;
        assert line in rows;
  }

  /**
   * Every row whose company has no truthy project id is warned about, unless
   * an earlier row already aborted the batch.
   */
  lemma {:induction false} UnmappedRowsAreWarned(mapping: map<string, string>, rows: seq<Row>,
      format: Formatter, world: nat -> CallOutcome, calls: nat, i: nat)
    requires i < |rows| && ProjectIdFor(mapping, CompanyName(rows[i])).None?
    ensures
      || Warned(CompanyName(rows[i])) in Run(mapping, rows, format, world, calls)
      || Aborted in Run(mapping, rows[..i], format, world, calls)
  {
    var name := CompanyName(rows[i]);
    if i > 0 {
      assert rows[..i][0] == rows[0];
      assert rows[1..][i - 1] == rows[i] && rows[1..][..i - 1] == rows[..i][1..];
      match ProjectIdFor(mapping, CompanyName(rows[0]))
      case None =>
        UnmappedRowsAreWarned(mapping, rows[1..], format, world, calls, i - 1);
        var step := [Warned(CompanyName(rows[0]))];
        assert Run(mapping, rows, format, world, calls) == step + Run(mapping, rows[1..], format, world, calls);
        assert Run(mapping, rows[..i], format, world, calls) == step + Run(mapping, rows[..i][1..], format, world, calls);
      case Some(projectId) =>
        match format(rows[0], projectId)
        case Failure(_) =>
          assert Run(mapping, rows[..i], format, world, calls) == [Aborted];
        case Success(payload) =>
          UnmappedRowsAreWarned(mapping, rows[1..], format, world, calls + 1, i - 1);
          var step := PerformApiCall(payload, world(calls));
          assert Run(mapping, rows, format, world, calls) == step + Run(mapping, rows[1..], format, world, calls + 1);
          assert Run(mapping, rows[..i], format, world, calls) == step + Run(mapping, rows[..i][1..], format, world, calls + 1);
    }
  }
}
