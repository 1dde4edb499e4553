/** Server-side session aggregation: extend the most recent session or create a new one. */
module ActivitySessions {
  import opened Wrappers
  import opened Sequences
  import opened Runs

  /** One accepted report, times in seconds. `grace` is twice the ping interval. */
  datatype Report = Report(
    time: int, duration: int, process: string, window: string, username: Option<string>, grace: int)

  datatype Row = Row(
    startTime: int, endTime: int, durationSeconds: int,
    process: string, window: string, username: Option<string>, heartbeatCount: int)

  const SOCKET_GRACE := 10 * 2

  function End(r: Report): int { r.time + r.duration }

  function ReportedDuration(r: Report): int { r.duration }

  function GraceOf(r: Report): int { r.grace }

  function StoredDuration(row: Row): int { row.durationSeconds }

  function Heartbeats(row: Row): int { row.heartbeatCount }

  predicate ShouldExtend(recent: Row, r: Report) {
    recent.process == r.process && recent.window == r.window && r.time - recent.endTime <= r.grace
  }

  function Extended(recent: Row, r: Report): Row {
    recent.(endTime := End(r), durationSeconds := End(r) - recent.startTime,
            heartbeatCount := recent.heartbeatCount + 1)
  }

  function Created(r: Report): Row {
    Row(r.time, End(r), r.duration, r.process, r.window, r.username, 1)
  }

  /** `findFirst` by descending `endTime`; the database may return any of several equal rows. */
  predicate MostRecent(rows: seq<Row>, k: int) {
    0 <= k < |rows| && forall i :: 0 <= i < |rows| ==> rows[i].endTime <= rows[k].endTime
  }

  function Handled(rows: seq<Row>, k: int, r: Report): seq<Row>
    requires MostRecent(rows, k)
  {
    if ShouldExtend(rows[k], r) then rows[k := Extended(rows[k], r)] else rows + [Created(r)]
  }

  ghost predicate Step(rows: seq<Row>, r: Report, rows': seq<Row>) {
    if |rows| == 0 then rows' == [Created(r)]
    else exists k :: MostRecent(rows, k) && rows' == Handled(rows, k, r)
  }

  lemma {:induction false} MostRecentExists(rows: seq<Row>)
    requires |rows| > 0
    ensures exists k :: MostRecent(rows, k)
  {
    var init := rows[..|rows| - 1];
    if |init| == 0 {
      assert MostRecent(rows, 0);
    } else {
      MostRecentExists(init);
      var k :| MostRecent(init, k);
      assert MostRecent(rows, if init[k].endTime < rows[|rows| - 1].endTime then |rows| - 1 else k);
    }
  }

  /** A raw heartbeat; its timestamp is in milliseconds, and only the socket reports a duration. */
  datatype Heartbeat = Heartbeat(
    timestampMs: int, process: string, window: string, duration: Option<int>, username: Option<string>)

  /** How the HTTP endpoint may be told the time; an absent or zero number means the server's clock. */
  datatype Timestamp = Iso(ms: int) | Unix(seconds: int) | Absent

  function TimestampMs(t: Timestamp, now: int): (r: int)
    ensures t.Iso? ==> r == t.ms
    ensures !t.Iso? ==> r % 1000 == 0
    ensures t == Absent || t == Unix(0) ==> r <= now < r + 1000
    ensures t.Unix? && t.seconds != 0 ==> r / 1000 == t.seconds
  {
    match t
    case Iso(ms) => ms
    case Unix(seconds) => (if seconds != 0 then seconds else now / 1000) * 1000
    case Absent => now / 1000 * 1000
  }

  const DEFAULT_PING_INTERVAL := 30

  function PingInterval(given: Option<int>): (r: int)
    ensures given.None? || given == Some(0) ==> r == 30
    ensures given.Some? ==> given.value in {0, r}
  {
    if given.Some? && given.value != 0 then given.value else DEFAULT_PING_INTERVAL
  }

  /** The session and history tables of one machine, as its two activity endpoints update them. */
  class ActivityTables {
    var rows: seq<Row>
    var history: seq<Heartbeat>

    constructor ()
      ensures rows == [] && history == []
    {
      rows, history := [], [];
    }

    /** The socket's `machine:activity`; the timestamp arrives in milliseconds. */
    method OnSocketActivity(machineActive: bool, timestampMs: int, duration: int,
                            process: string, window: string, username: Option<string>)
      modifies this
      ensures !machineActive ==> rows == old(rows) && history == old(history)
      ensures machineActive ==>
        && history == old(history) + [Heartbeat(timestampMs, process, window, Some(duration), NullIfEmpty(username))]
        && var r := Report(timestampMs / 1000, duration, process, window, NullIfEmpty(username), 20);
           Step(old(rows), r, rows)
    {
      if !machineActive {
        return;
      }
      var user := if username.Some? && username.value == "" then None else username;
      history := history + [Heartbeat(timestampMs, process, window, Some(duration), user)];
      var timeSeconds := timestampMs / 1000;
      Aggregate(Report(timeSeconds, duration, process, window, user, SOCKET_GRACE));
    }

    /** The HTTP endpoint at server time `now`, in milliseconds: point heartbeats, and twice the caller's
        ping interval as grace. */
    method OnHttpActivity(now: int, timestamp: Timestamp, pingIntervalSeconds: Option<int>,
                          process: string, window: string, username: Option<string>)
      modifies this
      ensures history == old(history) + [Heartbeat(TimestampMs(timestamp, now), process, window, None, username)]
      ensures var grace := 2 * PingInterval(pingIntervalSeconds);
        Step(old(rows), Report(TimestampMs(timestamp, now) / 1000, 0, process, window, username, grace), rows)
    {
      var interval := PingInterval(pingIntervalSeconds);
      var currentTime := now / 1000;
      var heartbeatTime, timeSeconds;
      match timestamp {
        case Iso(ms) =>
          heartbeatTime := ms;
          timeSeconds := heartbeatTime / 1000;
        case Unix(seconds) =>
          timeSeconds := if seconds != 0 then seconds else currentTime;
          heartbeatTime := timeSeconds * 1000;
        case Absent =>
          timeSeconds := currentTime;
          heartbeatTime := timeSeconds * 1000;
      }
      history := history + [Heartbeat(heartbeatTime, process, window, None, username)];
      Aggregate(Report(timeSeconds, 0, process, window, username, interval * 2));
    }

    method Aggregate(r: Report)
      modifies this`rows
      ensures Step(old(rows), r, rows)
    {
      if |rows| == 0 {
        rows := [Created(r)];
        return;
      }
      MostRecentExists(rows);
      var k :| MostRecent(rows, k);
      var recentSession := rows[k];
      if ShouldExtend(recentSession, r) {
        var newEndTime := r.time + r.duration;
        var newDuration := newEndTime - recentSession.startTime;
        rows := rows[k := recentSession.(endTime := newEndTime, durationSeconds := newDuration,
                                         heartbeatCount := recentSession.heartbeatCount + 1)];
      } else {
        rows := rows + [Row(r.time, r.time + r.duration, r.duration, r.process, r.window, r.username, 1)];
      }
    }
  }

  /** The tables some sequence of accepted reports can lead to, however ties were resolved. */
  ghost predicate Built(reports: seq<Report>, rows: seq<Row>) {
    if |reports| == 0 then rows == []
    else
      exists before {:trigger Step(before, reports[|reports| - 1], rows)} ::
        Built(reports[..|reports| - 1], before) && Step(before, reports[|reports| - 1], rows)
  }

  // ---- Any stream ---------------------------------------------------------------------------

  predicate Linked(a: Report, b: Report) {
    a.process == b.process && a.window == b.window && b.time - End(a) <= b.grace
  }

  /** What a row records about the reports it was built from. */
  function Summary(members: seq<Report>): Row
    requires |members| > 0
  {
    var first, last := members[0], members[|members| - 1];
    Row(first.time, End(last), End(last) - first.time, first.process, first.window, first.username, |members|)
  }

  /** Every row is the summary of a linked chain of reports, and every report is in one chain. */
  ghost predicate Explains(members: seq<seq<Report>>, reports: seq<Report>, rows: seq<Row>) {
    && |members| == |rows|
    && multiset(Flatten(members)) == multiset(reports)
    && forall i :: 0 <= i < |rows| ==> IsRun(members[i], Linked) && rows[i] == Summary(members[i])
  }

  lemma {:induction false} RunKey(run: seq<Report>)
    requires IsRun(run, Linked)
    ensures run[0].process == run[|run| - 1].process && run[0].window == run[|run| - 1].window
  {
    var n := |run| - 1;
    if n > 0 {
      assert IsRun(run[..n], Linked) by {
        forall i | 0 <= i < n - 1 ensures Linked(run[..n][i], run[..n][i + 1]) {
          assert Linked(run[i], run[i + 1]);
        }
      }
      RunKey(run[..n]);
      assert Linked(run[n - 1], run[n - 1 + 1]);
    }
  }

  lemma {:induction false} SummaryExtends(run: seq<Report>, r: Report)
    requires IsRun(run, Linked)
    ensures ShouldExtend(Summary(run), r) <==> Linked(run[|run| - 1], r)
    ensures Summary(run + [r]) == Extended(Summary(run), r)
    ensures Linked(run[|run| - 1], r) ==> IsRun(run + [r], Linked)
  {
    RunKey(run);
    if Linked(run[|run| - 1], r) {
      forall i | 0 <= i < |run| ensures Linked((run + [r])[i], (run + [r])[i + 1]) {
        assert i < |run| - 1 ==> Linked(run[i], run[i + 1]);
      }
    }
  }

  lemma {:induction false} FlattenUpdate<T>(runs: seq<seq<T>>, k: nat, x: T)
    requires k < |runs|
    ensures multiset(Flatten(runs[k := runs[k] + [x]])) == multiset(Flatten(runs)) + multiset{x}
  {
    var n := |runs| - 1;
    var updated := runs[k := runs[k] + [x]];
    FlattenLast(runs);
    FlattenLast(updated);
    if k < n {
      FlattenUpdate(runs[..n], k, x);
      assert updated[..n] == runs[..n][k := runs[k] + [x]] && updated[n] == runs[n];
    } else {
      assert updated[..n] == runs[..n] && updated[n] == runs[n] + [x];
    }
  }

  lemma {:induction false} FlattenLast<T>(runs: seq<seq<T>>)
    requires |runs| > 0
    ensures multiset(Flatten(runs)) == multiset(Flatten(runs[..|runs| - 1])) + multiset(runs[|runs| - 1])
  {
  }

  lemma {:induction false} ExplainsExtended(
    members: seq<seq<Report>>, reports: seq<Report>, rows: seq<Row>, r: Report, k: nat)
    requires Explains(members, reports, rows) && k < |rows| && ShouldExtend(rows[k], r)
    ensures Explains(members[k := members[k] + [r]], reports + [r], rows[k := Extended(rows[k], r)])
  {
    SummaryExtends(members[k], r);
    FlattenUpdate(members, k, r);
  }

  lemma {:induction false} ExplainsCreated(members: seq<seq<Report>>, reports: seq<Report>, rows: seq<Row>, r: Report)
    requires Explains(members, reports, rows)
    ensures Explains(members + [[r]], reports + [r], rows + [Created(r)])
  {
    assert (members + [[r]])[..|members|] == members;
    assert IsRun([r], Linked) && Summary([r]) == Created(r);
  }

  lemma {:induction false} ExplainsStep(
    members: seq<seq<Report>>, reports: seq<Report>, rows: seq<Row>, r: Report, rows': seq<Row>)
    returns (members': seq<seq<Report>>)
    requires Explains(members, reports, rows) && Step(rows, r, rows')
    ensures Explains(members', reports + [r], rows')
  {
    members' := members + [[r]];
    if |rows| > 0 {
      var k :| MostRecent(rows, k) && rows' == Handled(rows, k, r);
      if ShouldExtend(rows[k], r) {
        ExplainsExtended(members, reports, rows, r, k);
        members' := members[k := members[k] + [r]];
        return;
      }
    }
    ExplainsCreated(members, reports, rows, r);
    assert rows' == rows + [Created(r)];
  }

  lemma {:induction false} NothingExplained()
    ensures Explains([], [], [])
  {
  }

  /** Holds for every stream, in any order, and for any resolution of ties. */
  lemma {:induction false} RowsAreExplained(reports: seq<Report>, rows: seq<Row>) returns (members: seq<seq<Report>>)
    requires Built(reports, rows)
    ensures Explains(members, reports, rows)
  {
    hide Step, Explains;
    NothingExplained();
    members := [];
    if |reports| > 0 {
      var n := |reports| - 1;
      var before :| Built(reports[..n], before) && Step(before, reports[n], rows);
      members := RowsAreExplained(reports[..n], before);
      members := ExplainsStep(members, reports[..n], before, reports[n], rows);
      assert reports == reports[..n] + [reports[n]];
    }
  }

  /** A linked chain lasts at most its members' durations plus the grace of each joined member. */
  lemma {:induction false} ChainBound(run: seq<Report>)
    requires IsRun(run, Linked)
    ensures Summary(run).durationSeconds <= SumBy(run, ReportedDuration) + SumBy(run, GraceOf) - run[0].grace
  {
    var n := |run| - 1;
    if n > 0 {
      assert IsRun(run[..n], Linked) by {
        forall i | 0 <= i < n - 1 ensures Linked(run[..n][i], run[..n][i + 1]) {
          assert Linked(run[i], run[i + 1]);
        }
      }
      ChainBound(run[..n]);
      assert Linked(run[n - 1], run[n - 1 + 1]);
    } else {
      assert run[..0] == [];
      assert SumBy(run, ReportedDuration) == SumBy(run[..0], ReportedDuration) + run[0].duration;
      assert SumBy(run, GraceOf) == SumBy(run[..0], GraceOf) + run[0].grace;
    }
  }

  lemma {:induction false} UniformGrace(run: seq<Report>, g: int)
    requires forall i :: 0 <= i < |run| ==> run[i].grace == g
    ensures SumBy(run, GraceOf) == g * |run|
  {
    if |run| > 0 {
      UniformGrace(run[..|run| - 1], g);
      assert g * |run| == g * (|run| - 1) + g;
    }
  }

  lemma {:induction false} HeartbeatsCount(members: seq<seq<Report>>, reports: seq<Report>, rows: seq<Row>)
    requires Explains(members, reports, rows)
    ensures SumBy(rows, Heartbeats) == |reports|
    decreases |rows|
  {
    assert |Flatten(members)| == |reports| by { SameLength(Flatten(members), reports); }
    if |rows| > 0 {
      var n := |rows| - 1;
      assert Explains(members[..n], Flatten(members[..n]), rows[..n]);
      HeartbeatsCount(members[..n], Flatten(members[..n]), rows[..n]);
      assert rows[n].heartbeatCount == |members[n]|;
    }
  }

  /** The promises about any stream of socket reports: each row ends where its duration says, the
      heartbeat counts add up to the reports, and no row is longer than its reports plus 20 s for
      every report that joined it. */
  lemma {:induction false} AnyStream(reports: seq<Report>, rows: seq<Row>)
    requires Built(reports, rows)
    requires forall i :: 0 <= i < |reports| ==> reports[i].grace == 20
    ensures forall i :: 0 <= i < |rows| ==> rows[i].endTime == rows[i].startTime + rows[i].durationSeconds
    ensures SumBy(rows, Heartbeats) == |reports|
    ensures exists members :: Explains(members, reports, rows)
              && forall i :: 0 <= i < |rows| ==>
                   rows[i].durationSeconds
                   <= SumBy(members[i], ReportedDuration) + 20 * (rows[i].heartbeatCount - 1)
  {
    var members := RowsAreExplained(reports, rows);
    HeartbeatsCount(members, reports, rows);
    forall i | 0 <= i < |rows|
      ensures rows[i].endTime == rows[i].startTime + rows[i].durationSeconds
      ensures rows[i].durationSeconds
           <= SumBy(members[i], ReportedDuration) + 20 * (rows[i].heartbeatCount - 1)
    {
      ChainBound(members[i]);
      forall j | 0 <= j < |members[i]| ensures members[i][j].grace == 20 {
        MemberIsReported(members, i, j);
        assert members[i][j] in multiset(reports);
      }
      UniformGrace(members[i], 20);
    }
  }

  lemma {:induction false} MemberIsReported<T>(runs: seq<seq<T>>, i: nat, j: nat)
    requires i < |runs| && j < |runs[i]|
    ensures runs[i][j] in Flatten(runs)
  {
    if i < |runs| - 1 {
      MemberIsReported(runs[..|runs| - 1], i, j);
    }
  }

  // ---- Ordered streams ----------------------------------------------------------------------

  /** Neither overlapping nor out of order, and each report ends after the one before. */
  ghost predicate Ordered(reports: seq<Report>) {
    forall i :: 0 < i < |reports| ==> Follows(reports[i - 1], reports[i])
  }

  predicate Follows(a: Report, b: Report) {
    End(a) <= b.time && End(a) < End(b)
  }

  function Summaries(runs: seq<seq<Report>>): (rows: seq<Row>)
    requires forall i :: 0 <= i < |runs| ==> |runs[i]| > 0
    ensures |rows| == |runs|
  {
    if |runs| == 0 then [] else Summaries(runs[..|runs| - 1]) + [Summary(runs[|runs| - 1])]
  }

  /** Rows in time order, one after the other. */
  ghost predicate Chained(rows: seq<Row>) {
    forall i, j :: 0 <= i < j < |rows| ==> rows[i].endTime <= rows[j].startTime && rows[i].endTime < rows[j].endTime
  }

  ghost predicate EndsWith(rows: seq<Row>, runs: seq<seq<Report>>, last: Report) {
    && |rows| > 0 && |runs| == |rows|
    && rows[|rows| - 1].endTime == End(last)
    && IsRun(runs[|runs| - 1], Linked)
    && runs[|runs| - 1][|runs[|runs| - 1]| - 1] == last
    && rows[|rows| - 1] == Summary(runs[|runs| - 1])
  }

  /** In a table of chained rows only the last one can be the most recent. */
  lemma {:induction false} LastIsMostRecent(rows: seq<Row>, r: Report, rows': seq<Row>)
    requires |rows| > 0 && Chained(rows) && Step(rows, r, rows')
    ensures MostRecent(rows, |rows| - 1) && rows' == Handled(rows, |rows| - 1, r)
  {
    var k :| MostRecent(rows, k) && rows' == Handled(rows, k, r);
  }

  lemma {:induction false} SummariesExtend(runs: seq<seq<Report>>, r: Report)
    requires |runs| > 0 && forall i :: 0 <= i < |runs| ==> |runs[i]| > 0
    ensures Summaries(Extend(runs, r)) == Summaries(runs)[|runs| - 1 := Extended(Summary(runs[|runs| - 1]), r)]
  {
    var n := |runs| - 1;
    assert Extend(runs, r)[..n] == runs[..n];
    assert Summary(runs[n] + [r]) == Extended(Summary(runs[n]), r);
  }

  lemma {:induction false} SummariesStart(runs: seq<seq<Report>>, r: Report)
    requires forall i :: 0 <= i < |runs| ==> |runs[i]| > 0
    ensures Summaries(runs + [[r]]) == Summaries(runs) + [Created(r)]
  {
    assert (runs + [[r]])[..|runs|] == runs;
  }

  lemma {:induction false} LinkedReport(
    runs: seq<seq<Report>>, rows: seq<Row>, last: Report, r: Report, rows': seq<Row>)
    requires forall i :: 0 <= i < |runs| ==> |runs[i]| > 0
    requires rows == Summaries(runs) && Chained(rows) && EndsWith(rows, runs, last)
    requires Follows(last, r) && Step(rows, r, rows') && Linked(last, r)
    ensures rows' == Summaries(Extend(runs, r)) && Chained(rows') && EndsWith(rows', Extend(runs, r), r)
  {
    var n := |rows| - 1;
    LastIsMostRecent(rows, r, rows');
    SummaryExtends(runs[n], r);
    SummariesExtend(runs, r);
  }

  lemma {:induction false} UnlinkedReport(
    runs: seq<seq<Report>>, rows: seq<Row>, last: Report, r: Report, rows': seq<Row>)
    requires forall i :: 0 <= i < |runs| ==> |runs[i]| > 0
    requires rows == Summaries(runs) && Chained(rows) && EndsWith(rows, runs, last)
    requires Follows(last, r) && Step(rows, r, rows') && !Linked(last, r)
    ensures rows' == Summaries(runs + [[r]]) && Chained(rows') && EndsWith(rows', runs + [[r]], r)
  {
    var n := |rows| - 1;
    LastIsMostRecent(rows, r, rows');
    SummaryExtends(runs[n], r);
    SummariesStart(runs, r);
    assert IsRun([r], Linked) && Summary([r]) == Created(r);
  }

  ghost predicate IsBatch(reports: seq<Report>, rows: seq<Row>) {
    var runs := RunsOf(reports, Linked);
    && rows == Summaries(runs) && Chained(rows)
    && (|reports| > 0 ==> EndsWith(rows, runs, reports[|reports| - 1]))
  }

  lemma {:induction false} BatchStep(reports: seq<Report>, rows: seq<Row>, r: Report, rows': seq<Row>)
    requires |reports| > 0 && IsBatch(reports, rows) && Follows(reports[|reports| - 1], r) && Step(rows, r, rows')
    ensures IsBatch(reports + [r], rows')
  {
    var last := reports[|reports| - 1];
    if Linked(last, r) {
      RunsExtend(reports, r, Linked);
      LinkedReport(RunsOf(reports, Linked), rows, last, r, rows');
    } else {
      RunsStart(reports, r, Linked);
      UnlinkedReport(RunsOf(reports, Linked), rows, last, r, rows');
    }
  }

  lemma {:induction false} BuiltBatch(reports: seq<Report>, rows: seq<Row>)
    requires Built(reports, rows) && Ordered(reports)
    ensures IsBatch(reports, rows)
  {
    if |reports| > 0 {
      var n := |reports| - 1;
      var before :| Built(reports[..n], before) && Step(before, reports[n], rows);
      assert reports == reports[..n] + [reports[n]];
      if n > 0 {
        OrderedInit(reports);
        BuiltBatch(reports[..n], before);
        BatchStep(reports[..n], before, reports[n], rows);
      } else {
        FirstReport(reports[0], rows);
        assert reports == [reports[0]];
      }
    }
  }

  lemma {:induction false} OrderedInit(reports: seq<Report>)
    requires |reports| > 1 && Ordered(reports)
    ensures Ordered(reports[..|reports| - 1]) && Follows(reports[|reports| - 2], reports[|reports| - 1])
  {
    var init := reports[..|reports| - 1];
    forall i | 0 < i < |init| ensures Follows(init[i - 1], init[i]) {
      assert Follows(reports[i - 1], reports[i]);
    }
    assert Follows(reports[|init| - 1], reports[|init|]);
  }

  /** For an ordered stream the incremental table is the batch grouping of the whole stream into
      maximal runs of linked reports, and its rows follow one another in time. */
  lemma {:induction false} IncrementalIsBatch(reports: seq<Report>, rows: seq<Row>)
    requires Built(reports, rows) && Ordered(reports)
    ensures exists runs :: Maximal(reports, Linked, runs) && |runs| == |rows|
              && forall i :: 0 <= i < |rows| ==> |runs[i]| > 0 && rows[i] == Summary(runs[i])
    ensures Chained(rows)
  {
    BuiltBatch(reports, rows);
    RunsAreMaximal(reports, Linked);
    var runs := RunsOf(reports, Linked);
    forall i | 0 <= i < |rows| ensures rows[i] == Summary(runs[i]) {
      SummariesAt(runs, i);
    }
  }

  lemma {:induction false} SummariesAt(runs: seq<seq<Report>>, i: nat)
    requires forall k :: 0 <= k < |runs| ==> |runs[k]| > 0
    requires i < |runs|
    ensures Summaries(runs)[i] == Summary(runs[i])
  {
    if i < |runs| - 1 {
      SummariesAt(runs[..|runs| - 1], i);
    }
  }

  lemma {:induction false} FirstReport(r: Report, rows: seq<Row>)
    requires rows == [Created(r)]
    ensures rows == Summaries(RunsOf([r], Linked)) && EndsWith(rows, RunsOf([r], Linked), r)
  {
    RunsStart([], r, Linked);
    SummariesStart([], r);
    assert [] + [r] == [r] && [] + [[r]] == [[r]] && [] + [Created(r)] == [Created(r)];
    assert IsRun([r], Linked) && Summary([r]) == Created(r);
  }
}
