/** The service-side coordinator: window samples become finished activity segments. */
module ActivityCoordinator {
  import opened Wrappers
  import opened Sequences
  import opened Runs
  import opened ActivitySessions

  /** One sample of the agent; the time is in Unix seconds. */
  datatype Sample = Sample(time: int, window: string, process: string, username: string)

  /** `DateTime.MinValue` in Unix seconds, the source's mark for "no activity yet". */
  const MIN_VALUE := -719_162 * 86_400  // days before 1970

  datatype Tracker = Tracker(window: string, process: string, username: string, start: int)

  const INITIAL := Tracker("", "", "", MIN_VALUE)

  /** One update: the new tracker, and the finished segment if one is sent. */
  function Update(t: Tracker, data: Sample, connected: bool): (Tracker, Option<Report>) {
    var t1 := if t.start == MIN_VALUE then Tracker(data.window, data.process, data.username, data.time) else t;
    if data.window == t1.window then (t1, None)
    else
      var duration := data.time - t1.start;
      var username := if t1.username != "" then t1.username else data.username;
      (t1.(window := data.window, process := data.process, start := data.time),
       if connected && duration > 0
       then Some(Report(t1.start, duration, t1.process, t1.window,
                        if username == "" then None else Some(username), SOCKET_GRACE))
       else None)
  }

  class Coordinator {
    var currentWindow: string
    var currentProcess: string
    var currentUsername: string
    var currentActivityStart: int
    var latestSnapshot: Option<(string, string, int)>

    function State(): Tracker
      reads this
    {
      Tracker(currentWindow, currentProcess, currentUsername, currentActivityStart)
    }

    constructor ()
      ensures State() == INITIAL && latestSnapshot == None
    {
      currentWindow, currentProcess, currentUsername := "", "", "";
      currentActivityStart := MIN_VALUE;
      latestSnapshot := None;
    }

    method UpdateActivity(data: Sample, connected: bool) returns (sent: Option<Report>)
      modifies this
      ensures (State(), sent) == Update(old(State()), data, connected)
      ensures latestSnapshot == Some((data.window, data.process, data.time))
    {
      sent := None;
      if currentActivityStart == MIN_VALUE {
        currentWindow := data.window;
        currentProcess := data.process;
        currentUsername := data.username;
        currentActivityStart := data.time;
      }
      if data.window != currentWindow {
        var duration := data.time - currentActivityStart;
        if connected && duration > 0 {
          var username := if currentUsername != "" then currentUsername else data.username;
          sent := Some(Report(currentActivityStart, duration, currentProcess, currentWindow,
                              if username == "" then None else Some(username), SOCKET_GRACE));
        }
        currentWindow := data.window;
        currentProcess := data.process;
        currentActivityStart := data.time;
      }
      latestSnapshot := Some((data.window, data.process, data.time));
    }
  }

  // ---- Whole runs ---------------------------------------------------------------------------

  /** A sample together with whether the server connection was up when it arrived. */
  datatype Arrival = Arrival(sample: Sample, connected: bool)

  /** The tracker and everything sent after all the arrivals, in order. */
  function Sent(arrivals: seq<Arrival>): (Tracker, seq<Report>) {
    if |arrivals| == 0 then (INITIAL, [])
    else
      var (t, sent) := Sent(arrivals[..|arrivals| - 1]);
      var (t', r) := Update(t, arrivals[|arrivals| - 1].sample, arrivals[|arrivals| - 1].connected);
      (t', if r.Some? then sent + [r.value] else sent)
  }

  ghost predicate NonDecreasing(arrivals: seq<Arrival>) {
    forall i, j :: 0 <= i < j < |arrivals| ==> arrivals[i].sample.time <= arrivals[j].sample.time
  }

  ghost predicate Positive(reports: seq<Report>) {
    forall i :: 0 <= i < |reports| ==> reports[i].duration > 0
  }

  /** The clock never shows the sentinel instant of the year 1. */
  ghost predicate AfterMinValue(arrivals: seq<Arrival>) {
    forall i :: 0 <= i < |arrivals| ==> arrivals[i].sample.time != MIN_VALUE
  }

  predicate SameWindow(a: Arrival, b: Arrival) {
    a.sample.window == b.sample.window
  }

  /** A finished span of samples on one window, ended by the first sample `next` on another: its
      report starts with the span, lasts to `next`, and names the process first seen on the window. */
  function SpanReport(span: seq<Arrival>, next: Arrival, user: string): seq<Report>
    requires |span| > 0
  {
    var first := span[0].sample;
    var username := if user != "" then user else next.sample.username;
    if next.connected && next.sample.time > first.time then
      [Report(first.time, next.sample.time - first.time, first.process, first.window,
              if username == "" then None else Some(username), SOCKET_GRACE)]
    else []
  }

  /** The reports of all spans but the last, which is not finished. */
  function SpanReports(spans: seq<seq<Arrival>>, user: string): seq<Report>
    requires forall i :: 0 <= i < |spans| ==> |spans[i]| > 0
  {
    if |spans| <= 1 then []
    else
      var n := |spans| - 1;
      SpanReports(spans[..n], user) + SpanReport(spans[n - 1], spans[n][0], user)
  }

  ghost predicate Tracks(t: Tracker, spans: seq<seq<Arrival>>, user: string)
    requires |spans| > 0 && |spans[|spans| - 1]| > 0
  {
    var first := spans[|spans| - 1][0].sample;
    t == Tracker(first.window, first.process, user, first.time)
  }

  lemma {:induction false} SpansExtend(spans: seq<seq<Arrival>>, a: Arrival, user: string)
    requires |spans| > 0 && forall i :: 0 <= i < |spans| ==> |spans[i]| > 0
    ensures SpanReports(Extend(spans, a), user) == SpanReports(spans, user)
    ensures forall t :: Tracks(t, spans, user) ==> Tracks(t, Extend(spans, a), user)
  {
    var n := |spans| - 1;
    assert Extend(spans, a)[..n] == spans[..n];
  }

  lemma {:induction false} SpansStart(spans: seq<seq<Arrival>>, a: Arrival, user: string)
    requires |spans| > 0 && forall i :: 0 <= i < |spans| ==> |spans[i]| > 0
    ensures SpanReports(spans + [[a]], user) == SpanReports(spans, user) + SpanReport(spans[|spans| - 1], a, user)
  {
    assert (spans + [[a]])[..|spans|] == spans;
  }

  lemma {:induction false} SpanKey(span: seq<Arrival>)
    requires IsRun(span, SameWindow)
    ensures span[0].sample.window == span[|span| - 1].sample.window
  {
    var n := |span| - 1;
    if n > 0 {
      assert IsRun(span[..n], SameWindow) by {
        forall i | 0 <= i < n - 1 ensures SameWindow(span[..n][i], span[..n][i + 1]) {
          assert SameWindow(span[i], span[i + 1]);
        }
      }
      SpanKey(span[..n]);
      assert SameWindow(span[n - 1], span[n - 1 + 1]);
    }
  }

  /** What one more arrival does, given the spans before it. */
  lemma {:induction false} TrackStep(t: Tracker, spans: seq<seq<Arrival>>, user: string, last: Arrival, a: Arrival)
    requires |spans| > 0 && forall i :: 0 <= i < |spans| ==> |spans[i]| > 0
    requires Tracks(t, spans, user) && t.start != MIN_VALUE && t.window == last.sample.window
    ensures var (t', r) := Update(t, a.sample, a.connected);
      if SameWindow(last, a) then t' == t && r == None
      else Tracks(t', spans + [[a]], user)
           && (if r.Some? then [r.value] else []) == SpanReport(spans[|spans| - 1], a, user)
  {
  }

  lemma {:induction false} LastOfRuns(arrivals: seq<Arrival>)
    requires |arrivals| > 0
    ensures var spans := RunsOf(arrivals, SameWindow);
      && |spans| > 0 && |spans[|spans| - 1]| > 0
      && spans[|spans| - 1][0].sample.window == arrivals[|arrivals| - 1].sample.window
      && spans[|spans| - 1][0] in arrivals
  {
    RunsAreMaximal(arrivals, SameWindow);
    var spans := RunsOf(arrivals, SameWindow);
    var last := spans[|spans| - 1];
    assert IsRun(last, SameWindow);
    SpanKey(last);
    assert arrivals == Flatten(spans[..|spans| - 1]) + last;
  }

  /** The incremental tracker agrees with the batch view: cut the samples into maximal spans on one
      window; every finished span is one report, sent if the connection was up when it ended. */
  lemma {:induction false} SentIsBatch(arrivals: seq<Arrival>)
    requires AfterMinValue(arrivals)
    ensures |arrivals| > 0 ==>
      var spans, user := RunsOf(arrivals, SameWindow), arrivals[0].sample.username;
      Sent(arrivals).1 == SpanReports(spans, user) && Tracks(Sent(arrivals).0, spans, user)
  {
    if |arrivals| == 1 {
      RunsStart([], arrivals[0], SameWindow);
      assert [] + arrivals == arrivals && [] + [[arrivals[0]]] == [[arrivals[0]]] && arrivals == [arrivals[0]];
      assert arrivals[..0] == [] && Sent(arrivals[..0]) == (INITIAL, []);
    } else if |arrivals| > 1 {
      var n := |arrivals| - 1;
      var init, a, user := arrivals[..n], arrivals[n], arrivals[0].sample.username;
      var spans := RunsOf(init, SameWindow);
      SentIsBatch(init);
      LastOfRuns(init);
      assert arrivals == init + [a];
      TrackStep(Sent(init).0, spans, user, init[n - 1], a);
      if SameWindow(init[n - 1], a) {
        RunsExtend(init, a, SameWindow);
        SpansExtend(spans, a, user);
      } else {
        RunsStart(init, a, SameWindow);
        SpansStart(spans, a, user);
      }
    }
  }

  /** Segments never overlap and never run ahead of the clock, whatever the connection did. */
  lemma {:induction false} SentIsOrdered(arrivals: seq<Arrival>)
    requires NonDecreasing(arrivals)
    ensures var (t, sent) := Sent(arrivals);
            && Ordered(sent) && Positive(sent)
            && (|arrivals| > 0 ==> t.start <= arrivals[|arrivals| - 1].sample.time)
            && (|arrivals| == 0 ==> sent == [] && t == INITIAL)
            && (|sent| > 0 ==> End(sent[|sent| - 1]) <= t.start)
  {
    if |arrivals| > 0 {
      SentIsOrdered(arrivals[..|arrivals| - 1]);
    }
  }

  /** The moment of the last window change, or of the first sample when there was none. */
  function LastChange(arrivals: seq<Arrival>): int
    requires |arrivals| > 0
  {
    var n := |arrivals| - 1;
    if n == 0 then arrivals[0].sample.time
    else if arrivals[n].sample.window != arrivals[n - 1].sample.window then arrivals[n].sample.time
    else LastChange(arrivals[..n])
  }

  ghost predicate AlwaysConnected(arrivals: seq<Arrival>) {
    forall i :: 0 <= i < |arrivals| ==> arrivals[i].connected
  }

  /** Each report starts exactly where the one before ended. */
  ghost predicate Contiguous(reports: seq<Report>) {
    forall i :: 0 < i < |reports| ==> reports[i].time == End(reports[i - 1])
  }

  /** While connected, the segments tile the time from the first sample to the last change. */
  lemma {:induction false} SentTiles(arrivals: seq<Arrival>)
    requires |arrivals| > 0 && NonDecreasing(arrivals) && AlwaysConnected(arrivals) && AfterMinValue(arrivals)
    ensures var (t, sent) := Sent(arrivals);
            && t.start == LastChange(arrivals) != MIN_VALUE
            && t.window == arrivals[|arrivals| - 1].sample.window
            && Contiguous(sent)
            && t.start == (if |sent| > 0 then End(sent[|sent| - 1]) else arrivals[0].sample.time)
            && (|sent| > 0 ==> sent[0].time == arrivals[0].sample.time)
  {
    if |arrivals| > 1 {
      var init := arrivals[..|arrivals| - 1];
      SentTiles(init);
      SentIsOrdered(init);
      assert arrivals[|arrivals| - 2] == init[|init| - 1];
    } else {
      assert arrivals[..0] == [];
    }
  }

  lemma {:induction false} ContiguousSum(reports: seq<Report>)
    requires |reports| > 0 && Contiguous(reports)
    ensures SumBy(reports, ReportedDuration) == End(reports[|reports| - 1]) - reports[0].time
  {
    var init := reports[..|reports| - 1];
    if |init| > 0 {
      ContiguousSum(init);
    } else {
      assert SumBy(init, ReportedDuration) == 0;
    }
  }
}
