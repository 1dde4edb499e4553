/** Agent samples to stored sessions to the two reports: what holds from end to end. */
module ActivityPipeline {
  import opened Wrappers
  import opened Sequences
  import opened Measure
  import opened LocalClock
  import opened HourBuckets
  import opened Analytics
  import opened UsageChart
  import opened ActivitySessions
  import opened ActivityCoordinator

  ghost predicate PositiveRows(rows: seq<Row>) {
    forall i :: 0 <= i < |rows| ==>
      rows[i].startTime < rows[i].endTime && rows[i].durationSeconds == rows[i].endTime - rows[i].startTime
  }

  lemma {:induction false} PositiveStep(before: seq<Row>, last: Report, r: Report, rows: seq<Row>)
    requires |before| > 0 && MostRecent(before, |before| - 1) && rows == Handled(before, |before| - 1, r)
    requires PositiveRows(before) && before[|before| - 1].endTime == End(last) && Follows(last, r) && r.duration > 0
    ensures PositiveRows(rows)
  {
  }

  /** Sessions last a positive time when all reports do. */
  lemma {:induction false} RowsPositive(reports: seq<Report>, rows: seq<Row>)
    requires Built(reports, rows) && Ordered(reports) && Positive(reports)
    ensures PositiveRows(rows)
  {
    if |reports| > 0 {
      var n := |reports| - 1;
      var before :| Built(reports[..n], before) && Step(before, reports[n], rows);
      if n > 0 {
        OrderedInit(reports);
        RowsPositive(reports[..n], before);
        BuiltBatch(reports[..n], before);
        LastIsMostRecent(before, reports[n], rows);
        PositiveStep(before, reports[n - 1], reports[n], rows);
      } else {
        assert rows == [Created(reports[0])];
      }
    }
  }

  lemma {:induction false} TotalStep(before: seq<Row>, last: Report, r: Report, rows: seq<Row>)
    requires |before| > 0 && MostRecent(before, |before| - 1) && rows == Handled(before, |before| - 1, r)
    requires before[|before| - 1].endTime == End(last) == r.time
    requires before[|before| - 1].durationSeconds == End(last) - before[|before| - 1].startTime
    ensures SumBy(rows, StoredDuration) == SumBy(before, StoredDuration) + r.duration
  {
    var n := |before| - 1;
    if ShouldExtend(before[n], r) {
      assert rows[..n] == before[..n];
    } else {
      assert rows[..n + 1] == before;
    }
  }

  lemma {:induction false} FirstTotal(reports: seq<Report>, before: seq<Row>, rows: seq<Row>)
    requires |reports| == 1 && Built(reports[..0], before) && Step(before, reports[0], rows)
    ensures SumBy(rows, StoredDuration) == SumBy(reports, ReportedDuration)
  {
    assert before == [] && rows == [Created(reports[0])];
    assert reports[..0] == [] && rows[..0] == [];
    assert SumBy(rows, StoredDuration) == SumBy(rows[..0], StoredDuration) + rows[0].durationSeconds;
    assert SumBy(reports, ReportedDuration) == SumBy(reports[..0], ReportedDuration) + reports[0].duration;
  }

  lemma {:induction false} NextTotal(reports: seq<Report>, before: seq<Row>, rows: seq<Row>)
    requires |reports| > 1 && Ordered(reports) && Contiguous(reports)
    requires IsBatch(reports[..|reports| - 1], before) && Step(before, reports[|reports| - 1], rows)
    ensures SumBy(rows, StoredDuration) == SumBy(before, StoredDuration) + reports[|reports| - 1].duration
  {
    var n := |reports| - 1;
    OrderedInit(reports);
    LastIsMostRecent(before, reports[n], rows);
    TotalStep(before, reports[n - 1], reports[n], rows);
  }

  /** Merging contiguous reports loses no time. */
  lemma {:induction false} ContiguousTotal(reports: seq<Report>, rows: seq<Row>)
    requires Built(reports, rows) && Ordered(reports) && Contiguous(reports)
    ensures SumBy(rows, StoredDuration) == SumBy(reports, ReportedDuration)
  {
    hide Step, IsBatch;
    if |reports| > 0 {
      var n := |reports| - 1;
      var before :| Built(reports[..n], before) && Step(before, reports[n], rows);
      if n > 0 {
        OrderedInit(reports);
        ContiguousTotal(reports[..n], before);
        BuiltBatch(reports[..n], before);
        NextTotal(reports, before, rows);
        assert SumBy(reports, ReportedDuration) == SumBy(reports[..n], ReportedDuration) + reports[n].duration;
      } else {
        FirstTotal(reports, before, rows);
      }
    }
  }

  /** Under any pattern of connections the stored sessions are in order and pairwise disjoint. */
  lemma {:induction false} SessionsInOrder(arrivals: seq<Arrival>, rows: seq<Row>)
    requires NonDecreasing(arrivals) && Built(Sent(arrivals).1, rows)
    ensures Chained(rows)
    ensures PositiveRows(rows)
  {
    SentIsOrdered(arrivals);
    IncrementalIsBatch(Sent(arrivals).1, rows);
    RowsPositive(Sent(arrivals).1, rows);
  }

  /** While always connected, the sessions add up to the whole observed time: from the first sample
      to the last window change. */
  lemma {:induction false} ConnectedTotal(arrivals: seq<Arrival>, rows: seq<Row>)
    requires |arrivals| > 0 && NonDecreasing(arrivals) && AlwaysConnected(arrivals) && AfterMinValue(arrivals)
    requires Built(Sent(arrivals).1, rows)
    ensures SumBy(rows, StoredDuration) == LastChange(arrivals) - arrivals[0].sample.time
  {
    var sent := Sent(arrivals).1;
    SentIsOrdered(arrivals);
    SentTiles(arrivals);
    ContiguousTotal(sent, rows);
    if |sent| > 0 {
      ContiguousSum(sent);
    }
  }

  // ---- From the table to the two reports ----------------------------------------------------

  function AsSession(row: Row): Session {
    Session(row.startTime, row.endTime, row.durationSeconds, Some(row.process))
  }

  function AsSessions(rows: seq<Row>): (s: seq<Session>)
    ensures |s| == |rows|
    ensures forall i :: 0 <= i < |s| ==> s[i] == AsSession(rows[i])
  {
    if |rows| == 0 then [] else AsSessions(rows[..|rows| - 1]) + [AsSession(rows[|rows| - 1])]
  }

  ghost predicate Sequential(s: seq<Session>) {
    forall i, j :: 0 <= i < j < |s| ==> s[i].endTime <= s[j].startTime
  }

  lemma {:induction false} SelectedSequential(s: seq<Session>, cutoff: int)
    requires Sequential(s)
    ensures Sequential(Selected(s, cutoff))
    ensures forall x :: x in Selected(s, cutoff) ==> x in s
  {
    if |s| > 0 {
      SelectedSequential(s[..|s| - 1], cutoff);
      forall x | x in Selected(s[..|s| - 1], cutoff) ensures x.endTime <= s[|s| - 1].startTime {
        var i :| 0 <= i < |s| - 1 && s[i] == x;
      }
    }
  }

  lemma {:induction false} SequentialIsDisjoint(s: seq<Session>)
    requires Sequential(s)
    ensures Disjoint(Spans(s))
  {
    var spans := Spans(s);
    forall i, j, t | 0 <= i < j < |spans| && Contains(spans[i], t) ensures !Contains(spans[j], t) {
      assert spans[i] == Span(s[i]) && spans[j] == Span(s[j]);
    }
  }

  function SpanLength(s: Session): int { Length(Span(s)) }

  lemma {:induction false} SpanLengths(s: seq<Session>)
    ensures SumBy(Spans(s), Length) == SumBy(s, SpanLength)
  {
    if |s| > 0 {
      SpanLengths(s[..|s| - 1]);
      assert Spans(s)[..|s| - 1] == Spans(s[..|s| - 1]);
    }
  }

  /** Disjointness survives any reordering of the rows, such as the chart's own `orderBy`. */
  lemma {:induction false} DisjointPermutation(a: seq<Session>, b: seq<Session>)
    requires multiset(a) == multiset(b) && Disjoint(Spans(a))
    ensures Disjoint(Spans(b))
  {
    SumIsMeasureIffDisjoint(Spans(a));
    SumIsMeasureIffDisjoint(Spans(b));
    SpansPermutation(a, b);
    SpanLengths(a);
    SpanLengths(b);
    SumByPermutation(a, b, SpanLength);
  }

  /** What a table of positive rows in time order looks like to the two reports. */
  lemma {:induction false} TableIsClean(rows: seq<Row>, cutoff: int)
    requires Chained(rows) && PositiveRows(rows)
    ensures var selected := Selected(AsSessions(rows), cutoff);
      && Disjoint(Spans(selected))
      && forall s :: s in selected ==> s.durationSeconds == s.endTime - s.startTime >= 0
  {
    var table := AsSessions(rows);
    assert Sequential(table);
    SelectedSequential(table, cutoff);
    SequentialIsDisjoint(Selected(table, cutoff));
    forall s | s in table ensures s.durationSeconds == s.endTime - s.startTime >= 0 {
      var i :| 0 <= i < |table| && table[i] == s;
    }
  }

  lemma {:induction false} RowsEndByLastSample(arrivals: seq<Arrival>, rows: seq<Row>)
    requires NonDecreasing(arrivals) && Built(Sent(arrivals).1, rows)
    ensures forall i :: 0 <= i < |rows| ==> |arrivals| > 0 && rows[i].endTime <= arrivals[|arrivals| - 1].sample.time
  {
    SentIsOrdered(arrivals);
    BuiltBatch(Sent(arrivals).1, rows);
  }

  lemma {:induction false} SelectedEndBy(rows: seq<Row>, cutoff: int, now: int)
    requires Chained(rows) && forall i :: 0 <= i < |rows| ==> rows[i].endTime * 1000 <= now
    ensures EndBy(Selected(AsSessions(rows), cutoff), now)
  {
    SelectedSequential(AsSessions(rows), cutoff);
  }

  lemma {:induction false} ChartRowsInWindow(table: seq<Session>, chartRows: seq<Session>, now: int)
    requires multiset(chartRows) == multiset(Selected(table, OneDayAgo(now)))
    requires EndBy(Selected(table, OneDayAgo(now)), now)
    ensures forall s :: s in chartRows ==> OneDayAgo(now) <= s.startTime && s.endTime * 1000 <= now
  {
    SelectedAfter(table, OneDayAgo(now));
    forall s | s in chartRows ensures OneDayAgo(now) <= s.startTime && s.endTime * 1000 <= now {
      assert s in multiset(Selected(table, OneDayAgo(now)));
    }
  }

  /** Disjoint rows up to `now` look the same on both screens, the browser's clock being `zone` hours
      ahead of the server's. */
  lemma {:induction false} ScreensAgree(
    table: seq<Session>, chartRows: seq<Session>, now: int, offset: int, zone: int, h: int)
    requires multiset(chartRows) == multiset(Selected(table, ChartCutoff(now))) && 0 <= h < 24
    requires EndBy(Selected(table, OneDayAgo(now)), now) && Disjoint(Spans(Selected(table, OneDayAgo(now))))
    ensures var active := ActiveMs(Spans(Selected(table, OneDayAgo(now))), h, offset);
      var shown := Shown(Spans(chartRows), HourInZone(h, zone), offset + zone * HOUR);
      shown == Hours(active) && Round(active, 60_000) == RoundedMinutes(shown)
  {
    hide ActiveMs, Shown, Hours, HourInZone, Selected, Disjoint, RoundedMinutes, Round;
    var selected := Selected(table, OneDayAgo(now));
    assert OneDayAgo(now) == ChartCutoff(now);
    DisjointPermutation(selected, chartRows);
    ActivePermutation(chartRows, selected, h, offset);
    ChartRowsInWindow(table, chartRows, now);
    CapNeverFires(chartRows, now, offset + zone * HOUR, HourInZone(h, zone));
    ActiveInZone(Spans(chartRows), h, offset, zone);
    MinutesOfHours(ActiveMs(Spans(selected), h, offset));
  }

  /** From agent samples to screens: for sessions recorded by one agent up to `now`, what the chart
      shows for each hour is exactly what analytics counts for the same hour, in minutes and rounded
      what analytics shows, and analytics' grand total is the sum of the hours. */
  lemma {:induction false} ReportsAgree(
    arrivals: seq<Arrival>, rows: seq<Row>, chartRows: seq<Session>, now: int, offset: int, zone: int)
    requires NonDecreasing(arrivals) && Built(Sent(arrivals).1, rows)
    requires |arrivals| > 0 ==> arrivals[|arrivals| - 1].sample.time * 1000 <= now
    requires multiset(chartRows) == multiset(Selected(AsSessions(rows), ChartCutoff(now)))
    ensures var selected := Selected(AsSessions(rows), OneDayAgo(now));
      && (forall h :: 0 <= h < 24 ==>
            var active := ActiveMs(Spans(selected), h, offset);
            var shown := Shown(Spans(chartRows), HourInZone(h, zone), offset + zone * HOUR);
            shown == Hours(active) && Round(active, 60_000) == RoundedMinutes(shown))
      && 1000 * SumBy(selected, DurationOf) == SumTo(ActiveAt(Spans(selected), offset), 24)
  {
    hide ActiveMs, Shown, Hours, HourInZone, Selected, RoundedMinutes, Round;
    var selected := Selected(AsSessions(rows), OneDayAgo(now));
    SessionsInOrder(arrivals, rows);
    TableIsClean(rows, OneDayAgo(now));
    RowsEndByLastSample(arrivals, rows);
    SelectedEndBy(rows, OneDayAgo(now), now);
    forall h | 0 <= h < 24
      ensures
        var active := ActiveMs(Spans(selected), h, offset);
        var shown := Shown(Spans(chartRows), HourInZone(h, zone), offset + zone * HOUR);
        shown == Hours(active) && Round(active, 60_000) == RoundedMinutes(shown)
    {
      ScreensAgree(AsSessions(rows), chartRows, now, offset, zone, h);
    }
    TotalDurationIsUnionIffDisjoint(selected, offset);
  }
}
