/** The client's 24 hour usage chart, and when it agrees with the server's analytics. */
module UsageChart {
  import opened Sequences
  import opened Measure
  import opened LocalClock
  import opened HourBuckets
  import opened Analytics

  /** `ms / 1000 / 3600`, without the rounding of floating point. */
  function Hours(ms: int): real {
    ms as real / 1000.0 / 3600.0
  }

  function ContributionMs(iv: Interval, h: int, offset: int): int {
    SumBy(Contribution(iv, h, offset), Length)
  }

  /** Milliseconds the chart adds up for hour `h`, overlaps counted again each time. */
  function ChartMs(spans: seq<Interval>, h: int, offset: int): int {
    SumBy(Bucket(spans, h, offset), Length)
  }

  /** What the chart shows for hour `h`: the sum, capped at one full hour. */
  function Shown(spans: seq<Interval>, h: int, offset: int): real {
    var usage := Hours(ChartMs(spans, h, offset));
    if usage > 1.0 then 1.0 else usage
  }

  lemma {:induction false} ContributionMsStep(current: int, end: int, h: int, offset: int)
    requires current < end
    ensures var cut := Pieces(current, end, offset)[0].end;
            ContributionMs(Interval(current, end), h, offset)
            == (if h == HourOf(current, offset) then cut - current else 0)
               + ContributionMs(Interval(cut, end), h, offset)
  {
    var p := Pieces(current, end, offset);
    var first := if h == HourOf(current, offset) then [p[0]] else [];
    assert p[1..] == Pieces(p[0].end, end, offset);
    assert [p[0]][..0] == [] && SumBy([p[0]], Length) == SumBy([p[0]][..0], Length) + Length(p[0]);
    SumByAppend(first, Contribution(Interval(p[0].end, end), h, offset), Length);
  }

  /** The splitting loop of one session, adding to the hourly usage. */
  method AddSession(start: int, end: int, offset: int, before: seq<real>) returns (usage: seq<real>)
    requires |before| == 24
    ensures |usage| == 24
    ensures forall h :: 0 <= h < 24 ==> usage[h] == before[h] + Hours(ContributionMs(Interval(start, end), h, offset))
  {
    usage := before;
    var current := start;
    while current < end
      invariant |usage| == 24
      invariant forall h :: 0 <= h < 24 ==>
        usage[h] + Hours(ContributionMs(Interval(current, end), h, offset))
        == before[h] + Hours(ContributionMs(Interval(start, end), h, offset))
      decreases end - current
    {
      forall h | 0 <= h < 24
        ensures ContributionMs(Interval(current, end), h, offset)
             == (if h == HourOf(current, offset) then Pieces(current, end, offset)[0].end - current else 0)
                + ContributionMs(Interval(Pieces(current, end, offset)[0].end, end), h, offset)
      {
        ContributionMsStep(current, end, h, offset);
      }
      var hourEnd := HourStart(current, offset) + HOUR;
      var hour := HourOf(current, offset);
      var segmentEnd := if end < hourEnd then end else hourEnd;
      var durationInHour := (segmentEnd - current) as real / 1000.0;
      usage := usage[hour := usage[hour] + durationInHour / 3600.0];
      current := segmentEnd;
    }
  }

  /** `loadUsageData`: the summed usage of every hour, capped at one. */
  method LoadUsage(sessions: seq<Session>, offset: int) returns (usage: seq<real>)
    ensures |usage| == 24
    ensures forall h :: 0 <= h < 24 ==> usage[h] == Shown(Spans(sessions), h, offset)
  {
    usage := seq(24, _ => 0.0);
    for k := 0 to |sessions|
      invariant |usage| == 24
      invariant forall h :: 0 <= h < 24 ==> usage[h] == Hours(ChartMs(Spans(sessions[..k]), h, offset))
    {
      forall h | 0 <= h < 24
        ensures ChartMs(Spans(sessions[..k + 1]), h, offset)
             == ChartMs(Spans(sessions[..k]), h, offset) + ContributionMs(Span(sessions[k]), h, offset)
      {
        assert sessions[..k + 1] == sessions[..k] + [sessions[k]];
        AddToBuckets(sessions[..k], sessions[k], offset);
        SumByAppend(Bucket(Spans(sessions[..k]), h, offset), Contribution(Span(sessions[k]), h, offset), Length);
      }
      usage := AddSession(sessions[k].startTime * 1000, sessions[k].endTime * 1000, offset, usage);
    }
    assert sessions[..|sessions|] == sessions;
    ghost var exact := usage;
    for h := 0 to 24
      invariant |usage| == 24
      invariant forall i :: 0 <= i < h ==> usage[i] == if exact[i] > 1.0 then 1.0 else exact[i]
      invariant forall i :: h <= i < 24 ==> usage[i] == exact[i]
    {
      if usage[h] > 1.0 {
        usage := usage[h := 1.0];
      }
    }
  }

  // ---- Agreement with analytics -------------------------------------------------------------

  function ContributionAt(iv: Interval, offset: int): int -> int {
    h => ContributionMs(iv, h, offset)
  }

  function ChartAt(spans: seq<Interval>, offset: int): int -> int {
    h => ChartMs(spans, h, offset)
  }

  lemma {:induction false} ContributionSum(iv: Interval, cut: int, first: int -> int, offset: int)
    requires iv.start < iv.end && cut == Pieces(iv.start, iv.end, offset)[0].end
    requires forall h :: first(h) == if h == HourOf(iv.start, offset) then cut - iv.start else 0
    ensures SumTo(ContributionAt(iv, offset), 24)
         == cut - iv.start + SumTo(ContributionAt(Interval(cut, iv.end), offset), 24)
  {
    var whole, rest := ContributionAt(iv, offset), ContributionAt(Interval(cut, iv.end), offset);
    forall h ensures whole(h) == first(h) + rest(h) {
      ContributionMsStep(iv.start, iv.end, h, offset);
    }
    SumToAdds(whole, first, rest, 24);
    SumToSingle(first, HourOf(iv.start, offset), 24);
  }

  lemma {:induction false} ContributionAddsUp(iv: Interval, offset: int)
    ensures SumTo(ContributionAt(iv, offset), 24) == Length(iv)
    decreases iv.end - iv.start
  {
    if iv.start < iv.end {
      var cut := Pieces(iv.start, iv.end, offset)[0].end;
      ContributionSum(iv, cut, h => if h == HourOf(iv.start, offset) then cut - iv.start else 0, offset);
      ContributionAddsUp(Interval(cut, iv.end), offset);
    } else {
      SumToZero(ContributionAt(iv, offset), 24);
    }
  }

  /** The chart neither loses nor invents time: its 24 hours hold every session's full length. */
  lemma {:induction false} ChartAddsUp(spans: seq<Interval>, offset: int)
    ensures SumTo(ChartAt(spans, offset), 24) == SumBy(spans, Length)
  {
    if |spans| == 0 {
      SumToZero(ChartAt(spans, offset), 24);
    } else {
      var init, last := spans[..|spans| - 1], spans[|spans| - 1];
      forall h ensures ChartAt(spans, offset)(h) == ChartAt(init, offset)(h) + ContributionAt(last, offset)(h) {
        SumByAppend(Bucket(init, h, offset), Contribution(last, h, offset), Length);
      }
      SumToAdds(ChartAt(spans, offset), ChartAt(init, offset), ContributionAt(last, offset), 24);
      ChartAddsUp(init, offset);
      ContributionAddsUp(last, offset);
    }
  }

  lemma {:induction false} ChartAtLeastUnion(spans: seq<Interval>, h: int, offset: int)
    ensures ChartMs(spans, h, offset) >= ActiveMs(spans, h, offset)
  {
    MeasureAtMostSum(Bucket(spans, h, offset));
    BucketIsHourOfUnion(spans, h, offset);
  }

  /** Before the cap the chart's sums are the analytics measures in every hour exactly when no two
      sessions overlap. */
  lemma {:induction false} SumsExactIffDisjoint(spans: seq<Interval>, offset: int)
    ensures (forall h :: 0 <= h < 24 ==> ChartMs(spans, h, offset) == ActiveMs(spans, h, offset)) <==> Disjoint(spans)
  {
    var f, g := ChartAt(spans, offset), ActiveAt(spans, offset);
    assert forall h :: f(h) == ChartMs(spans, h, offset) && g(h) == ActiveMs(spans, h, offset);
    forall h | 0 <= h < 24 ensures f(h) >= g(h) {
      ChartAtLeastUnion(spans, h, offset);
    }
    SumToPointwise(f, g, 24);
    ChartAddsUp(spans, offset);
    HoursAddUp(spans, offset);
    SumIsMeasureIffDisjoint(spans);
  }

  /** What the chart shows for one hour against the analytics measure of that hour. Overlaps inflate
      the chart, but not beyond the cap, so a full hour hides them; and the cap falls short of a
      measure of more than an hour. */
  lemma {:induction false} ShownExactIff(spans: seq<Interval>, h: int, offset: int)
    ensures var shown, active := Shown(spans, h, offset), ActiveMs(spans, h, offset);
      && (shown >= Hours(active) <==> active <= HOUR)
      && (shown == Hours(active) <==> active <= HOUR && (Disjoint(Bucket(spans, h, offset)) || active == HOUR))
  {
    ChartAtLeastUnion(spans, h, offset);
    SumIsMeasureIffDisjoint(Bucket(spans, h, offset));
    BucketIsHourOfUnion(spans, h, offset);
  }

  /** The cutoff of the chart's own query, `/activity/sessions?hoursAgo=24`. */
  function ChartCutoff(now: int): int {
    now / 1000 - 24 * 3600
  }

  /** Both routes read the same rows, the chart oldest first and analytics newest first; and the chart
      shows the hours of the browser's clock, `zone` hours ahead of the server's. When no row ends after
      `now`, the chart never shows less for an hour than analytics counts for the same hour, and it
      shows the same exactly when the rows do not overlap in that hour, or fill it. */
  lemma {:induction false} ChartAgainstAnalytics(
    table: seq<Session>, chartRows: seq<Session>, now: int, offset: int, zone: int, h: int)
    requires multiset(chartRows) == multiset(Selected(table, ChartCutoff(now)))
    requires EndBy(Selected(table, OneDayAgo(now)), now) && 0 <= h < 24
    ensures var rows, there, browser := Selected(table, OneDayAgo(now)), HourInZone(h, zone), offset + zone * HOUR;
      var shown, active := Shown(Spans(chartRows), there, browser), ActiveMs(Spans(rows), h, offset);
      && shown >= Hours(active)
      && (shown == Hours(active) <==> Disjoint(Bucket(Spans(chartRows), there, browser)) || active == HOUR)
  {
    hide ActiveMs, Shown, Hours, HourInZone, Selected, Disjoint;
    assert ChartCutoff(now) == OneDayAgo(now);
    ActivePermutation(chartRows, Selected(table, OneDayAgo(now)), h, offset);
    TimelineAtMostSixty(table, now, offset, h);
    ActiveInZone(Spans(chartRows), h, offset, zone);
    ShownExactIff(Spans(chartRows), HourInZone(h, zone), offset + zone * HOUR);
  }

  lemma {:induction false} RowInFirstHour(d: int)
    requires 0 < d < HOUR
    ensures Contribution(Interval(0, d), 0, 0) == [Interval(0, d)]
  {
    var row := Interval(0, d);
    assert Pieces(0, d, 0) == [row] + Pieces(d, d, 0) == [row];
    assert [row][1..] == [] && InHour([row], 0, 0) == [row] + InHour([row][1..], 0, 0);
  }

  lemma {:induction false} TwiceAdded(row: Interval, h: int, offset: int)
    requires Contribution(row, h, offset) == [row]
    ensures ChartMs([row, row], h, offset) == 2 * Length(row)
  {
    hide Contribution;
    assert [row, row][..1] == [row] && [row][..0] == [];
    assert Bucket([row], h, offset) == Bucket([row][..0], h, offset) + [row] == [row];
    assert Bucket([row, row], h, offset) == [row] + [row] == [row, row];
    assert SumBy([row][..0], Length) == 0 && SumBy([row], Length) == Length(row);
    assert SumBy([row, row], Length) == SumBy([row, row][..1], Length) + Length(row);
  }

  lemma {:induction false} OnceCounted(d: int)
    requires 0 < d < HOUR
    ensures var row := Interval(0, d); ActiveMs([row, row], 0, 0) == d
  {
    var rows := [Interval(0, d), Interval(0, d)];
    forall t ensures t in InHourOf(Covered(rows), 0, 0) <==> t in Range(0, d) {
      assert Contains(rows[0], t) <==> 0 <= t < d;
    }
    assert InHourOf(Covered(rows), 0, 0) == Range(0, d);
  }

  /** Two equal rows within an hour, such as two half hours: the chart adds them up, analytics counts
      them once, and so the chart shows more, up to its cap. */
  lemma {:induction false} OverlapShowsMore(d: int)
    requires 0 < d < HOUR
    ensures var rows := [Interval(0, d), Interval(0, d)];
      && ActiveMs(rows, 0, 0) == d
      && Shown(rows, 0, 0) == (if 2 * d > HOUR then 1.0 else Hours(2 * d)) > Hours(d)
  {
    hide ChartMs, ActiveMs;
    RowInFirstHour(d);
    TwiceAdded(Interval(0, d), 0, 0);
    OnceCounted(d);
  }

  /** For disjoint rows that do not end after `now` the cap at 1.0 never fires. */
  lemma {:induction false} CapNeverFires(rows: seq<Session>, now: int, offset: int, h: int)
    requires forall s :: s in rows ==> OneDayAgo(now) <= s.startTime && s.endTime * 1000 <= now
    requires Disjoint(Spans(rows))
    requires 0 <= h < 24
    ensures Hours(ChartMs(Spans(rows), h, offset)) <= 1.0
    ensures Shown(Spans(rows), h, offset) == Hours(ActiveMs(Spans(rows), h, offset))
  {
    SumsExactIffDisjoint(Spans(rows), offset);
    RowsAtMostHour(rows, now, offset, h);
    assert ChartMs(Spans(rows), h, offset) == ActiveMs(Spans(rows), h, offset);
  }

  /** Hours as whole minutes, halves up. */
  function RoundedMinutes(hours: real): int {
    (60.0 * hours + 0.5).Floor
  }

  /** The minutes analytics shows are the hours in minutes, rounded. */
  lemma {:induction false} MinutesOfHours(ms: int)
    ensures Round(ms, 60_000) == RoundedMinutes(Hours(ms))
  {
    var x := 60.0 * Hours(ms) + 0.5;
    assert x == (2 * ms + 60_000) as real / 120_000.0;
    assert Round(ms, 60_000) * 120_000 <= 2 * ms + 60_000 < (Round(ms, 60_000) + 1) * 120_000;
  }

  lemma {:induction false} DurationsAreLengths(rows: seq<Session>)
    requires forall s :: s in rows ==> s.durationSeconds == s.endTime - s.startTime >= 0
    ensures 1000 * SumBy(rows, DurationOf) == SumBy(Spans(rows), Length)
  {
    if |rows| > 0 {
      var spans := Spans(rows);
      assert spans == Spans(rows[..|rows| - 1]) + [Span(rows[|rows| - 1])];
      assert spans[..|spans| - 1] == Spans(rows[..|rows| - 1]);
      assert rows[|rows| - 1] in rows;
      DurationsAreLengths(rows[..|rows| - 1]);
    }
  }

  /** `totalDuration` of the summary equals the hourly measures exactly for disjoint rows. */
  lemma {:induction false} TotalDurationIsUnionIffDisjoint(rows: seq<Session>, offset: int)
    requires forall s :: s in rows ==> s.durationSeconds == s.endTime - s.startTime >= 0
    ensures 1000 * SumBy(rows, DurationOf) == SumTo(ActiveAt(Spans(rows), offset), 24) <==> Disjoint(Spans(rows))
  {
    DurationsAreLengths(rows);
    HoursAddUp(Spans(rows), offset);
    SumIsMeasureIffDisjoint(Spans(rows));
  }
}
