/** The `/summary/:machineId` route: sessions to hourly active minutes and totals. */
module Analytics {
  import opened Wrappers
  import opened Sequences
  import opened Measure
  import opened LocalClock
  import opened HourBuckets
  import opened IntervalMerge

  /** The columns of an activity session row that the summary reads; times in seconds. */
  datatype Session = Session(startTime: int, endTime: int, durationSeconds: int, processName: Option<string>)

  function Span(s: Session): Interval {
    Interval(s.startTime * 1000, s.endTime * 1000)
  }

  function Spans(sessions: seq<Session>): (r: seq<Interval>)
    ensures |r| == |sessions|
    ensures forall i :: 0 <= i < |r| ==> r[i] == Span(sessions[i])
  {
    if |sessions| == 0 then [] else Spans(sessions[..|sessions| - 1]) + [Span(sessions[|sessions| - 1])]
  }

  lemma {:induction false} SpansPermutation(a: seq<Session>, b: seq<Session>)
    requires multiset(a) == multiset(b)
    ensures Covered(Spans(a)) == Covered(Spans(b))
  {
    forall t ensures Covers(Spans(a), t) <==> Covers(Spans(b), t) {
      SpansCover(a, b, t);
      SpansCover(b, a, t);
    }
  }

  lemma {:induction false} SpansCover(a: seq<Session>, b: seq<Session>, t: int)
    requires multiset(a) == multiset(b)
    ensures Covers(Spans(a), t) ==> Covers(Spans(b), t)
  {
    if Covers(Spans(a), t) {
      var i :| 0 <= i < |a| && Contains(Spans(a)[i], t);
      assert a[i] in multiset(b);
      var j :| 0 <= j < |b| && b[j] == a[i];
      assert Contains(Spans(b)[j], t);
    }
  }

  function DurationOf(s: Session): int { s.durationSeconds }

  function AppName(s: Session): string {
    if s.processName.None? || s.processName.value == "" then "Unknown" else s.processName.value
  }

  function DurationFor(name: string): Session -> int {
    (s: Session) => if AppName(s) == name then s.durationSeconds else 0
  }

  ghost function AppNames(sessions: seq<Session>): set<string> {
    set i | 0 <= i < |sessions| :: AppName(sessions[i])
  }

  /** Every app with its summed duration. */
  ghost predicate AreAppTotals(totals: map<string, int>, sessions: seq<Session>) {
    && totals.Keys == AppNames(sessions)
    && forall name :: name in totals ==> totals[name] == SumBy(sessions, DurationFor(name))
  }

  ghost function AppTotals(sessions: seq<Session>): map<string, int> {
    map name | name in AppNames(sessions) :: SumBy(sessions, DurationFor(name))
  }

  /** Which sessions count for an app: those that name it, and for "Unknown" also those that name no
      process. */
  predicate CountsFor(s: Session, name: string) {
    || (s.processName == Some(name) && name != "")
    || (name == "Unknown" && (s.processName == None || s.processName == Some("")))
  }

  function NamedDuration(name: string): Session -> int {
    (s: Session) => if CountsFor(s, name) then s.durationSeconds else 0
  }

  lemma {:induction false} SameSums(sessions: seq<Session>, name: string)
    ensures SumBy(sessions, DurationFor(name)) == SumBy(sessions, NamedDuration(name))
  {
    if |sessions| > 0 {
      SameSums(sessions[..|sessions| - 1], name);
    }
  }

  /** The totals are of exactly the apps some session counts for, and add up those sessions. */
  lemma {:induction false} AppTotalsMean(sessions: seq<Session>, name: string)
    ensures name in AppTotals(sessions) <==> exists s :: s in sessions && CountsFor(s, name)
    ensures name in AppTotals(sessions) ==> AppTotals(sessions)[name] == SumBy(sessions, NamedDuration(name))
  {
    if name in AppTotals(sessions) {
      var i :| 0 <= i < |sessions| && AppName(sessions[i]) == name;
      assert sessions[i] in sessions && CountsFor(sessions[i], name);
      SameSums(sessions, name);
    }
    if s :| s in sessions && CountsFor(s, name) {
      var i :| 0 <= i < |sessions| && sessions[i] == s;
      assert AppName(sessions[i]) == name;
    }
  }

  lemma {:induction false} AbsentAppTotal(sessions: seq<Session>, name: string)
    requires name !in AppNames(sessions)
    ensures SumBy(sessions, DurationFor(name)) == 0
  {
    if |sessions| > 0 {
      var init := sessions[..|sessions| - 1];
      assert AppName(sessions[|sessions| - 1]) in AppNames(sessions);
      forall i | 0 <= i < |init| ensures AppName(init[i]) in AppNames(sessions) {
        assert init[i] == sessions[i];
      }
      AbsentAppTotal(init, name);
    }
  }

  lemma {:induction false} AddToAppTotal(totals: map<string, int>, sessions: seq<Session>, s: Session)
    requires AreAppTotals(totals, sessions)
    ensures var before := if AppName(s) in totals then totals[AppName(s)] else 0;
            AreAppTotals(totals[AppName(s) := before + s.durationSeconds], sessions + [s])
  {
    var more := sessions + [s];
    assert more[..|sessions|] == sessions && more[|sessions|] == s;
    assert AppNames(more) == AppNames(sessions) + {AppName(s)} by {
      forall i | 0 <= i < |sessions| ensures AppName(sessions[i]) in AppNames(more) {
        assert more[i] == sessions[i];
      }
      assert AppName(more[|sessions|]) in AppNames(more);
    }
    if AppName(s) !in totals {
      AbsentAppTotal(sessions, AppName(s));
    }
  }

  lemma {:induction false} ContributionStep(current: int, end: int, h: int, offset: int)
    requires current < end
    ensures var piece := Pieces(current, end, offset)[0];
      Contribution(Interval(current, end), h, offset)
      == (if h == HourOf(current, offset) then [piece] else []) + Contribution(Interval(piece.end, end), h, offset)
  {
    var p := Pieces(current, end, offset);
    assert p[1..] == Pieces(p[0].end, end, offset);
  }

  /** The splitting loop of one session, pushing into the hourly buckets. */
  method PushPieces(start: int, end: int, offset: int, before: seq<seq<Interval>>) returns (hourly: seq<seq<Interval>>)
    requires |before| == 24
    ensures |hourly| == 24
    ensures forall h :: 0 <= h < 24 ==> hourly[h] == before[h] + Contribution(Interval(start, end), h, offset)
  {
    hourly := before;
    var current := start;
    while current < end
      invariant |hourly| == 24
      invariant forall h :: 0 <= h < 24 ==>
        hourly[h] + Contribution(Interval(current, end), h, offset)
        == before[h] + Contribution(Interval(start, end), h, offset)
      decreases end - current
    {
      var hourEnd := HourStart(current, offset) + HOUR;
      var hour := HourOf(current, offset);
      var segmentEnd := if end < hourEnd then end else hourEnd;
      var piece := Interval(current, segmentEnd);
      forall h | 0 <= h < 24
        ensures Contribution(Interval(current, end), h, offset)
             == (if h == hour then [piece] else []) + Contribution(Interval(segmentEnd, end), h, offset)
      {
        ContributionStep(current, end, h, offset);
      }
      hourly := hourly[hour := hourly[hour] + [piece]];
      current := segmentEnd;
    }
  }

  /** The pass over all activities: buckets, app totals and the grand total. */
  method Accumulate(activities: seq<Session>, offset: int)
    returns (hourly: seq<seq<Interval>>, appDurations: map<string, int>, totalDuration: int)
    ensures |hourly| == 24
    ensures forall h :: 0 <= h < 24 ==> hourly[h] == Bucket(Spans(activities), h, offset)
    ensures totalDuration == SumBy(activities, DurationOf)
    ensures AreAppTotals(appDurations, activities)
  {
    hourly := seq(24, _ => []);
    appDurations, totalDuration := map[], 0;
    for k := 0 to |activities|
      invariant |hourly| == 24
      invariant forall h :: 0 <= h < 24 ==> hourly[h] == Bucket(Spans(activities[..k]), h, offset)
      invariant totalDuration == SumBy(activities[..k], DurationOf)
      invariant AreAppTotals(appDurations, activities[..k])
    {
      var activity := activities[k];
      AddToAppTotal(appDurations, activities[..k], activity);
      AddToBuckets(activities[..k], activity, offset);
      assert activities[..k + 1] == activities[..k] + [activity];
      var appName := AppName(activity);
      appDurations := appDurations[appName :=
        (if appName in appDurations then appDurations[appName] else 0) + activity.durationSeconds];
      totalDuration := totalDuration + activity.durationSeconds;
      hourly := PushPieces(activity.startTime * 1000, activity.endTime * 1000, offset, hourly);
    }
    assert activities[..|activities|] == activities;
  }

  lemma {:induction false} AddToBuckets(sessions: seq<Session>, s: Session, offset: int)
    ensures SumBy(sessions + [s], DurationOf) == SumBy(sessions, DurationOf) + s.durationSeconds
    ensures forall h :: Bucket(Spans(sessions + [s]), h, offset)
                     == Bucket(Spans(sessions), h, offset) + Contribution(Span(s), h, offset)
  {
    assert (sessions + [s])[..|sessions|] == sessions;
    var spans := Spans(sessions + [s]);
    assert spans == Spans(sessions) + [Span(s)];
    assert spans[..|spans| - 1] == Spans(sessions) && spans[|spans| - 1] == Span(s);
  }

  lemma {:induction false} ContributionNonEmpty(iv: Interval, h: int, offset: int)
    ensures NonEmpty(Contribution(iv, h, offset))
    decreases iv.end - iv.start
  {
    var p := Pieces(iv.start, iv.end, offset);
    if iv.start < iv.end {
      ContributionNonEmpty(Interval(p[0].end, iv.end), h, offset);
      assert p[1..] == Pieces(p[0].end, iv.end, offset);
    }
  }

  lemma {:induction false} BucketNonEmpty(spans: seq<Interval>, h: int, offset: int)
    ensures NonEmpty(Bucket(spans, h, offset))
  {
    if |spans| > 0 {
      BucketNonEmpty(spans[..|spans| - 1], h, offset);
      ContributionNonEmpty(spans[|spans| - 1], h, offset);
    }
  }

  lemma {:induction false} RoundIsNearest(x: int, y: int)
    requires y > 0
    ensures x - y < x / y * y <= x
  {
  }

  /** `Math.round(a / b)` for a positive `b`: the nearest integer, halves go up. */
  function Round(a: int, b: int): (r: int)
    requires b > 0
    ensures -b < 2 * (r * b - a) <= b
  {
    RoundIsNearest(2 * a + b, 2 * b);
    (2 * a + b) / (2 * b)
  }

  /** Active minutes of each hour: the union measure of that hour, rounded. */
  method Timeline(
    hourlyIntervals: seq<seq<Interval>>, ghost spans: seq<Interval>, offset: int) returns (minutes: seq<int>)
    requires |hourlyIntervals| == 24
    requires forall h :: 0 <= h < 24 ==> hourlyIntervals[h] == Bucket(spans, h, offset)
    ensures |minutes| == 24
    ensures forall h :: 0 <= h < 24 ==> minutes[h] == Round(ActiveMs(spans, h, offset), 60_000)
  {
    minutes := [];
    for h := 0 to 24
      invariant |minutes| == h
      invariant forall i :: 0 <= i < h ==> minutes[i] == Round(ActiveMs(spans, i, offset), 60_000)
    {
      var activeMinutes := ActiveMinutes(hourlyIntervals[h], spans, h, offset);
      minutes := minutes + [activeMinutes];
    }
  }

  method ActiveMinutes(
    intervals: seq<Interval>, ghost spans: seq<Interval>, h: int, offset: int) returns (activeMinutes: int)
    requires intervals == Bucket(spans, h, offset)
    ensures activeMinutes == Round(ActiveMs(spans, h, offset), 60_000)
  {
    BucketNonEmpty(spans, h, offset);
    BucketIsHourOfUnion(spans, h, offset);
    if |intervals| == 0 {
      EmptyCovered();
      return 0;
    }
    var mergedDuration := MergedDuration(intervals);
    activeMinutes := Round(mergedDuration, 60_000);
  }

  lemma {:induction false} EmptyCovered()
    ensures |Covered([])| == 0
  {
    assert forall t :: !Covers([], t);
    SplitSize(Covered([]), {}, {});
  }

  // ---- Top apps -----------------------------------------------------------------------------

  datatype AppShare = AppShare(name: string, percentage: int)

  /** Percent of the total, rounded; of nothing, none. */
  function Percentage(duration: int, total: int): (r: int)
    ensures total <= 0 ==> r == 0
    ensures total > 0 ==> -total < 2 * (r * total - 100 * duration) <= total
  {
    if total > 0 then Round(100 * duration, total) else 0
  }

  function ShareOf(totals: map<string, int>, total: int, name: string): AppShare
    requires name in totals
  {
    AppShare(name, Percentage(totals[name], total))
  }

  predicate IsShare(s: AppShare, totals: map<string, int>, total: int) {
    s.name in totals && s == ShareOf(totals, total, s.name)
  }

  function Falling(s: AppShare): int { -s.percentage }

  /** The shares of these apps, each once, in some order. */
  ghost predicate Lists(shares: seq<AppShare>, totals: map<string, int>, total: int, names: set<string>) {
    && names <= totals.Keys && |shares| == |names|
    && (forall x :: x in multiset(shares) ==> x.name in names && x == ShareOf(totals, total, x.name))
    && (forall x :: multiset(shares)[x] <= 1)
    && forall name :: name in names ==> ShareOf(totals, total, name) in multiset(shares)
  }

  /** At most five different apps, by falling percentage, and no app left out has a higher one. */
  ghost predicate AreTopApps(top: seq<AppShare>, totals: map<string, int>, total: int) {
    && |top| == (if |totals| < 5 then |totals| else 5)
    && (forall i :: 0 <= i < |top| ==> IsShare(top[i], totals, total))
    && (forall i, j :: 0 <= i < j < |top| ==> top[i].name != top[j].name && top[i].percentage >= top[j].percentage)
    && forall name, i :: name in totals && 0 <= i < |top| && ShareOf(totals, total, name) !in top ==>
         Percentage(totals[name], total) <= top[i].percentage
  }

  lemma {:induction false} TwiceInMultiset<T>(s: seq<T>, i: nat, j: nat)
    requires i < j < |s| && s[i] == s[j]
    ensures multiset(s)[s[i]] >= 2
  {
    assert s == s[..j] + s[j..];
    assert s[i] == s[..j][i] && s[j] == s[j..][0];
    assert s[i] in multiset(s[..j]) && s[j] in multiset(s[j..]);
  }

  /** A sorted list of all shares, none of them twice. */
  ghost predicate Ranked(sorted: seq<AppShare>, totals: map<string, int>, total: int) {
    && |sorted| == |totals|
    && (forall i :: 0 <= i < |sorted| ==> IsShare(sorted[i], totals, total))
    && (forall i, j :: 0 <= i < j < |sorted| ==> sorted[i] != sorted[j] && sorted[i].percentage >= sorted[j].percentage)
    && forall name :: name in totals ==> ShareOf(totals, total, name) in sorted
  }

  lemma {:induction false} SortedIsRanked(
    shares: seq<AppShare>, sorted: seq<AppShare>, totals: map<string, int>, total: int)
    requires Lists(shares, totals, total, totals.Keys)
    requires multiset(sorted) == multiset(shares) && SortedBy(sorted, Falling)
    ensures Ranked(sorted, totals, total)
  {
    SameLength(sorted, shares);
    forall i | 0 <= i < |sorted| ensures IsShare(sorted[i], totals, total) {
      assert sorted[i] in multiset(shares);
    }
    forall i, j | 0 <= i < j < |sorted| ensures sorted[i] != sorted[j] && sorted[i].percentage >= sorted[j].percentage {
      assert Falling(sorted[i]) <= Falling(sorted[j]);
      if sorted[i] == sorted[j] {
        TwiceInMultiset(sorted, i, j);
      }
    }
    forall name | name in totals ensures ShareOf(totals, total, name) in sorted {
      assert ShareOf(totals, total, name) in multiset(sorted);
    }
  }

  lemma {:induction false} LeftOutIsLower(
    sorted: seq<AppShare>, n: nat, totals: map<string, int>, total: int, name: string, i: nat)
    requires Ranked(sorted, totals, total) && i < n <= |sorted|
    requires name in totals && ShareOf(totals, total, name) !in sorted[..n]
    ensures Percentage(totals[name], total) <= sorted[i].percentage
  {
    hide Percentage;
    var j :| 0 <= j < |sorted| && sorted[j] == ShareOf(totals, total, name);
    assert forall k :: 0 <= k < n ==> sorted[..n][k] == sorted[k];
    assert i < j;
  }

  lemma {:induction false} FirstFive(sorted: seq<AppShare>, totals: map<string, int>, total: int)
    requires Ranked(sorted, totals, total)
    ensures AreTopApps(sorted[..if |sorted| < 5 then |sorted| else 5], totals, total)
  {
    hide Percentage;
    var n := if |sorted| < 5 then |sorted| else 5;
    forall name, i | name in totals && 0 <= i < n && ShareOf(totals, total, name) !in sorted[..n]
      ensures Percentage(totals[name], total) <= sorted[..n][i].percentage
    {
      LeftOutIsLower(sorted, n, totals, total, name, i);
    }
  }

  lemma {:induction false} ListOneMore(
    shares: seq<AppShare>, totals: map<string, int>, total: int, names: set<string>, name: string)
    requires Lists(shares, totals, total, names) && name in totals && name !in names
    ensures Lists(shares + [ShareOf(totals, total, name)], totals, total, names + {name})
  {
    var share := ShareOf(totals, total, name);
    assert multiset(shares + [share]) == multiset(shares) + multiset{share};
    assert share !in multiset(shares);
  }

  lemma {:induction false} NothingListed(totals: map<string, int>, total: int)
    ensures Lists([], totals, total, {})
  {
  }

  /** Percentages of the total, sorted, and the first five; the entries come in any order. */
  method TopApps(appDurations: map<string, int>, totalDuration: int) returns (topApps: seq<AppShare>)
    ensures AreTopApps(topApps, appDurations, totalDuration)
  {
    hide *;
    NothingListed(appDurations, totalDuration);
    var entries: seq<AppShare> := [];
    var rest := appDurations.Keys;
    ghost var done := {};
    while rest != {}
      invariant done !! rest && done + rest == appDurations.Keys
      invariant Lists(entries, appDurations, totalDuration, done)
      decreases rest
    {
      var name :| name in rest;
      ListOneMore(entries, appDurations, totalDuration, done, name);
      entries := entries + [ShareOf(appDurations, totalDuration, name)];
      rest, done := rest - {name}, done + {name};
    }
    assert done == appDurations.Keys;
    var sorted := SortBy(entries, Falling);
    SortedIsRanked(entries, sorted, appDurations, totalDuration);
    FirstFive(sorted, appDurations, totalDuration);
    topApps := sorted[..if |sorted| < 5 then |sorted| else 5];
  }

  // ---- The handler --------------------------------------------------------------------------

  function Selected(table: seq<Session>, cutoff: int): seq<Session> {
    if |table| == 0 then []
    else Selected(table[..|table| - 1], cutoff)
         + if table[|table| - 1].startTime >= cutoff then [table[|table| - 1]] else []
  }

  /** `rows` holds exactly the rows of the table that start at the cutoff or later, each as often. */
  ghost predicate IsSelection(rows: seq<Session>, table: seq<Session>, cutoff: int) {
    forall s: Session :: multiset(rows)[s] == if s.startTime >= cutoff then multiset(table)[s] else 0
  }

  lemma {:induction false} SelectedIsSelection(table: seq<Session>, cutoff: int)
    ensures IsSelection(Selected(table, cutoff), table, cutoff)
  {
    if |table| > 0 {
      var n := |table| - 1;
      SelectedIsSelection(table[..n], cutoff);
      assert table == table[..n] + [table[n]];
    }
  }

  lemma {:induction false} SameSelection(a: seq<Session>, b: seq<Session>, table: seq<Session>, cutoff: int)
    requires IsSelection(a, table, cutoff) && IsSelection(b, table, cutoff)
    ensures multiset(a) == multiset(b)
  {
    assert forall s: Session :: multiset(a)[s] == multiset(b)[s];
  }

  function Descending(s: Session): int { -s.startTime }

  /** `findMany` with the route's filter and order. */
  method FindActivities(table: seq<Session>, cutoff: int) returns (r: seq<Session>)
    ensures IsSelection(r, table, cutoff)
    ensures forall i, j :: 0 <= i < j < |r| ==> r[i].startTime >= r[j].startTime
  {
    SelectedIsSelection(table, cutoff);
    r := SortBy(Selected(table, cutoff), Descending);
    assert forall i, j :: 0 <= i < j < |r| ==> Descending(r[i]) <= Descending(r[j]);
  }

  datatype Summary = Summary(
    totalActiveTenths: int, timeline: seq<int>, topApps: seq<AppShare>, lastActive: Option<int>)

  /** Whole seconds, rounded down, 24 hours before `now` in milliseconds. */
  function OneDayAgo(now: int): (r: int)
    ensures 1000 * r <= now - 24 * 3_600_000 < 1000 * (r + 1)
  {
    (now - DAY) / 1000
  }

  /** What the handler answers, in terms of the rows it looks at. */
  ghost predicate IsSummary(r: Summary, rows: seq<Session>, offset: int) {
    && |r.timeline| == 24
    && (forall h :: 0 <= h < 24 ==> r.timeline[h] == Round(ActiveMs(Spans(rows), h, offset), 60_000))
    && r.totalActiveTenths == Round(10 * SumBy(rows, DurationOf), 3600)
    && AreTopApps(r.topApps, AppTotals(rows), SumBy(rows, DurationOf))
    && IsLatestStart(r.lastActive, rows)
  }

  lemma {:induction false} ActivePermutation(a: seq<Session>, b: seq<Session>, h: int, offset: int)
    requires multiset(a) == multiset(b)
    ensures ActiveMs(Spans(a), h, offset) == ActiveMs(Spans(b), h, offset)
  {
    SpansPermutation(a, b);
  }

  lemma {:induction false} SameAppTotals(a: seq<Session>, b: seq<Session>)
    requires multiset(a) == multiset(b)
    ensures AppTotals(a) == AppTotals(b)
  {
    AppTotalsPermutation(AppTotals(a), a, b);
  }

  lemma {:induction false} SummaryPermutation(r: Summary, a: seq<Session>, b: seq<Session>, offset: int)
    requires IsSummary(r, a, offset) && multiset(a) == multiset(b)
    ensures IsSummary(r, b, offset)
  {
    hide ActiveMs, Round, AreTopApps, IsLatestStart, AppTotals;
    forall h ensures ActiveMs(Spans(a), h, offset) == ActiveMs(Spans(b), h, offset) {
      ActivePermutation(a, b, h, offset);
    }
    SumByPermutation(a, b, DurationOf);
    SameAppTotals(a, b);
    LatestPermutation(r.lastActive, a, b);
  }

  lemma {:induction false} LatestPermutation(latest: Option<int>, a: seq<Session>, b: seq<Session>)
    requires IsLatestStart(latest, a) && multiset(a) == multiset(b)
    ensures IsLatestStart(latest, b)
  {
    SameLength(a, b);
    if latest.Some? {
      var i :| 0 <= i < |a| && a[i].startTime == latest.value;
      assert a[i] in multiset(b);
      var k :| 0 <= k < |b| && b[k] == a[i];
      forall j | 0 <= j < |b| ensures b[j].startTime <= latest.value {
        assert b[j] in multiset(a);
      }
    }
  }

  /** The whole handler at time `now` (milliseconds), over the rows of one machine: what it answers is
      the summary of the rows of the last 24 hours, in whatever order one lists them. */
  method Summarize(table: seq<Session>, now: int, offset: int) returns (r: Summary)
    ensures forall rows :: IsSelection(rows, table, OneDayAgo(now)) ==> IsSummary(r, rows, offset)
  {
    hide ActiveMs, AreTopApps, IsSelection, Selected, OneDayAgo;
    var activities := FindActivities(table, OneDayAgo(now));
    var hourly, appDurations, totalDuration := Accumulate(activities, offset);
    var timeline := Timeline(hourly, Spans(activities), offset);
    var lastActive := if |activities| > 0 then Some(activities[0].startTime) else None;
    assert appDurations == AppTotals(activities);
    var topApps := TopApps(appDurations, totalDuration);
    r := Summary(Round(10 * totalDuration, 3600), timeline, topApps, lastActive);
    assert IsSummary(r, activities, offset);
    forall rows | IsSelection(rows, table, OneDayAgo(now)) ensures IsSummary(r, rows, offset) {
      SameSelection(activities, rows, table, OneDayAgo(now));
      SummaryPermutation(r, activities, rows, offset);
    }
  }

  ghost predicate IsLatestStart(latest: Option<int>, rows: seq<Session>) {
    match latest
    case None => rows == []
    case Some(m) => (exists i :: 0 <= i < |rows| && rows[i].startTime == m)
                    && forall i :: 0 <= i < |rows| ==> rows[i].startTime <= m
  }

  lemma {:induction false} AppTotalsPermutation(totals: map<string, int>, a: seq<Session>, b: seq<Session>)
    requires multiset(a) == multiset(b) && AreAppTotals(totals, a)
    ensures AreAppTotals(totals, b)
  {
    forall name ensures name in AppNames(a) <==> name in AppNames(b) {
      AppNamesIncluded(a, b);
      AppNamesIncluded(b, a);
    }
    forall name | name in totals ensures totals[name] == SumBy(b, DurationFor(name)) {
      SumByPermutation(a, b, DurationFor(name));
    }
  }

  lemma {:induction false} AppNamesIncluded(a: seq<Session>, b: seq<Session>)
    requires multiset(a) == multiset(b)
    ensures AppNames(a) <= AppNames(b)
  {
    forall i | 0 <= i < |a| ensures AppName(a[i]) in AppNames(b) {
      assert a[i] in multiset(b);
    }
  }

  lemma {:induction false} SelectedAfter(table: seq<Session>, cutoff: int)
    ensures forall s :: s in Selected(table, cutoff) ==> s.startTime >= cutoff
  {
    if |table| > 0 {
      SelectedAfter(table[..|table| - 1], cutoff);
    }
  }

  ghost predicate EndBy(rows: seq<Session>, now: int) {
    forall s :: s in rows ==> s.endTime * 1000 <= now
  }

  lemma {:induction false} InWindow(rows: seq<Session>, now: int)
    requires forall s :: s in rows ==> OneDayAgo(now) <= s.startTime && s.endTime * 1000 <= now
    ensures forall t :: t in Covered(Spans(rows)) ==> OneDayAgo(now) * 1000 <= t < OneDayAgo(now) * 1000 + DAY
  {
    forall t | Covers(Spans(rows), t) ensures OneDayAgo(now) * 1000 <= t < OneDayAgo(now) * 1000 + DAY {
      var i :| 0 <= i < |rows| && Contains(Spans(rows)[i], t);
      assert rows[i] in rows && t < rows[i].endTime * 1000;
    }
  }

  lemma {:induction false} RowsAtMostHour(rows: seq<Session>, now: int, offset: int, h: int)
    requires forall s :: s in rows ==> OneDayAgo(now) <= s.startTime && s.endTime * 1000 <= now
    requires 0 <= h < 24
    ensures ActiveMs(Spans(rows), h, offset) <= HOUR
  {
    InWindow(rows, now);
    HourAtMostSixtyMinutes(Spans(rows), h, offset, OneDayAgo(now) * 1000);
  }

  /** When no selected session ends after `now`, every hour is active for at most an hour, and the
      handler reports at most 60 minutes: the query's own cutoff keeps all of them in one 24 hour window. */
  lemma {:induction false} TimelineAtMostSixty(table: seq<Session>, now: int, offset: int, h: int)
    requires EndBy(Selected(table, OneDayAgo(now)), now) && 0 <= h < 24
    ensures ActiveMs(Spans(Selected(table, OneDayAgo(now))), h, offset) <= HOUR
    ensures Round(ActiveMs(Spans(Selected(table, OneDayAgo(now))), h, offset), 60_000) <= 60
  {
    SelectedAfter(table, OneDayAgo(now));
    RowsAtMostHour(Selected(table, OneDayAgo(now)), now, offset, h);
  }
}
