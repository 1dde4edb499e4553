/** The weekly access schedule and its three queries, over local time in ticks of 100 ns. */
module AccessControl {
  import opened Wrappers
  import opened Sequences

  const MINUTE := 600_000_000
  const DAY := 24 * 60 * MINUTE

  /** A local `DateTime`, as ticks since midnight of Monday, 0001-01-01. */
  type Instant = nat

  datatype ContractDay = Monday | Tuesday | Wednesday | Thursday | Friday | Saturday | Sunday | Unnamed

  /** `System.DayOfWeek`, Sunday first; anything unnamed counts as Monday. */
  function ToSystemDay(d: ContractDay): (r: int)
    ensures 0 <= r < 7
  {
    match d
    case Sunday => 0
    case Monday => 1
    case Tuesday => 2
    case Wednesday => 3
    case Thursday => 4
    case Friday => 5
    case Saturday => 6
    case Unnamed => 1
  }

  /** `None` is a text that `TimeSpan.TryParse` rejects; values may be negative or exceed a day. */
  datatype TimeWindow = TimeWindow(day: ContractDay, startTime: Option<int>, endTime: Option<int>)

  datatype Settings = Settings(enabled: bool, schedule: Option<seq<TimeWindow>>)

  function DateOf(t: Instant): (d: Instant)
    ensures d <= t < d + DAY && d % DAY == 0
  {
    t - t % DAY
  }

  function TimeOfDay(t: Instant): (r: nat)
    ensures r < DAY && DateOf(t) + r == t
  {
    t % DAY
  }

  function DayOfWeek(t: Instant): (r: int)
    ensures 0 <= r < 7
  {
    (t / DAY + 1) % 7
  }

  function ParseTime(t: Option<int>): int {
    if t.Some? then t.value else 0
  }

  /** The test of `IsAccessAllowedNow`: today's window, both ends parse, the time lies inside. */
  predicate Matches(w: TimeWindow, t: Instant) {
    && ToSystemDay(w.day) == DayOfWeek(t)
    && w.startTime.Some? && w.endTime.Some?
    && w.startTime.value <= TimeOfDay(t) < w.endTime.value
  }

  predicate IsAccessAllowed(s: Settings, now: Instant) {
    s.enabled && s.schedule.Some? && exists w :: w in s.schedule.value && Matches(w, now)
  }

  // ---- Time remaining -----------------------------------------------------------------------

  /** The test of `GetTimeRemaining`, which reads an unparseable time as midnight; so an end that
      does not parse never matches. */
  predicate MatchesParsed(w: TimeWindow, t: Instant): (r: bool)
    ensures r ==> w.endTime.Some?
  {
    ToSystemDay(w.day) == DayOfWeek(t) && ParseTime(w.startTime) <= TimeOfDay(t) < ParseTime(w.endTime)
  }

  /** The first window that matches. */
  function FirstMatch(windows: seq<TimeWindow>, t: Instant): (r: Option<TimeWindow>)
    ensures r.Some? ==> MatchesParsed(r.value, t)
  {
    if |windows| == 0 then None
    else if MatchesParsed(windows[0], t) then Some(windows[0])
    else FirstMatch(windows[1..], t)
  }

  function TimeRemaining(s: Settings, now: Instant): Option<int> {
    if !IsAccessAllowed(s, now) then None
    else
      match FirstMatch(s.schedule.value, now)
      case None => None
      case Some(w) => Some(ParseTime(w.endTime) - TimeOfDay(now))
  }

  lemma {:induction false} FirstMatchFound(windows: seq<TimeWindow>, t: Instant)
    ensures FirstMatch(windows, t).Some? <==> exists w :: w in windows && MatchesParsed(w, t)
    ensures FirstMatch(windows, t).Some? ==> FirstMatch(windows, t).value in windows
  {
    if |windows| > 0 {
      FirstMatchFound(windows[1..], t);
      assert windows == [windows[0]] + windows[1..];
    }
  }

  /** There is time remaining exactly when access is allowed, for every schedule, parseable or not;
      and then it is positive. */
  lemma {:induction false} RemainingIffAllowed(s: Settings, now: Instant)
    ensures TimeRemaining(s, now).Some? <==> IsAccessAllowed(s, now)
    ensures TimeRemaining(s, now).Some? ==> TimeRemaining(s, now).value > 0
  {
    if IsAccessAllowed(s, now) {
      var w :| w in s.schedule.value && Matches(w, now);
      assert MatchesParsed(w, now);
      FirstMatchFound(s.schedule.value, now);
    }
  }

  lemma {:induction false} SameDay(a: Instant, b: Instant)
    requires DateOf(a) <= b < DateOf(a) + DAY
    ensures DateOf(b) == DateOf(a) && DayOfWeek(b) == DayOfWeek(a) && TimeOfDay(b) - TimeOfDay(a) == b - a
  {
    assert a / DAY == b / DAY;
  }

  /** The window that `GetTimeRemaining` chooses now has a start that parses, and ends by midnight. */
  ghost predicate ChoosesSoundly(s: Settings, now: Instant) {
    s.schedule.Some? ==>
      var w := FirstMatch(s.schedule.value, now);
      w.Some? ==> w.value.startTime.Some? && w.value.endTime.value <= DAY
  }

  /** Access stays allowed at every instant of the reported time. */
  ghost predicate KeepsPromise(s: Settings, now: Instant) {
    TimeRemaining(s, now).Some? ==>
      forall t: Instant :: now <= t < now + TimeRemaining(s, now).value ==> IsAccessAllowed(s, t)
  }

  /** The promise is kept whenever the chosen window is sound, whatever the other windows are. */
  lemma {:induction false} RemainingIsAllowed(s: Settings, now: Instant)
    requires ChoosesSoundly(s, now)
    ensures KeepsPromise(s, now)
  {
    if TimeRemaining(s, now).Some? {
      FirstMatchFound(s.schedule.value, now);
      var w := FirstMatch(s.schedule.value, now).value;
      forall t: Instant | now <= t < now + TimeRemaining(s, now).value ensures IsAccessAllowed(s, t) {
        SameDay(now, t);
        assert Matches(w, t);
      }
    }
  }

  // ---- Exactly when the promise is kept -----------------------------------------------------

  /** Access may end at `t`: a day begins, or a window of the day whose times parse ends. */
  ghost predicate MayEndAt(windows: seq<TimeWindow>, t: Instant) {
    || TimeOfDay(t) == 0
    || exists w :: w in windows && EndsAt(w, t)
  }

  predicate EndsAt(w: TimeWindow, t: Instant) {
    && ToSystemDay(w.day) == DayOfWeek(t)
    && w.startTime.Some? && w.endTime.Some? && w.endTime.value == TimeOfDay(t)
  }

  /** From one instant to the next access only ends where a window or the day does. */
  lemma {:induction false} NextInstant(s: Settings, t: Instant)
    requires IsAccessAllowed(s, t) && !MayEndAt(s.schedule.value, t + 1)
    ensures IsAccessAllowed(s, t + 1)
  {
    var w :| w in s.schedule.value && Matches(w, t);
    SameDay(t + 1, t);
    assert !EndsAt(w, t + 1);
    assert Matches(w, t + 1);
  }

  lemma {:induction false} AllowedUpTo(s: Settings, now: Instant, t: Instant)
    requires IsAccessAllowed(s, now) && now <= t
    requires forall c: Instant :: now < c <= t && MayEndAt(s.schedule.value, c) ==> IsAccessAllowed(s, c)
    ensures IsAccessAllowed(s, t)
    decreases t - now
  {
    if now < t {
      AllowedUpTo(s, now, t - 1);
      if !MayEndAt(s.schedule.value, t) {
        NextInstant(s, t - 1);
      }
    }
  }

  /** The promise is kept exactly when access goes on at the few moments of the reported time at which
      it may end: for every schedule, parseable or not, sorted or not, overlapping or not. */
  lemma {:induction false} PromiseIffNoGap(s: Settings, now: Instant)
    requires TimeRemaining(s, now).Some?
    ensures KeepsPromise(s, now) <==>
      forall c: Instant :: now < c < now + TimeRemaining(s, now).value && MayEndAt(s.schedule.value, c) ==>
        exists w :: w in s.schedule.value && Matches(w, c)
  {
    if forall c: Instant :: now < c < now + TimeRemaining(s, now).value && MayEndAt(s.schedule.value, c) ==>
         exists w :: w in s.schedule.value && Matches(w, c)
    {
      forall t: Instant | now <= t < now + TimeRemaining(s, now).value ensures IsAccessAllowed(s, t) {
        AllowedUpTo(s, now, t);
      }
    } else {
      var c: Instant :| now < c < now + TimeRemaining(s, now).value && MayEndAt(s.schedule.value, c)
                        && !exists w :: w in s.schedule.value && Matches(w, c);
      assert !IsAccessAllowed(s, c);
    }
  }

  /** A window of this day of the week with both times parseable. */
  predicate IsOn(w: TimeWindow, day: int) {
    ToSystemDay(w.day) == day && w.startTime.Some? && w.endTime.Some?
  }

  /** Every window of today that ends in the reported time ends inside another one. */
  ghost predicate EndsAreInside(s: Settings, now: Instant)
    requires TimeRemaining(s, now).Some?
  {
    var windows, today := s.schedule.value, DayOfWeek(now);
    forall w :: w in windows && IsOn(w, today)
                && TimeOfDay(now) < w.endTime.value < TimeOfDay(now) + TimeRemaining(s, now).value ==>
      exists x :: x in windows && IsOn(x, today) && x.startTime.value <= w.endTime.value < x.endTime.value
  }

  /** For an end by midnight that is a property of today's windows alone. */
  lemma {:induction false} PromiseIffEndsInside(s: Settings, now: Instant)
    requires TimeRemaining(s, now).Some? && TimeOfDay(now) + TimeRemaining(s, now).value <= DAY
    ensures KeepsPromise(s, now) <==> EndsAreInside(s, now)
  {
    var windows, today, end := s.schedule.value, DayOfWeek(now), now + TimeRemaining(s, now).value;
    PromiseIffNoGap(s, now);
    if KeepsPromise(s, now) {
      forall w | w in windows && IsOn(w, today) && TimeOfDay(now) < w.endTime.value < TimeOfDay(now) + (end - now)
        ensures exists x :: x in windows && IsOn(x, today) && x.startTime.value <= w.endTime.value < x.endTime.value
      {
        var c := DateOf(now) + w.endTime.value;
        SameDay(now, c);
        assert IsAccessAllowed(s, c);
        var x :| x in windows && Matches(x, c);
        assert IsOn(x, today);
      }
    }
    if EndsAreInside(s, now) {
      forall c: Instant | now < c < end && MayEndAt(windows, c) ensures exists w :: w in windows && Matches(w, c) {
        EndInside(s, now, c);
      }
    }
  }

  lemma {:induction false} EndInside(s: Settings, now: Instant, c: Instant)
    requires TimeRemaining(s, now).Some? && TimeOfDay(now) + TimeRemaining(s, now).value <= DAY
    requires EndsAreInside(s, now) && now < c < now + TimeRemaining(s, now).value && MayEndAt(s.schedule.value, c)
    ensures exists w :: w in s.schedule.value && Matches(w, c)
  {
    SameDay(now, c);
    var w :| w in s.schedule.value && EndsAt(w, c);
    assert IsOn(w, DayOfWeek(now));
    var x :| x in s.schedule.value && IsOn(x, DayOfWeek(now)) && x.startTime.value <= w.endTime.value < x.endTime.value;
    assert Matches(x, c);
  }

  /** With an unparseable start the reported time can reach past the end of access: on a Monday at
      09:00, a window 08:00 to 10:00 behind one that reads "?" to 20:00 reports eleven hours. */
  lemma {:induction false} UnparseableStartOverstates()
    ensures var s := Settings(true, Some([TimeWindow(Monday, None, Some(20 * 60 * MINUTE)),
                                          TimeWindow(Monday, Some(8 * 60 * MINUTE), Some(10 * 60 * MINUTE))]));
            var now := 9 * 60 * MINUTE;
            TimeRemaining(s, now) == Some(11 * 60 * MINUTE) && !IsAccessAllowed(s, now + 60 * MINUTE)
  {
    var bad := TimeWindow(Monday, None, Some(20 * 60 * MINUTE));
    var good := TimeWindow(Monday, Some(8 * 60 * MINUTE), Some(10 * 60 * MINUTE));
    var s, now := Settings(true, Some([bad, good])), 9 * 60 * MINUTE;
    assert good in s.schedule.value && Matches(good, now);
    assert MatchesParsed([bad, good][0], now);
  }

  // ---- Time until access --------------------------------------------------------------------

  const PASSES := 8

  /** The starts of a day's windows. */
  function StartsOn(windows: seq<TimeWindow>, day: int): (r: seq<int>)
    ensures forall x :: x in r <==> exists w :: w in windows && ToSystemDay(w.day) == day && ParseTime(w.startTime) == x
  {
    if |windows| == 0 then []
    else
      var rest := StartsOn(windows[1..], day);
      assert windows == [windows[0]] + windows[1..];
      if ToSystemDay(windows[0].day) == day then [ParseTime(windows[0].startTime)] + rest else rest
  }

  /** `x` is the earliest of the starts that lie after `bound`. */
  ghost predicate IsEarliestAfter(starts: seq<int>, bound: int, x: Option<int>) {
    match x
    case None => forall y :: y in starts ==> y <= bound
    case Some(v) => v in starts && v > bound && forall y :: y in starts && y > bound ==> v <= y
  }

  function Identity(x: int): int { x }

  /** The inner loop: the sorted starts of one day, up to the first one after now. */
  method FirstStartAfter(starts: seq<int>, bound: int) returns (r: Option<int>)
    ensures IsEarliestAfter(starts, bound, r)
  {
    var windows := SortBy(starts, Identity);
    for k := 0 to |windows|
      invariant forall j :: 0 <= j < k ==> windows[j] <= bound
    {
      if windows[k] > bound {
        FirstIsEarliest(starts, windows, bound, k);
        return Some(windows[k]);
      }
    }
    NoneIsLater(starts, windows, bound);
    return None;
  }

  lemma {:induction false} FirstIsEarliest(starts: seq<int>, sorted: seq<int>, bound: int, k: nat)
    requires multiset(starts) == multiset(sorted) && SortedBy(sorted, Identity)
    requires k < |sorted| && sorted[k] > bound && forall j :: 0 <= j < k ==> sorted[j] <= bound
    ensures IsEarliestAfter(starts, bound, Some(sorted[k]))
  {
    assert sorted[k] in multiset(starts);
    forall y | y in starts && y > bound ensures sorted[k] <= y {
      assert y in multiset(sorted);
      var j :| 0 <= j < |sorted| && sorted[j] == y;
      assert k < j ==> Identity(sorted[k]) <= Identity(sorted[j]);
    }
  }

  lemma {:induction false} NoneIsLater(starts: seq<int>, sorted: seq<int>, bound: int)
    requires multiset(starts) == multiset(sorted) && forall j :: 0 <= j < |sorted| ==> sorted[j] <= bound
    ensures IsEarliestAfter(starts, bound, None)
  {
    forall y | y in starts ensures y <= bound {
      assert y in multiset(sorted);
    }
  }

  /** The answer of pass `i`: how long until the earliest start of that day after now. */
  ghost predicate IsPassAnswer(windows: seq<TimeWindow>, now: Instant, i: nat, r: Option<int>) {
    var date := DateOf(now) + i * DAY;
    var start := if r.None? then None else Some(r.value + now - date);
    IsEarliestAfter(StartsOn(windows, DayOfWeek(date)), now - date, start)
  }

  ghost predicate IsFirstAnswer(windows: seq<TimeWindow>, now: Instant, i: nat, r: Option<int>) {
    r.Some? && IsPassAnswer(windows, now, i, r) && forall j :: 0 <= j < i ==> IsPassAnswer(windows, now, j, None)
  }

  /** The first pass with an answer decides. */
  ghost predicate IsTimeUntil(windows: seq<TimeWindow>, now: Instant, r: Option<int>) {
    match r
    case None => forall i :: 0 <= i < PASSES ==> IsPassAnswer(windows, now, i, None)
    case Some(_) => exists i :: 0 <= i < PASSES && IsFirstAnswer(windows, now, i, r)
  }

  method GetTimeUntilAccess(s: Settings, now: Instant) returns (r: Option<int>)
    ensures !s.enabled || IsAccessAllowed(s, now) || s.schedule.None? ==> r == None
    ensures s.enabled && !IsAccessAllowed(s, now) && s.schedule.Some? ==> IsTimeUntil(s.schedule.value, now, r)
  {
    if !s.enabled || IsAccessAllowed(s, now) {
      return None;
    }
    if s.schedule.None? || |s.schedule.value| == 0 {
      return None;
    }
    for i := 0 to PASSES
      invariant forall j :: 0 <= j < i ==> IsPassAnswer(s.schedule.value, now, j, None)
    {
      var targetDate := DateOf(now) + i * DAY;
      var start := FirstStartAfter(StartsOn(s.schedule.value, DayOfWeek(targetDate)), now - targetDate);
      if start.Some? {
        r := Some(targetDate + start.value - now);
        assert IsFirstAnswer(s.schedule.value, now, i, r);
        return;
      }
    }
    return None;
  }

  /** The window is announced for a time of its day; it may be inverted, and its times need not parse. */
  ghost predicate InDay(w: TimeWindow) {
    0 <= ParseTime(w.startTime) < DAY
  }

  /** Both times parse and the end is after the start: the windows that ever allow access. */
  ghost predicate WellFormed(w: TimeWindow) {
    InDay(w) && w.startTime.Some? && w.endTime.Some? && w.startTime.value < w.endTime.value
  }

  lemma {:induction false} Multiple(k: nat)
    ensures k * DAY / DAY == k && k * DAY % DAY == 0
  {
  }

  /** Pass `i` looks at the `i`-th day from today. */
  lemma {:induction false} PassDay(now: Instant, i: nat)
    ensures var date := DateOf(now) + i * DAY;
      DateOf(date) == date && DayOfWeek(date) == (DayOfWeek(now) + i) % 7
  {
    var date := DateOf(now) + i * DAY;
    assert date == (now / DAY + i) * DAY;
    Multiple(now / DAY + i);
    WeekdayAdds(now / DAY + 1, i);
  }

  lemma {:induction false} WeekdayAdds(a: nat, i: nat)
    ensures (a + i) % 7 == (a % 7 + i) % 7
  {
  }

  /** The date of a later instant is the date of some pass. */
  lemma {:induction false} DateIsPass(now: Instant, t: Instant) returns (j: nat)
    requires now <= t
    ensures DateOf(t) == DateOf(now) + j * DAY
  {
    j := t / DAY - now / DAY;
    assert DateOf(t) == t / DAY * DAY && DateOf(now) == now / DAY * DAY;
  }

  /** A window opens its day: at its start, on that day, access is allowed. */
  lemma {:induction false} AllowedAtStart(s: Settings, w: TimeWindow, date: Instant)
    requires s.enabled && s.schedule.Some? && w in s.schedule.value && WellFormed(w)
    requires DateOf(date) == date && ToSystemDay(w.day) == DayOfWeek(date)
    ensures IsAccessAllowed(s, date + w.startTime.value)
  {
    SameDay(date, date + w.startTime.value);
    assert Matches(w, date + w.startTime.value);
  }

  /** An answer of pass `i` is the start of one of that day's windows. */
  lemma {:induction false} AnswerIsStart(windows: seq<TimeWindow>, now: Instant, i: nat, v: int) returns (w: TimeWindow)
    requires IsPassAnswer(windows, now, i, Some(v))
    requires forall x :: x in windows ==> InDay(x)
    ensures w in windows && InDay(w) && ToSystemDay(w.day) == DayOfWeek(DateOf(now) + i * DAY)
    ensures v > 0 && now + v == DateOf(now) + i * DAY + ParseTime(w.startTime)
  {
    var start := v + now - (DateOf(now) + i * DAY);
    assert start in StartsOn(windows, DayOfWeek(DateOf(now) + i * DAY));
    w :| w in windows && ToSystemDay(w.day) == DayOfWeek(DateOf(now) + i * DAY) && ParseTime(w.startTime) == start;
    assert InDay(w);
  }

  /** A window of a pass's day with a start after now: that pass answers, and not later than it. */
  lemma {:induction false} StartIsAnswered(
    windows: seq<TimeWindow>, now: Instant, i: nat, w: TimeWindow, r: Option<int>)
    requires IsPassAnswer(windows, now, i, r)
    requires w in windows && InDay(w) && ToSystemDay(w.day) == DayOfWeek(DateOf(now) + i * DAY)
    requires DateOf(now) + i * DAY + ParseTime(w.startTime) > now
    ensures r.Some? && now + r.value <= DateOf(now) + i * DAY + ParseTime(w.startTime)
  {
    assert ParseTime(w.startTime) in StartsOn(windows, DayOfWeek(DateOf(now) + i * DAY));
  }

  /** How many days from today the window opens next. */
  function DaysUntil(w: TimeWindow, now: Instant): (i: nat)
    ensures i < PASSES
  {
    var k := (ToSystemDay(w.day) - DayOfWeek(now)) % 7;
    if k == 0 && ParseTime(w.startTime) <= TimeOfDay(now) then 7 else k
  }

  /** The first moment after now at which it is the window's weekday and start. */
  function NextStart(w: TimeWindow, now: Instant): int {
    DateOf(now) + DaysUntil(w, now) * DAY + ParseTime(w.startTime)
  }

  lemma {:induction false} NextStartIsStart(w: TimeWindow, now: Instant)
    requires InDay(w)
    ensures NextStart(w, now) > now && ToSystemDay(w.day) == DayOfWeek(DateOf(now) + DaysUntil(w, now) * DAY)
  {
    PassDay(now, DaysUntil(w, now));
  }

  lemma {:induction false} NextStartIsFirst(w: TimeWindow, now: Instant, i: nat)
    requires InDay(w) && ToSystemDay(w.day) == DayOfWeek(DateOf(now) + i * DAY)
    requires DateOf(now) + i * DAY + ParseTime(w.startTime) > now
    ensures NextStart(w, now) <= DateOf(now) + i * DAY + ParseTime(w.startTime)
  {
    PassDay(now, i);
    SameWeekday(ToSystemDay(w.day), DayOfWeek(now), i);
    assert DaysUntil(w, now) <= i;
    LaterDay(DaysUntil(w, now), i);
  }

  lemma {:induction false} SameWeekday(day: int, today: int, i: nat)
    requires 0 <= day < 7 && 0 <= today < 7 && day == (today + i) % 7
    ensures i == (day - today) % 7 || i >= (day - today) % 7 + 7
  {
  }

  lemma {:induction false} LaterDay(i: nat, j: nat)
    requires i <= j
    ensures i * DAY <= j * DAY
  {
  }

  /** The eight passes always find something: some window opens within seven days. */
  lemma {:induction false} EightPassesSuffice(windows: seq<TimeWindow>, now: Instant)
    requires |windows| > 0 && forall w :: w in windows ==> InDay(w)
    ensures !IsTimeUntil(windows, now, None)
  {
    var w := windows[0];
    assert w in windows;
    NextStartIsStart(w, now);
    if IsTimeUntil(windows, now, None) {
      assert IsPassAnswer(windows, now, DaysUntil(w, now), None);
      StartIsAnswered(windows, now, DaysUntil(w, now), w, None);
    }
  }

  /** The answer is no later than any window's next start. */
  lemma {:induction false} NoLaterThanNextStart(
    windows: seq<TimeWindow>, now: Instant, i: nat, r: Option<int>, w: TimeWindow)
    requires IsFirstAnswer(windows, now, i, r)
    requires forall x :: x in windows ==> InDay(x)
    requires w in windows
    ensures now + r.value <= NextStart(w, now)
  {
    var j := DaysUntil(w, now);
    var first := AnswerIsStart(windows, now, i, r.value);
    NextStartIsStart(w, now);
    if j <= i {
      StartIsAnswered(windows, now, j, w, if j == i then r else None);
    } else {
      LaterPass(now, i, j);
    }
  }

  /** What the passes compute: the earliest next start of all windows. */
  lemma {:induction false} AnswerIsEarliestNextStart(windows: seq<TimeWindow>, now: Instant, r: Option<int>)
    requires |windows| > 0 && IsTimeUntil(windows, now, r)
    requires forall w :: w in windows ==> InDay(w)
    ensures r.Some?
    ensures exists w :: w in windows && NextStart(w, now) == now + r.value
    ensures forall w :: w in windows ==> now + r.value <= NextStart(w, now)
  {
    EightPassesSuffice(windows, now);
    var i :| 0 <= i < PASSES && IsFirstAnswer(windows, now, i, r);
    forall w | w in windows ensures now + r.value <= NextStart(w, now) {
      NoLaterThanNextStart(windows, now, i, r, w);
    }
    var w := AnswerIsStart(windows, now, i, r.value);
    NextStartIsFirst(w, now, i);
  }

  /** The eighth pass looks at today's weekday again; a start it answers with has passed today. */
  lemma {:induction false} EighthPass(windows: seq<TimeWindow>, now: Instant, w: TimeWindow)
    requires w in windows && InDay(w) && ToSystemDay(w.day) == DayOfWeek(DateOf(now) + 7 * DAY)
    requires IsPassAnswer(windows, now, 0, None)
    ensures DateOf(now) + ParseTime(w.startTime) <= now
  {
    PassDay(now, 7);
    PassDay(now, 0);
    if DateOf(now) + ParseTime(w.startTime) > now {
      StartIsAnswered(windows, now, 0, w, None);
    }
  }

  lemma {:induction false} AtMostSevenDays(windows: seq<TimeWindow>, now: Instant, r: Option<int>)
    requires IsTimeUntil(windows, now, r) && r.Some?
    requires forall w :: w in windows ==> InDay(w)
    ensures 0 < r.value <= 7 * DAY
  {
    var i :| 0 <= i < PASSES && IsFirstAnswer(windows, now, i, r);
    var w := AnswerIsStart(windows, now, i, r.value);
    if i == 7 {
      EighthPass(windows, now, w);
    } else {
      WithinWeek(now, i, w, r.value);
    }
  }

  lemma {:induction false} WithinWeek(now: Instant, i: nat, w: TimeWindow, v: int)
    requires i < 7 && InDay(w) && now + v == DateOf(now) + i * DAY + ParseTime(w.startTime)
    ensures v <= 7 * DAY
  {
  }

  /** A window open at `t` that had opened by `now` on the same day was open then as well. */
  lemma {:induction false} OpenSince(w: TimeWindow, now: Instant, t: Instant)
    requires InDay(w) && Matches(w, t) && DateOf(t) + w.startTime.value <= now <= t
    ensures Matches(w, now)
  {
    SameDay(t, now);
  }

  /** A window that is open at `t` and opens after `now` is announced at the latest by its start. */
  lemma {:induction false} OpensLater(
    windows: seq<TimeWindow>, now: Instant, i: nat, r: Option<int>, t: Instant, w: TimeWindow)
    requires IsFirstAnswer(windows, now, i, r)
    requires forall x :: x in windows ==> InDay(x)
    requires w in windows && Matches(w, t) && now <= t && now < DateOf(t) + w.startTime.value
    ensures now + r.value <= DateOf(t) + w.startTime.value
  {
    var first := AnswerIsStart(windows, now, i, r.value);
    var j := DateIsPass(now, t);
    assert InDay(w);
    SameDay(DateOf(t), t);
    if j <= i {
      StartIsAnswered(windows, now, j, w, if j == i then r else None);
    } else {
      LaterPass(now, i, j);
    }
  }

  lemma {:induction false} LaterPass(now: Instant, i: nat, j: nat)
    requires i < j
    ensures DateOf(now) + i * DAY + DAY <= DateOf(now) + j * DAY
  {
  }

  /** Before the reported moment there is no access at any instant. */
  lemma {:induction false} NoAccessBefore(s: Settings, now: Instant, r: Option<int>, t: Instant)
    requires s.enabled && s.schedule.Some? && !IsAccessAllowed(s, now)
    requires forall w :: w in s.schedule.value ==> InDay(w)
    requires IsTimeUntil(s.schedule.value, now, r) && r.Some? && now <= t < now + r.value
    ensures !IsAccessAllowed(s, t)
  {
    var windows := s.schedule.value;
    var i :| 0 <= i < PASSES && IsFirstAnswer(windows, now, i, r);
    forall w | w in windows ensures !Matches(w, t) {
      assert InDay(w) && !Matches(w, now);
      if Matches(w, t) {
        if DateOf(t) + w.startTime.value <= now {
          OpenSince(w, now, t);
        } else {
          OpensLater(windows, now, i, r, t, w);
        }
      }
    }
  }

  /** Denied now, the answer exists, is at most seven days, and access is allowed at no instant
      before it: inverted windows do no harm to that half. */
  lemma {:induction false} NeverTooLate(s: Settings, now: Instant, r: Option<int>)
    requires s.enabled && s.schedule.Some? && |s.schedule.value| > 0 && !IsAccessAllowed(s, now)
    requires forall w :: w in s.schedule.value ==> InDay(w)
    requires IsTimeUntil(s.schedule.value, now, r)
    ensures r.Some? && 0 < r.value <= 7 * DAY
    ensures forall t: Instant :: now <= t < now + r.value ==> !IsAccessAllowed(s, t)
  {
    EightPassesSuffice(s.schedule.value, now);
    AtMostSevenDays(s.schedule.value, now, r);
    forall t: Instant | now <= t < now + r.value ensures !IsAccessAllowed(s, t) {
      NoAccessBefore(s, now, r, t);
    }
  }

  /** Some well-formed window is among those that open next. */
  ghost predicate WellFormedOpensNext(windows: seq<TimeWindow>, now: Instant) {
    exists w :: w in windows && WellFormed(w) && forall x :: x in windows ==> NextStart(w, now) <= NextStart(x, now)
  }

  lemma {:induction false} AllowedWhenWellFormedOpens(s: Settings, now: Instant, r: Option<int>)
    requires s.enabled && s.schedule.Some? && |s.schedule.value| > 0 && IsTimeUntil(s.schedule.value, now, r)
    requires forall w :: w in s.schedule.value ==> InDay(w)
    requires WellFormedOpensNext(s.schedule.value, now)
    ensures r.Some? && r.value > 0 && IsAccessAllowed(s, now + r.value)
  {
    var windows := s.schedule.value;
    AnswerIsEarliestNextStart(windows, now, r);
    var w :| w in windows && WellFormed(w) && forall x :: x in windows ==> NextStart(w, now) <= NextStart(x, now);
    NextStartIsStart(w, now);
    PassDay(now, DaysUntil(w, now));
    AllowedAtStart(s, w, DateOf(now) + DaysUntil(w, now) * DAY);
  }

  lemma {:induction false} WellFormedOpensWhenAllowed(s: Settings, now: Instant, r: Option<int>)
    requires s.enabled && s.schedule.Some? && |s.schedule.value| > 0 && !IsAccessAllowed(s, now)
    requires forall w :: w in s.schedule.value ==> InDay(w)
    requires IsTimeUntil(s.schedule.value, now, r) && r.Some? && r.value > 0 && IsAccessAllowed(s, now + r.value)
    ensures WellFormedOpensNext(s.schedule.value, now)
  {
    var windows, t := s.schedule.value, now + r.value;
    var w :| w in windows && Matches(w, t);
    var i :| 0 <= i < PASSES && IsFirstAnswer(windows, now, i, r);
    assert InDay(w) && !Matches(w, now);
    if DateOf(t) + w.startTime.value <= now {
      OpenSince(w, now, t);
    }
    OpensLater(windows, now, i, r, t, w);
    var j := DateIsPass(now, t);
    SameDay(DateOf(t), t);
    NextStartIsFirst(w, now, j);
    AnswerIsEarliestNextStart(windows, now, r);
    assert WellFormed(w);
  }

  /** Denied now, `GetTimeUntilAccess` is exact, so that access is allowed at the moment it announces
      and at no earlier one, exactly when a well-formed window is among those that open next. */
  lemma {:induction false} TimeUntilAccessExactIff(s: Settings, now: Instant, r: Option<int>)
    requires s.enabled && s.schedule.Some? && |s.schedule.value| > 0 && !IsAccessAllowed(s, now)
    requires forall w :: w in s.schedule.value ==> InDay(w)
    requires IsTimeUntil(s.schedule.value, now, r)
    ensures r.Some? && 0 < r.value <= 7 * DAY
    ensures forall t: Instant :: now <= t < now + r.value ==> !IsAccessAllowed(s, t)
    ensures IsAccessAllowed(s, now + r.value) <==> WellFormedOpensNext(s.schedule.value, now)
  {
    NeverTooLate(s, now, r);
    if WellFormedOpensNext(s.schedule.value, now) {
      AllowedWhenWellFormedOpens(s, now, r);
    }
    if IsAccessAllowed(s, now + r.value) {
      WellFormedOpensWhenAllowed(s, now, r);
    }
  }

  /** In particular it is exact when all windows are well-formed. */
  lemma {:induction false} TimeUntilAccessExact(s: Settings, now: Instant, r: Option<int>)
    requires s.enabled && s.schedule.Some? && |s.schedule.value| > 0 && !IsAccessAllowed(s, now)
    requires forall w :: w in s.schedule.value ==> WellFormed(w)
    requires IsTimeUntil(s.schedule.value, now, r)
    ensures r.Some? && 0 < r.value <= 7 * DAY
    ensures IsAccessAllowed(s, now + r.value)
    ensures forall t: Instant :: now <= t < now + r.value ==> !IsAccessAllowed(s, t)
  {
    var windows := s.schedule.value;
    TimeUntilAccessExactIff(s, now, r);
    AnswerIsEarliestNextStart(windows, now, r);
    var w :| w in windows && NextStart(w, now) == now + r.value;
    assert WellFormed(w);
  }

  /** A window whose end is not after its start, such as one crossing midnight, never allows access. */
  lemma {:induction false} InvertedNeverMatches(w: TimeWindow, t: Instant)
    requires w.startTime.Some? && w.endTime.Some? && w.endTime.value <= w.startTime.value
    ensures !Matches(w, t)
  {
  }

  /** Yet it is announced: 22:00 to 06:00 on Mondays, asked at 21:00, is promised for an hour later. */
  lemma {:induction false} InvertedIsAnnounced()
    ensures var s := Settings(true, Some([TimeWindow(Monday, Some(22 * 60 * MINUTE), Some(6 * 60 * MINUTE))]));
            var now := 21 * 60 * MINUTE;
            IsTimeUntil(s.schedule.value, now, Some(60 * MINUTE)) && forall t: Instant :: !IsAccessAllowed(s, t)
  {
    var w := TimeWindow(Monday, Some(22 * 60 * MINUTE), Some(6 * 60 * MINUTE));
    var now := 21 * 60 * MINUTE;
    assert [w][0] == w && w in [w];
    assert 22 * 60 * MINUTE in StartsOn([w], 1);
    assert IsFirstAnswer([w], now, 0, Some(60 * MINUTE));
    forall t: Instant ensures !Matches(w, t) {
      InvertedNeverMatches(w, t);
    }
  }

  // ---- Every schedule -----------------------------------------------------------------------

  /** The windows that ever allow access: both times parse, and some time of the day lies in between. */
  predicate EverOpens(w: TimeWindow) {
    && w.startTime.Some? && w.endTime.Some?
    && w.startTime.value < w.endTime.value && w.startTime.value < DAY && 0 < w.endTime.value
  }

  /** When such a window opens next: at its start, or at midnight when it starts before its day. */
  function NextOpening(w: TimeWindow, now: Instant): int
    requires EverOpens(w)
  {
    NextStart(w.(startTime := Some(if w.startTime.value < 0 then 0 else w.startTime.value)), now)
  }

  lemma {:induction false} OpensAtNextOpening(s: Settings, w: TimeWindow, now: Instant)
    requires s.enabled && s.schedule.Some? && w in s.schedule.value && EverOpens(w)
    ensures NextOpening(w, now) > now && IsAccessAllowed(s, NextOpening(w, now))
  {
    var clipped := w.(startTime := Some(if w.startTime.value < 0 then 0 else w.startTime.value));
    var date := DateOf(now) + DaysUntil(clipped, now) * DAY;
    NextStartIsStart(clipped, now);
    PassDay(now, DaysUntil(clipped, now));
    SameDay(date, NextOpening(w, now));
    assert Matches(w, NextOpening(w, now));
  }

  /** Denied now, a window that is open at `t` has opened in the meantime. */
  lemma {:induction false} OpenedMeanwhile(w: TimeWindow, now: Instant, t: Instant)
    requires Matches(w, t) && !Matches(w, now) && now <= t
    ensures EverOpens(w) && NextOpening(w, now) <= t
  {
    var clipped := w.(startTime := Some(if w.startTime.value < 0 then 0 else w.startTime.value));
    SameDay(DateOf(t), t);
    if DateOf(t) + ParseTime(clipped.startTime) <= now {
      OpenSince(clipped, now, t);
    } else {
      var j := DateIsPass(now, t);
      NextStartIsFirst(clipped, now, j);
    }
  }

  /** `r` is how long it takes until the first of the windows opens, or `None` when none ever does. */
  ghost predicate IsNextOpening(windows: seq<TimeWindow>, now: Instant, r: Option<int>) {
    match r
    case None => forall w :: w in windows ==> !EverOpens(w)
    case Some(v) =>
      && (exists w :: w in windows && EverOpens(w) && NextOpening(w, now) == now + v)
      && forall w :: w in windows && EverOpens(w) ==> now + v <= NextOpening(w, now)
  }

  /** `r` is right about the future: access is allowed then and never before, or never at all. */
  ghost predicate IsRight(s: Settings, now: Instant, r: Option<int>) {
    match r
    case None => forall t: Instant :: now <= t ==> !IsAccessAllowed(s, t)
    case Some(v) =>
      && v >= 0 && IsAccessAllowed(s, now + v)
      && forall t: Instant :: now <= t < now + v ==> !IsAccessAllowed(s, t)
  }

  lemma {:induction false} DeniedUntilOpening(s: Settings, now: Instant, t: Instant)
    requires s.enabled && s.schedule.Some? && !IsAccessAllowed(s, now) && now <= t
    requires forall w :: w in s.schedule.value && EverOpens(w) ==> t < NextOpening(w, now)
    ensures !IsAccessAllowed(s, t)
  {
    if IsAccessAllowed(s, t) {
      var w :| w in s.schedule.value && Matches(w, t);
      assert !Matches(w, now);
      OpenedMeanwhile(w, now, t);
    }
  }

  lemma {:induction false} NextOpeningIsRight(s: Settings, now: Instant, r: Option<int>)
    requires s.enabled && s.schedule.Some? && !IsAccessAllowed(s, now)
    requires IsNextOpening(s.schedule.value, now, r)
    ensures IsRight(s, now, r)
  {
    if r.Some? {
      var w :| w in s.schedule.value && EverOpens(w) && NextOpening(w, now) == now + r.value;
      OpensAtNextOpening(s, w, now);
    }
    forall t: Instant | now <= t && (r.Some? ==> t < now + r.value) ensures !IsAccessAllowed(s, t) {
      DeniedUntilOpening(s, now, t);
    }
  }

  lemma {:induction false} RightIsNextOpening(s: Settings, now: Instant, r: Option<int>)
    requires s.enabled && s.schedule.Some? && !IsAccessAllowed(s, now)
    requires IsRight(s, now, r)
    ensures IsNextOpening(s.schedule.value, now, r)
  {
    forall w | w in s.schedule.value && EverOpens(w) ensures r.Some? && now + r.value <= NextOpening(w, now) {
      OpensAtNextOpening(s, w, now);
    }
    if r.Some? {
      var w :| w in s.schedule.value && Matches(w, now + r.value);
      assert !Matches(w, now);
      OpenedMeanwhile(w, now, now + r.value);
    }
  }

  /** For every schedule at all, and any answer: denied now, the answer is right exactly when it is the
      next opening of the windows that ever open, which the schedule and the clock determine. */
  lemma {:induction false} RightIffNextOpening(s: Settings, now: Instant, r: Option<int>)
    requires s.enabled && s.schedule.Some? && !IsAccessAllowed(s, now)
    ensures IsRight(s, now, r) <==> IsNextOpening(s.schedule.value, now, r)
  {
    if IsNextOpening(s.schedule.value, now, r) {
      NextOpeningIsRight(s, now, r);
    }
    if IsRight(s, now, r) {
      RightIsNextOpening(s, now, r);
    }
  }

  /** A start outside its day breaks even the order of the passes: Monday's "2.01:00", one o'clock two
      days later, is announced at Monday midnight although Tuesday's window opens first. */
  lemma {:induction false} StartBeyondDayIsTooLate()
    ensures var late := TimeWindow(Monday, Some(49 * 60 * MINUTE), Some(50 * 60 * MINUTE));
      var good := TimeWindow(Tuesday, Some(8 * 60 * MINUTE), Some(10 * 60 * MINUTE));
      var s := Settings(true, Some([late, good]));
      IsTimeUntil([late, good], 0, Some(49 * 60 * MINUTE)) && IsAccessAllowed(s, 32 * 60 * MINUTE)
  {
    var late := TimeWindow(Monday, Some(49 * 60 * MINUTE), Some(50 * 60 * MINUTE));
    var good := TimeWindow(Tuesday, Some(8 * 60 * MINUTE), Some(10 * 60 * MINUTE));
    var windows := [late, good];
    assert late == windows[0] && late in windows && good == windows[1] && good in windows;
    assert 49 * 60 * MINUTE in StartsOn(windows, 1);
    assert IsFirstAnswer(windows, 0, 0, Some(49 * 60 * MINUTE));
    assert Matches(good, 32 * 60 * MINUTE);
  }

  // ---- On the calendar ----------------------------------------------------------------------

  const TICKS_PER_DAY := 864_000_000_000

  /** Day 0, 0001-01-01, is a Monday. */
  function NamedDay(day: nat): ContractDay {
    [Monday, Tuesday, Wednesday, Thursday, Friday, Saturday, Sunday][day % 7]
  }

  /** The window is for that day of the calendar; one without a proper name is for Mondays. */
  predicate IsFor(w: TimeWindow, day: nat) {
    w.day == NamedDay(day) || (w.day == Unnamed && NamedDay(day) == Monday)
  }

  predicate IsOpen(w: TimeWindow, t: Instant) {
    && IsFor(w, t / TICKS_PER_DAY)
    && w.startTime.Some? && w.endTime.Some? && w.startTime.value <= t % TICKS_PER_DAY < w.endTime.value
  }

  lemma {:induction false} DayOnCalendar(w: TimeWindow, t: Instant)
    ensures ToSystemDay(w.day) == DayOfWeek(t) <==> IsFor(w, t / TICKS_PER_DAY)
    ensures TimeOfDay(t) == t % TICKS_PER_DAY
  {
    var k := t / TICKS_PER_DAY % 7;
    assert DayOfWeek(t) == (k + 1) % 7;
    assert 0 <= k < 7;
  }

  /** Access is allowed exactly while the schedule is enabled and some window for the day has both times
      and contains the time of day. */
  lemma {:induction false} AllowedOnCalendar(s: Settings, t: Instant)
    ensures IsAccessAllowed(s, t) <==>
      s.enabled && s.schedule.Some? && exists w :: w in s.schedule.value && IsOpen(w, t)
  {
    if s.schedule.Some? {
      forall w | w in s.schedule.value ensures Matches(w, t) <==> IsOpen(w, t) {
        DayOnCalendar(w, t);
      }
    }
  }

  lemma {:induction false} FirstMatchAt(windows: seq<TimeWindow>, t: Instant) returns (i: nat)
    requires FirstMatch(windows, t).Some?
    ensures i < |windows| && FirstMatch(windows, t) == Some(windows[i])
    ensures forall j :: 0 <= j < i ==> !MatchesParsed(windows[j], t)
  {
    if MatchesParsed(windows[0], t) {
      i := 0;
    } else {
      var rest := FirstMatchAt(windows[1..], t);
      i := rest + 1;
      assert forall j :: 0 < j < i ==> windows[j] == windows[1..][j - 1];
    }
  }

  /** The time remaining ends with the first window, in the order of the schedule, that is for the day
      and contains the time of day, a start that does not parse being midnight. */
  lemma {:induction false} RemainingOnCalendar(s: Settings, t: Instant)
    requires TimeRemaining(s, t).Some?
    ensures var windows, now := s.schedule.value, t % TICKS_PER_DAY;
      exists i :: 0 <= i < |windows| && IsFor(windows[i], t / TICKS_PER_DAY)
        && windows[i].endTime == Some(now + TimeRemaining(s, t).value) && ParseTime(windows[i].startTime) <= now
        && forall j :: 0 <= j < i ==> !MatchesParsed(windows[j], t)
  {
    var i := FirstMatchAt(s.schedule.value, t);
    DayOnCalendar(s.schedule.value[i], t);
  }

  /** One window, on any day of the week: when access is allowed, for how long, and how long until then. */
  lemma {:induction false} OneWindow(d: nat, a: int, b: int, k: nat, t: nat, r: Option<int>)
    requires d < 7 && t < TICKS_PER_DAY
    ensures var w, now := TimeWindow(NamedDay(d), Some(a), Some(b)), k * TICKS_PER_DAY + t;
      var s, open := Settings(true, Some([w])), k % 7 == d && a <= t < b;
      && (IsAccessAllowed(s, now) <==> open)
      && TimeRemaining(s, now) == (if open then Some(b - t) else None)
      && (!open && 0 <= a < TICKS_PER_DAY && IsTimeUntil([w], now, r) ==>
            var days := if k % 7 == d && a <= t then 7 else (d - k) % 7;
            r == Some(days * TICKS_PER_DAY + a - t))
  {
    var w, now := TimeWindow(NamedDay(d), Some(a), Some(b)), k * TICKS_PER_DAY + t;
    var s := Settings(true, Some([w]));
    assert now / TICKS_PER_DAY == k && now % TICKS_PER_DAY == t;
    DayOnCalendar(w, now);
    assert [w][0] == w && w in s.schedule.value;
    assert Matches(w, now) <==> k % 7 == d && a <= t < b;
    assert FirstMatch([w], now) == if MatchesParsed([w][0], now) then Some(w) else FirstMatch([w][1..], now);
    if 0 <= a < TICKS_PER_DAY && IsTimeUntil([w], now, r) {
      AnswerIsEarliestNextStart([w], now, r);
      OneNextStart(w, d, k, t);
    }
  }

  lemma {:induction false} OneNextStart(w: TimeWindow, d: nat, k: nat, t: nat)
    requires d < 7 && w.day == NamedDay(d) && t < TICKS_PER_DAY
    ensures var days := if k % 7 == d && ParseTime(w.startTime) <= t then 7 else (d - k) % 7;
      NextStart(w, k * TICKS_PER_DAY + t) == (k + days) * TICKS_PER_DAY + ParseTime(w.startTime)
  {
    var now := k * TICKS_PER_DAY + t;
    assert now / DAY == k && now % DAY == t;
    assert DateOf(now) == k * DAY;
    assert ToSystemDay(w.day) == (d + 1) % 7;
    WeekdayGap(d, k);
  }

  lemma {:induction false} WeekdayGap(d: nat, k: nat)
    requires d < 7
    ensures ((d + 1) % 7 - (k + 1) % 7) % 7 == (d - k) % 7
    ensures (d - k) % 7 == 0 <==> k % 7 == d
  {
    var q := k / 7;
    assert k == 7 * q + k % 7;
    assert (k + 1) % 7 == (k % 7 + 1) % 7;
    assert (d - k) % 7 == (d - k % 7) % 7;
  }
}
