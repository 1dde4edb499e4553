/** The uptime log: intervals written one heartbeat at a time against the batch view of all of them. */
module Uptime {
  import opened Wrappers
  import opened Runs

  const THRESHOLD := 5 * 60 * 10_000_000  // five minutes in ticks

  datatype Interval = Interval(start: int, end: int)

  /** What the monitor holds in memory, and what its file holds. */
  datatype Log = Log(currentStart: Option<int>, lastSeen: Option<int>, file: seq<Interval>)

  /** One heartbeat; `readable` says whether the file could be read at it, and `saved` whether its
      write reached the file. */
  datatype Beat = Beat(now: int, readable: bool, saved: bool)

  predicate Continues(l: Log, now: int) {
    l.lastSeen.Some? && now - l.lastSeen.value <= THRESHOLD
  }

  /** `UpdateLastIntervalEnd`, with its branch for memory that has drifted from the file. */
  function Updated(file: seq<Interval>, start: int, end: int): seq<Interval> {
    if |file| > 0 && file[|file| - 1].start == start then file[|file| - 1 := Interval(start, end)]
    else file + [Interval(start, end)]
  }

  /** A file that cannot be read counts as empty, so a save that succeeds then forgets what it held. */
  function Loaded(file: seq<Interval>, readable: bool): seq<Interval> {
    if readable then file else []
  }

  function AfterBeat(l: Log, b: Beat): Log {
    var loaded := Loaded(l.file, b.readable);
    if Continues(l, b.now) then
      Log(l.currentStart, Some(b.now),
          if b.saved && l.currentStart.Some? then Updated(loaded, l.currentStart.value, b.now) else l.file)
    else
      Log(Some(b.now), Some(b.now), if b.saved then loaded + [Interval(b.now, b.now)] else l.file)
  }

  /** Both clocks are set together. */
  predicate Consistent(l: Log) {
    l.currentStart.Some? <==> l.lastSeen.Some?
  }

  class UptimeMonitor {
    var currentStart: Option<int>
    var lastSeen: Option<int>
    var file: seq<Interval>

    function State(): Log
      reads this
    {
      Log(currentStart, lastSeen, file)
    }

    /** A new process finds the file of the runs before it. */
    constructor (stored: seq<Interval>)
      ensures State() == Log(None, None, stored)
    {
      currentStart, lastSeen, file := None, None, stored;
    }

    method RecordHeartbeat(now: int, readable: bool, saved: bool)
      requires Consistent(State())
      modifies this
      ensures State() == AfterBeat(old(State()), Beat(now, readable, saved)) && Consistent(State())
    {
      if lastSeen == None || now - lastSeen.value > THRESHOLD {
        currentStart := Some(now);
        lastSeen := Some(now);
        AppendInterval(Interval(now, now), readable, saved);
      } else {
        lastSeen := Some(now);
        UpdateLastIntervalEnd(now, readable, saved);
      }
    }

    method LoadIntervals(readable: bool) returns (intervals: seq<Interval>)
      ensures intervals == Loaded(file, readable)
    {
      if !readable {
        return [];
      }
      return file;
    }

    method AppendInterval(interval: Interval, readable: bool, saved: bool)
      modifies this`file
      ensures file == if saved then Loaded(old(file), readable) + [interval] else old(file)
    {
      var intervals := LoadIntervals(readable);
      intervals := intervals + [interval];
      if saved {
        file := intervals;
      }
    }

    method UpdateLastIntervalEnd(newEnd: int, readable: bool, saved: bool)
      requires currentStart.Some?
      modifies this`file
      ensures file == if saved then Updated(Loaded(old(file), readable), currentStart.value, newEnd) else old(file)
    {
      var intervals := LoadIntervals(readable);
      if |intervals| > 0 {
        var last := intervals[|intervals| - 1];
        if last.start == currentStart.value {
          intervals := intervals[|intervals| - 1 := last.(end := newEnd)];
        } else {
          intervals := intervals + [Interval(currentStart.value, newEnd)];
        }
      } else {
        intervals := intervals + [Interval(currentStart.value, newEnd)];
      }
      if saved {
        file := intervals;
      }
    }
  }

  /** A process run from a stored file on. */
  function AfterRun(stored: seq<Interval>, beats: seq<Beat>): Log {
    if |beats| == 0 then Log(None, None, stored)
    else AfterBeat(AfterRun(stored, beats[..|beats| - 1]), beats[|beats| - 1])
  }

  // ---- The batch view -----------------------------------------------------------------------

  /** At most five minutes apart. */
  predicate Near(a: Beat, b: Beat) {
    b.now - a.now <= 3_000_000_000
  }

  function IntervalOf(group: seq<Beat>): Interval
    requires |group| > 0
  {
    Interval(group[0].now, group[|group| - 1].now)
  }

  function Intervals(groups: seq<seq<Beat>>): (r: seq<Interval>)
    requires forall i :: 0 <= i < |groups| ==> |groups[i]| > 0
    ensures |r| == |groups|
  {
    if |groups| == 0 then [] else Intervals(groups[..|groups| - 1]) + [IntervalOf(groups[|groups| - 1])]
  }

  /** The heartbeats cut at gaps of more than five minutes, each group as one interval. */
  function Batch(beats: seq<Beat>): seq<Interval> {
    Intervals(RunsOf(beats, Near))
  }

  ghost predicate AllSaved(beats: seq<Beat>) {
    forall i :: 0 <= i < |beats| ==> beats[i].readable && beats[i].saved
  }

  /** Memory mirrors the newest group of the run so far. */
  ghost predicate Mirrors(l: Log, beats: seq<Beat>) {
    if |beats| == 0 then l.currentStart == None && l.lastSeen == None
    else
      var groups := RunsOf(beats, Near);
      var last := groups[|groups| - 1];
      && l.currentStart == Some(last[0].now) && l.lastSeen == Some(last[|last| - 1].now)
      && last[|last| - 1] == beats[|beats| - 1]
  }

  lemma {:induction false} MirrorsStep(l: Log, beats: seq<Beat>, b: Beat)
    requires Mirrors(l, beats)
    ensures Mirrors(AfterBeat(l, b), beats + [b])
    ensures Continues(l, b.now) <==> |beats| > 0 && Near(beats[|beats| - 1], b)
  {
    if |beats| > 0 && Near(beats[|beats| - 1], b) {
      RunsExtend(beats, b, Near);
    } else {
      RunsStart(beats, b, Near);
    }
  }

  lemma {:induction false} MemoryMirrors(stored: seq<Interval>, beats: seq<Beat>)
    ensures Mirrors(AfterRun(stored, beats), beats)
  {
    if |beats| > 0 {
      var init, last := beats[..|beats| - 1], beats[|beats| - 1];
      MemoryMirrors(stored, init);
      MirrorsStep(AfterRun(stored, init), init, last);
      assert beats == init + [last];
    }
  }

  lemma {:induction false} IntervalsExtend(groups: seq<seq<Beat>>, b: Beat)
    requires |groups| > 0 && forall i :: 0 <= i < |groups| ==> |groups[i]| > 0
    ensures Intervals(Extend(groups, b)) ==
            Intervals(groups)[|groups| - 1 := Interval(groups[|groups| - 1][0].now, b.now)]
  {
    assert Extend(groups, b)[..|groups| - 1] == groups[..|groups| - 1];
  }

  lemma {:induction false} IntervalsStart(groups: seq<seq<Beat>>, b: Beat)
    requires forall i :: 0 <= i < |groups| ==> |groups[i]| > 0
    ensures Intervals(groups + [[b]]) == Intervals(groups) + [Interval(b.now, b.now)]
  {
    assert (groups + [[b]])[..|groups|] == groups;
  }

  /** With successful saves the file is always the earlier file followed by the batch view of this
      run's heartbeats, whatever the clock does; the branch for drifted memory is never taken. */
  lemma {:induction false} FileIsBatch(stored: seq<Interval>, beats: seq<Beat>)
    requires AllSaved(beats)
    ensures AfterRun(stored, beats).file == stored + Batch(beats)
    ensures |beats| > 0 ==>
      var l := AfterRun(stored, beats); |l.file| > 0 && l.currentStart == Some(l.file[|l.file| - 1].start)
  {
    hide RunsOf, Intervals, AfterBeat;
    MemoryMirrors(stored, beats);
    if |beats| > 0 {
      var init, last := beats[..|beats| - 1], beats[|beats| - 1];
      FileIsBatch(stored, init);
      MemoryMirrors(stored, init);
      assert beats == init + [last];
      FileStep(stored, AfterRun(stored, init), init, last);
    }
  }

  lemma {:induction false} ContinueInFile(stored: seq<Interval>, groups: seq<seq<Beat>>, l: Log, b: Beat)
    requires |groups| > 0 && forall i :: 0 <= i < |groups| ==> |groups[i]| > 0
    requires l.file == stored + Intervals(groups) && l.currentStart == Some(groups[|groups| - 1][0].now)
    requires b.readable && b.saved && Continues(l, b.now)
    ensures AfterBeat(l, b).file == stored + Intervals(Extend(groups, b))
    ensures AfterBeat(l, b).currentStart == Some(AfterBeat(l, b).file[|AfterBeat(l, b).file| - 1].start)
  {
    var n := |groups| - 1;
    IntervalsExtend(groups, b);
    assert Intervals(groups)[n] == IntervalOf(groups[n]);
    assert l.file[|l.file| - 1] == Intervals(groups)[n];
  }

  lemma {:induction false} FileStep(stored: seq<Interval>, l: Log, beats: seq<Beat>, b: Beat)
    requires b.readable && b.saved && Mirrors(l, beats) && l.file == stored + Batch(beats)
    ensures AfterBeat(l, b).file == stored + Batch(beats + [b])
    ensures AfterBeat(l, b).currentStart == Some(AfterBeat(l, b).file[|AfterBeat(l, b).file| - 1].start)
  {
    hide Intervals, RunsOf;
    MirrorsStep(l, beats, b);
    if |beats| > 0 && Near(beats[|beats| - 1], b) {
      RunsExtend(beats, b, Near);
      ContinueInFile(stored, RunsOf(beats, Near), l, b);
    } else {
      RunsStart(beats, b, Near);
      IntervalsStart(RunsOf(beats, Near), b);
    }
  }

  /** Several process runs, each appending to what the runs before it stored. */
  function AfterRuns(stored: seq<Interval>, runs: seq<seq<Beat>>): seq<Interval> {
    if |runs| == 0 then stored else AfterRun(AfterRuns(stored, runs[..|runs| - 1]), runs[|runs| - 1]).file
  }

  function Batches(runs: seq<seq<Beat>>): seq<Interval> {
    if |runs| == 0 then [] else Batches(runs[..|runs| - 1]) + Batch(runs[|runs| - 1])
  }

  lemma {:induction false} RunsAppend(stored: seq<Interval>, runs: seq<seq<Beat>>)
    requires forall i :: 0 <= i < |runs| ==> AllSaved(runs[i])
    ensures AfterRuns(stored, runs) == stored + Batches(runs)
  {
    if |runs| > 0 {
      RunsAppend(stored, runs[..|runs| - 1]);
      FileIsBatch(AfterRuns(stored, runs[..|runs| - 1]), runs[|runs| - 1]);
    }
  }

  // ---- Saves that fail ----------------------------------------------------------------------

  ghost predicate Increasing(beats: seq<Beat>) {
    forall i, j :: 0 <= i < j < |beats| ==> beats[i].now < beats[j].now
  }

  /** Starts in the file are strictly increasing, so none appears twice. */
  ghost predicate StartsIncrease(file: seq<Interval>) {
    forall i, j :: 0 <= i < j < |file| ==> file[i].start < file[j].start
  }

  ghost predicate StartsBefore(file: seq<Interval>, t: int) {
    forall i :: 0 <= i < |file| ==> file[i].start < t
  }

  /** After a successful save the last interval is exactly what memory holds, whatever saves failed
      before it. */
  lemma {:induction false} SavedIsCurrent(stored: seq<Interval>, beats: seq<Beat>)
    requires |beats| > 0 && beats[|beats| - 1].saved
    ensures var l := AfterRun(stored, beats);
      && l.currentStart.Some? && l.lastSeen == Some(beats[|beats| - 1].now)
      && |l.file| > 0 && l.file[|l.file| - 1] == Interval(l.currentStart.value, l.lastSeen.value)
  {
    MemoryMirrors(stored, beats[..|beats| - 1]);
  }

  lemma {:induction false} StartsStep(l: Log, b: Beat)
    requires Consistent(l) && StartsIncrease(l.file)
    requires l.lastSeen.Some? ==> l.currentStart.value <= l.lastSeen.value < b.now
    requires forall i :: 0 <= i < |l.file| ==>
      l.file[i].start < b.now && (l.currentStart.Some? ==>
        l.file[i].start <= l.currentStart.value && (i < |l.file| - 1 ==> l.file[i].start < l.currentStart.value))
    ensures var l' := AfterBeat(l, b);
      && StartsIncrease(l'.file) && l'.currentStart.Some? && l'.currentStart.value <= b.now
      && forall i :: 0 <= i < |l'.file| ==>
           l'.file[i].start <= l'.currentStart.value && (i < |l'.file| - 1 ==> l'.file[i].start < l'.currentStart.value)
  {
  }

  /** With a strictly increasing clock no start appears twice, even when saves fail. */
  lemma {:induction false} NoStartTwice(stored: seq<Interval>, beats: seq<Beat>)
    requires StartsIncrease(stored) && Increasing(beats)
    requires |beats| > 0 ==> StartsBefore(stored, beats[0].now)
    ensures var l := AfterRun(stored, beats);
      && StartsIncrease(l.file)
      && (|beats| > 0 ==>
           && l.currentStart.Some? && l.lastSeen == Some(beats[|beats| - 1].now)
           && l.currentStart.value <= beats[|beats| - 1].now
           && forall i :: 0 <= i < |l.file| ==>
                && l.file[i].start <= l.currentStart.value
                && (i < |l.file| - 1 ==> l.file[i].start < l.currentStart.value))
  {
    if |beats| > 0 {
      var init, last := beats[..|beats| - 1], beats[|beats| - 1];
      NoStartTwice(stored, init);
      MemoryMirrors(stored, init);
      if |init| > 0 {
        assert init[|init| - 1].now < last.now;
      }
      StartsStep(AfterRun(stored, init), last);
    }
  }

  // ---- The file exactly, whatever fails -----------------------------------------------------

  /** The moment of the last beat of a group that was saved. */
  function LastSaved(group: seq<Beat>): Option<int> {
    if |group| == 0 then None
    else if group[|group| - 1].saved then Some(group[|group| - 1].now)
    else LastSaved(group[..|group| - 1])
  }

  /** Some beat of the group was saved over a file that could not be read. */
  predicate Forgets(group: seq<Beat>) {
    exists i :: 0 <= i < |group| && group[i].saved && !group[i].readable
  }

  function SavedInterval(group: seq<Beat>): (r: seq<Interval>)
    requires |group| > 0
    ensures |r| <= 1 && (|r| == 1 ==> r[0].start == group[0].now)
  {
    match LastSaved(group)
    case None => []
    case Some(end) => [Interval(group[0].now, end)]
  }

  /** The batch view when reads and saves may fail: each group with a saved beat is one interval, from
      its first beat to its last saved one, and a group that forgets is the first of what is left. */
  function SavedBatch(stored: seq<Interval>, groups: seq<seq<Beat>>): seq<Interval>
    requires forall i :: 0 <= i < |groups| ==> |groups[i]| > 0
    decreases |groups|, 1
  {
    if |groups| == 0 then stored else Before(stored, groups) + SavedInterval(groups[|groups| - 1])
  }

  /** What stands in front of the interval of the last group. */
  function Before(stored: seq<Interval>, groups: seq<seq<Beat>>): seq<Interval>
    requires |groups| > 0 && forall i :: 0 <= i < |groups| ==> |groups[i]| > 0
    decreases |groups|, 0
  {
    if Forgets(groups[|groups| - 1]) then [] else SavedBatch(stored, groups[..|groups| - 1])
  }

  ghost predicate LastStartsBefore(file: seq<Interval>, t: int) {
    |file| > 0 ==> file[|file| - 1].start < t
  }

  lemma {:induction false} GroupExtends(group: seq<Beat>, b: Beat)
    requires |group| > 0
    ensures SavedInterval(group + [b]) == if b.saved then [Interval(group[0].now, b.now)] else SavedInterval(group)
    ensures Forgets(group + [b]) <==> Forgets(group) || (b.saved && !b.readable)
  {
    var more := group + [b];
    assert more[..|group|] == group && more[|group|] == b;
    assert forall i :: 0 <= i < |group| ==> more[i] == group[i];
  }

  lemma {:induction false} GroupStarts(b: Beat)
    ensures SavedInterval([b]) == if b.saved then [Interval(b.now, b.now)] else []
    ensures Forgets([b]) <==> b.saved && !b.readable
  {
    assert [b][..0] == [] && [b][0] == b && LastSaved([]) == None;
    assert LastSaved([b]) == if b.saved then Some(b.now) else LastSaved([b][..0]);
  }

  /** The file and the start that memory holds, after the groups so far. */
  ghost predicate FileHolds(stored: seq<Interval>, groups: seq<seq<Beat>>, l: Log, newest: int)
    requires forall i :: 0 <= i < |groups| ==> |groups[i]| > 0
  {
    && l.file == SavedBatch(stored, groups)
    && if |groups| == 0 then LastStartsBefore(stored, newest + 1)
       else
         var start := groups[|groups| - 1][0].now;
         l.currentStart == Some(start) && start <= newest && LastStartsBefore(Before(stored, groups), start)
  }

  lemma {:induction false} HoldsExtend(stored: seq<Interval>, groups: seq<seq<Beat>>, l: Log, newest: int, b: Beat)
    requires |groups| > 0 && forall i :: 0 <= i < |groups| ==> |groups[i]| > 0
    requires FileHolds(stored, groups, l, newest) && newest <= b.now && Continues(l, b.now)
    ensures FileHolds(stored, Extend(groups, b), AfterBeat(l, b), b.now)
  {
    var n := |groups| - 1;
    GroupExtends(groups[n], b);
    assert Extend(groups, b)[..n] == groups[..n] && Extend(groups, b)[n] == groups[n] + [b];
  }

  lemma {:induction false} HeldEndsBefore(stored: seq<Interval>, groups: seq<seq<Beat>>, l: Log, newest: int, t: int)
    requires forall i :: 0 <= i < |groups| ==> |groups[i]| > 0
    requires FileHolds(stored, groups, l, newest) && newest < t
    ensures LastStartsBefore(l.file, t)
  {
  }

  lemma {:induction false} HoldsStart(stored: seq<Interval>, groups: seq<seq<Beat>>, l: Log, newest: int, b: Beat)
    requires forall i :: 0 <= i < |groups| ==> |groups[i]| > 0
    requires FileHolds(stored, groups, l, newest) && newest < b.now && !Continues(l, b.now)
    ensures FileHolds(stored, groups + [[b]], AfterBeat(l, b), b.now)
  {
    var more := groups + [[b]];
    HeldEndsBefore(stored, groups, l, newest, b.now);
    GroupStarts(b);
    assert more[..|groups|] == groups;
    assert Before(stored, more) == if Forgets([b]) then [] else l.file;
    assert SavedBatch(stored, more) == Before(stored, more) + SavedInterval([b]);
  }

  lemma {:induction false} HoldsStep(stored: seq<Interval>, beats: seq<Beat>, l: Log, newest: int, b: Beat)
    requires FileHolds(stored, RunsOf(beats, Near), l, newest) && newest < b.now && Mirrors(l, beats)
    ensures FileHolds(stored, RunsOf(beats + [b], Near), AfterBeat(l, b), b.now)
  {
    hide FileHolds;
    MirrorsStep(l, beats, b);
    if |beats| > 0 && Near(beats[|beats| - 1], b) {
      RunsExtend(beats, b, Near);
      HoldsExtend(stored, RunsOf(beats, Near), l, newest, b);
    } else {
      RunsStart(beats, b, Near);
      HoldsStart(stored, RunsOf(beats, Near), l, newest, b);
    }
  }

  lemma {:induction false} NothingHeld(stored: seq<Interval>, newest: int)
    requires LastStartsBefore(stored, newest + 1)
    ensures FileHolds(stored, [], Log(None, None, stored), newest)
  {
  }

  lemma {:induction false} RunHolds(stored: seq<Interval>, beats: seq<Beat>, newest: int)
    requires Increasing(beats) && LastStartsBefore(stored, if |beats| > 0 then beats[0].now else newest + 1)
    requires |beats| > 0 ==> beats[|beats| - 1].now == newest
    ensures FileHolds(stored, RunsOf(beats, Near), AfterRun(stored, beats), newest)
  {
    hide FileHolds, RunsOf, AfterBeat, SavedBatch;
    if |beats| == 0 {
      NothingHeld(stored, newest);
    } else {
      var n := |beats| - 1;
      var earlier := if n > 0 then beats[n - 1].now else newest - 1;
      RunHolds(stored, beats[..n], earlier);
      MemoryMirrors(stored, beats[..n]);
      HoldsStep(stored, beats[..n], AfterRun(stored, beats[..n]), earlier, beats[n]);
      assert beats == beats[..n] + [beats[n]];
    }
  }

  /** Whatever fails, under a strictly increasing clock the file is exactly the batch view of what was
      saved: the stored intervals, and one for every group with a saved beat; or, once a save has gone
      over an unreadable file, only those from that group on. */
  lemma {:induction false} FileIsSavedBatch(stored: seq<Interval>, beats: seq<Beat>)
    requires Increasing(beats) && (|beats| > 0 ==> LastStartsBefore(stored, beats[0].now))
    ensures AfterRun(stored, beats).file == SavedBatch(stored, RunsOf(beats, Near))
  {
    if |beats| > 0 {
      RunHolds(stored, beats, beats[|beats| - 1].now);
    }
  }
}
