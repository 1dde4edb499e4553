/** The client's activity list: sequential identical activities become one entry. */
module MergeActivities {
  import opened Sequences
  import opened Runs

  datatype Entry = Entry(id: int, timestamp: int, process: string, window: string, duration: int)

  predicate SameKey(a: Entry, b: Entry) {
    a.process == b.process && a.window == b.window
  }

  function TimestampOf(e: Entry): int { e.timestamp }

  function DurationOf(e: Entry): int { e.duration }

  function Reverse<T>(s: seq<T>): (r: seq<T>)
    ensures |r| == |s|
    ensures forall i :: 0 <= i < |s| ==> r[i] == s[|s| - 1 - i]
  {
    if |s| == 0 then [] else [s[|s| - 1]] + Reverse(s[..|s| - 1])
  }

  /** One run as one entry: its first entry with the durations added up. */
  function Combine(run: seq<Entry>): Entry
    requires |run| > 0
  {
    run[0].(duration := SumBy(run, DurationOf))
  }

  function CombineAll(runs: seq<seq<Entry>>): (r: seq<Entry>)
    requires forall i :: 0 <= i < |runs| ==> |runs[i]| > 0
    ensures |r| == |runs|
  {
    if |runs| == 0 then [] else CombineAll(runs[..|runs| - 1]) + [Combine(runs[|runs| - 1])]
  }

  /** Each entry of the result carries the first entry of its run, with the run's total duration. */
  lemma {:induction false} CombineAllAt(runs: seq<seq<Entry>>, i: nat)
    requires forall k :: 0 <= k < |runs| ==> |runs[k]| > 0
    requires i < |runs|
    ensures CombineAll(runs)[i] == Combine(runs[i])
    ensures var entry, first := CombineAll(runs)[i], runs[i][0];
      && entry.id == first.id && entry.timestamp == first.timestamp
      && entry.process == first.process && entry.window == first.window
      && entry.duration == SumBy(runs[i], DurationOf)
  {
    if i < |runs| - 1 {
      CombineAllAt(runs[..|runs| - 1], i);
    }
  }

  /** The combined maximal runs, oldest first. */
  function Chronological(activities: seq<Entry>): seq<Entry> {
    CombineAll(RunsOf(SortBy(activities, TimestampOf), SameKey))
  }

  function Merged(activities: seq<Entry>): seq<Entry> {
    Reverse(Chronological(activities))
  }

  method MergeSequentialActivities(activities: seq<Entry>) returns (r: seq<Entry>)
    ensures r == Merged(activities)
  {
    if |activities| == 0 {
      return [];
    }
    var sorted := SortBy(activities, TimestampOf);
    SameLength(sorted, activities);
    var merged := MergeSorted(sorted);
    r := Reverse(merged);
  }

  /** The loop over the sorted copy, with its final push. */
  method MergeSorted(sorted: seq<Entry>) returns (merged: seq<Entry>)
    requires |sorted| > 0
    ensures merged == CombineAll(RunsOf(sorted, SameKey))
  {
    merged := [];
    var current := sorted[0];
    Single(sorted[0]);
    assert sorted[..1] == [sorted[0]];
    for i := 1 to |sorted|
      invariant merged + [current] == CombineAll(RunsOf(sorted[..i], SameKey))
      invariant SameKey(current, sorted[i - 1])
    {
      var activity := sorted[i];
      assert sorted[..i + 1] == sorted[..i] + [activity];
      if SameKey(activity, current) {
        RunsExtend(sorted[..i], activity, SameKey);
        CombineExtend(RunsOf(sorted[..i], SameKey), activity, merged, current);
        current := current.(duration := current.duration + activity.duration);
      } else {
        RunsStart(sorted[..i], activity, SameKey);
        CombineStart(RunsOf(sorted[..i], SameKey), activity);
        merged := merged + [current];
        current := activity;
      }
    }
    assert sorted[..|sorted|] == sorted;
    merged := merged + [current];
  }

  lemma {:induction false} Single(e: Entry)
    ensures RunsOf([e], SameKey) == [[e]]
    ensures CombineAll([[e]]) == [e]
  {
    assert [e][1..] == [];
    assert [e][..0] == [] && SumBy([e], DurationOf) == SumBy([e][..0], DurationOf) + e.duration;
  }

  lemma {:induction false} CombineStart(r: seq<seq<Entry>>, x: Entry)
    requires forall i :: 0 <= i < |r| ==> |r[i]| > 0
    ensures CombineAll(r + [[x]]) == CombineAll(r) + [x]
  {
    Single(x);
    assert (r + [[x]])[..|r|] == r;
    CombineAllAt([[x]], 0);
  }

  lemma {:induction false} CombineExtend(r: seq<seq<Entry>>, x: Entry, merged: seq<Entry>, current: Entry)
    requires |r| > 0 && forall i :: 0 <= i < |r| ==> |r[i]| > 0
    requires merged + [current] == CombineAll(r)
    ensures CombineAll(Extend(r, x)) == merged + [current.(duration := current.duration + x.duration)]
  {
    var init, last := r[..|r| - 1], r[|r| - 1];
    assert Extend(r, x)[..|r| - 1] == init;
    assert (last + [x])[..|last|] == last;
    assert CombineAll(r) == CombineAll(init) + [Combine(last)];
    assert merged == CombineAll(r)[..|r| - 1] && current == CombineAll(r)[|r| - 1];
  }

  // ---- What the list promises ---------------------------------------------------------------

  lemma {:induction false} SumOfRuns(runs: seq<seq<Entry>>)
    requires forall i :: 0 <= i < |runs| ==> |runs[i]| > 0
    ensures SumBy(CombineAll(runs), DurationOf) == SumBy(Flatten(runs), DurationOf)
  {
    if |runs| > 0 {
      SumOfRuns(runs[..|runs| - 1]);
      SumByAppend(Flatten(runs[..|runs| - 1]), runs[|runs| - 1], DurationOf);
      var c := CombineAll(runs);
      assert c[..|c| - 1] == CombineAll(runs[..|runs| - 1]);
    }
  }

  lemma {:induction false} ReverseSameElements<T>(s: seq<T>)
    ensures multiset(Reverse(s)) == multiset(s)
  {
    if |s| > 0 {
      ReverseSameElements(s[..|s| - 1]);
      assert s == s[..|s| - 1] + [s[|s| - 1]];
    }
  }

  /** No duration is lost or counted twice. */
  lemma {:induction false} DurationConserved(activities: seq<Entry>)
    ensures SumBy(Merged(activities), DurationOf) == SumBy(activities, DurationOf)
  {
    var sorted := SortBy(activities, TimestampOf);
    RunsAreMaximal(sorted, SameKey);
    SumOfRuns(RunsOf(sorted, SameKey));
    SumByPermutation(sorted, activities, DurationOf);
    ReverseSameElements(Chronological(activities));
    SumByPermutation(Merged(activities), Chronological(activities), DurationOf);
  }

  lemma {:induction false} RunKey(run: seq<Entry>, i: nat)
    requires IsRun(run, SameKey) && i < |run|
    ensures SameKey(run[0], run[i])
  {
    if i > 0 {
      RunKey(run, i - 1);
      assert SameKey(run[i - 1], run[i - 1 + 1]);
    }
  }

  /** Neighbouring entries of the result have different keys. */
  lemma {:induction false} NeighboursDiffer(activities: seq<Entry>, i: nat)
    requires i + 1 < |Chronological(activities)|
    ensures var a, b := Chronological(activities)[i], Chronological(activities)[i + 1];
      a.process != b.process || a.window != b.window
  {
    var sorted := SortBy(activities, TimestampOf);
    var r := RunsOf(sorted, SameKey);
    RunsAreMaximal(sorted, SameKey);
    assert IsRun(r[i], SameKey) && Cut(r[i], r[i + 1], SameKey);
    RunKey(r[i], |r[i]| - 1);
    CombineAllAt(r, i);
    CombineAllAt(r, i + 1);
  }

  lemma {:induction false} HeadIsElement(s: seq<Entry>, linked: (Entry, Entry) -> bool, i: nat)
    requires i < |RunsOf(s, linked)|
    ensures exists k :: 0 <= k < |s| && s[k] == RunsOf(s, linked)[i][0]
  {
    var n, init := |s| - 1, RunsOf(s[..|s| - 1], linked);
    if i < |init| {
      HeadIsElement(s[..n], linked, i);
      var k :| 0 <= k < n && s[..n][k] == init[i][0];
      assert s[k] == RunsOf(s, linked)[i][0];
    } else {
      assert s[n] == RunsOf(s, linked)[i][0];
    }
  }

  lemma {:induction false} HeadsSorted(s: seq<Entry>, linked: (Entry, Entry) -> bool, i: nat, j: nat)
    requires SortedBy(s, TimestampOf)
    requires i < j < |RunsOf(s, linked)|
    ensures RunsOf(s, linked)[i][0].timestamp <= RunsOf(s, linked)[j][0].timestamp
  {
    var n, init := |s| - 1, RunsOf(s[..|s| - 1], linked);
    if j < |init| {
      HeadsSorted(s[..n], linked, i, j);
    } else {
      HeadIsElement(s[..n], linked, i);
      var k :| 0 <= k < n && s[..n][k] == init[i][0];
      assert TimestampOf(s[k]) <= TimestampOf(s[n]);
    }
  }

  /** Every member of a run has the process and the window of the run's entry. */
  lemma {:induction false} MembersShareKey(activities: seq<Entry>, i: nat, k: nat)
    requires i < |Chronological(activities)| && k < |RunsOf(SortBy(activities, TimestampOf), SameKey)[i]|
    ensures var entry, member := Chronological(activities)[i], RunsOf(SortBy(activities, TimestampOf), SameKey)[i][k];
      member.process == entry.process && member.window == entry.window
  {
    var sorted := SortBy(activities, TimestampOf);
    RunsAreMaximal(sorted, SameKey);
    var run := RunsOf(sorted, SameKey)[i];
    assert IsRun(run, SameKey);
    RunKey(run, k);
    CombineAllAt(RunsOf(sorted, SameKey), i);
  }

  /** The result is newest first. */
  lemma {:induction false} NewestFirst(activities: seq<Entry>)
    ensures SortedBy(Chronological(activities), TimestampOf)
    ensures forall i, j :: 0 <= i < j < |Merged(activities)| ==>
      Merged(activities)[i].timestamp >= Merged(activities)[j].timestamp
  {
    var sorted := SortBy(activities, TimestampOf);
    var c := Chronological(activities);
    forall i, j | 0 <= i < j < |c| ensures TimestampOf(c[i]) <= TimestampOf(c[j]) {
      HeadsSorted(sorted, SameKey, i, j);
      CombineAllAt(RunsOf(sorted, SameKey), i);
      CombineAllAt(RunsOf(sorted, SameKey), j);
    }
  }

  // ---- Merging the merged list again --------------------------------------------------------

  function IdOf(e: Entry): int { e.id }

  lemma {:induction false} HeadsDistinct(s: seq<Entry>, key: Entry -> int, i: nat, j: nat)
    requires DistinctBy(s, key) && i < j < |RunsOf(s, SameKey)|
    ensures key(RunsOf(s, SameKey)[i][0]) != key(RunsOf(s, SameKey)[j][0])
  {
    var n, init := |s| - 1, RunsOf(s[..|s| - 1], SameKey);
    if j < |init| {
      HeadsDistinct(s[..n], key, i, j);
    } else {
      HeadIsElement(s[..n], SameKey, i);
      var k :| 0 <= k < n && s[..n][k] == init[i][0];
      assert key(s[k]) != key(s[n]);
    }
  }

  lemma {:induction false} ChronologicalDistinct(activities: seq<Entry>, key: Entry -> int)
    requires DistinctBy(activities, key)
    requires forall e: Entry, d :: key(e.(duration := d)) == key(e)
    ensures DistinctBy(Chronological(activities), key)
  {
    var sorted, c := SortBy(activities, TimestampOf), Chronological(activities);
    DistinctByPermutation(activities, sorted, key);
    forall i, j | 0 <= i < j < |c| ensures key(c[i]) != key(c[j]) {
      HeadsDistinct(sorted, key, i, j);
      CombineAllAt(RunsOf(sorted, SameKey), i);
      CombineAllAt(RunsOf(sorted, SameKey), j);
    }
  }

  lemma {:induction false} CombineSingles(c: seq<Entry>, runs: seq<seq<Entry>>)
    requires |runs| == |c| && forall i :: 0 <= i < |c| ==> runs[i] == [c[i]]
    ensures CombineAll(runs) == c
  {
    forall i | 0 <= i < |c| ensures CombineAll(runs)[i] == c[i] {
      CombineAllAt(runs, i);
      Single(c[i]);
      CombineAllAt([[c[i]]], 0);
    }
  }

  lemma {:induction false} ReverseInjective<T>(a: seq<T>, b: seq<T>)
    requires Reverse(a) == Reverse(b)
    ensures a == b
  {
    assert |a| == |Reverse(a)| == |b|;
    forall i | 0 <= i < |a| ensures a[i] == b[i] {
      assert Reverse(a)[|a| - 1 - i] == Reverse(b)[|a| - 1 - i];
    }
  }

  /** Merging `c` again keeps it, once sorting has given `c` back. */
  lemma {:induction false} MergedAgainSame(activities: seq<Entry>)
    requires SortBy(Merged(activities), TimestampOf) == Chronological(activities)
    ensures Merged(Merged(activities)) == Merged(activities)
  {
    var c := Chronological(activities);
    forall i | 0 < i < |c| ensures !SameKey(c[i - 1], c[i]) {
      NeighboursDiffer(activities, i - 1);
    }
    AllRunsSingle(c, SameKey);
    CombineSingles(c, RunsOf(c, SameKey));
  }

  lemma {:induction false} MergedAgainSorted(activities: seq<Entry>)
    requires Merged(Merged(activities)) == Merged(activities)
    ensures SortBy(Merged(activities), TimestampOf) == Chronological(activities)
  {
    var c, d := Chronological(activities), SortBy(Merged(activities), TimestampOf);
    SameLength(d, Merged(activities));
    ReverseInjective(Chronological(Merged(activities)), c);
    AllRunsSingle(d, SameKey);
    CombineSingles(d, RunsOf(d, SameKey));
  }

  lemma {:induction false} TieReordered(c: seq<Entry>, i: nat, j: nat)
    requires i < j < |c| && TimestampOf(c[i]) == TimestampOf(c[j]) && DistinctBy(c, IdOf)
    ensures SortBy(Reverse(c), TimestampOf) != c
  {
    var m := Reverse(c);
    assert m[|c| - 1 - j] == c[j] && m[|c| - 1 - i] == c[i];
    SortByStable(m, TimestampOf, c[j], c[i]);
    forall p, q | 0 <= p < |c| && 0 <= q < |c| && c[p] == c[j] && c[q] == c[i] ensures q < p {
      assert IdOf(c[p]) == IdOf(c[j]) && IdOf(c[q]) == IdOf(c[i]);
    }
  }

  // ---- Which inputs merge the same way twice -------------------------------------------------

  /** A run starts at position `k`: the entry before it, if any, has another key. */
  predicate RunStart(s: seq<Entry>, k: nat)
    requires k < |s|
  {
    k == 0 || !SameKey(s[k - 1], s[k])
  }

  /** Two runs start at the same moment. */
  ghost predicate StartsTogether(s: seq<Entry>) {
    exists p, q :: 0 <= p < q < |s| && RunStart(s, p) && RunStart(s, q) && s[p].timestamp == s[q].timestamp
  }

  /** One more entry leaves the heads of the runs before it alone. */
  lemma {:induction false} HeadStays(s: seq<Entry>, i: nat)
    requires |s| > 0 && i < |RunsOf(s[..|s| - 1], SameKey)|
    ensures i < |RunsOf(s, SameKey)| && RunsOf(s, SameKey)[i][0] == RunsOf(s[..|s| - 1], SameKey)[i][0]
  {
  }

  /** A start is the head of the run whose number is the number of runs before it. */
  lemma {:induction false} StartIsHead(s: seq<Entry>, k: nat)
    requires k < |s| && RunStart(s, k)
    ensures var i := |RunsOf(s[..k], SameKey)|;
      i < |RunsOf(s, SameKey)| && RunsOf(s, SameKey)[i][0] == s[k]
  {
    var n := |s| - 1;
    if k < n {
      var init := s[..n];
      assert init[..k] == s[..k] && init[k] == s[k] && (k > 0 ==> init[k - 1] == s[k - 1]);
      StartIsHead(init, k);
      HeadStays(s, |RunsOf(s[..k], SameKey)|);
    } else {
      assert RunsOf(s, SameKey) == RunsOf(s[..n], SameKey) + [[s[n]]];
    }
  }

  lemma {:induction false} NewRunIsStart(s: seq<Entry>)
    requires |s| > 0 && |RunsOf(s[..|s| - 1], SameKey)| < |RunsOf(s, SameKey)|
    ensures RunStart(s, |s| - 1)
    ensures RunsOf(s, SameKey) == RunsOf(s[..|s| - 1], SameKey) + [[s[|s| - 1]]]
  {
  }

  lemma {:induction false} HeadIsStart(s: seq<Entry>, i: nat) returns (k: nat)
    requires i < |RunsOf(s, SameKey)|
    ensures k < |s| && RunStart(s, k) && |RunsOf(s[..k], SameKey)| == i && s[k] == RunsOf(s, SameKey)[i][0]
  {
    hide RunsOf;
    var n := |s| - 1;
    var init := s[..n];
    if i < |RunsOf(init, SameKey)| {
      k := HeadIsStart(init, i);
      HeadStays(s, i);
      assert init[..k] == s[..k] && init[k] == s[k] && (k > 0 ==> init[k - 1] == s[k - 1]);
    } else {
      NewRunIsStart(s);
      k := n;
    }
  }

  /** Later positions have more runs before them, once a run has started. */
  lemma {:induction false} RunsGrow(s: seq<Entry>, p: nat, q: nat)
    requires p < q <= |s| && RunStart(s, p)
    ensures |RunsOf(s[..p], SameKey)| < |RunsOf(s[..q], SameKey)|
  {
    assert s[..q][..p] == s[..p];
    StartIsHead(s[..q], p);
  }

  lemma {:induction false} ChronologicalTimestamp(activities: seq<Entry>, i: nat)
    requires i < |Chronological(activities)|
    ensures TimestampOf(Chronological(activities)[i])
         == TimestampOf(RunsOf(SortBy(activities, TimestampOf), SameKey)[i][0])
  {
    CombineAllAt(RunsOf(SortBy(activities, TimestampOf), SameKey), i);
  }

  lemma {:induction false} StartsTogetherClash(activities: seq<Entry>, p: nat, q: nat)
    requires p < q < |SortBy(activities, TimestampOf)|
    requires var s := SortBy(activities, TimestampOf);
      RunStart(s, p) && RunStart(s, q) && s[p].timestamp == s[q].timestamp
    ensures !DistinctBy(Chronological(activities), TimestampOf)
  {
    var s, c := SortBy(activities, TimestampOf), Chronological(activities);
    var i, j := |RunsOf(s[..p], SameKey)|, |RunsOf(s[..q], SameKey)|;
    StartIsHead(s, p);
    StartIsHead(s, q);
    RunsGrow(s, p, q);
    ChronologicalTimestamp(activities, i);
    ChronologicalTimestamp(activities, j);
  }

  lemma {:induction false} ClashStartsTogether(activities: seq<Entry>, i: nat, j: nat)
    requires i < j < |Chronological(activities)|
    requires TimestampOf(Chronological(activities)[i]) == TimestampOf(Chronological(activities)[j])
    ensures StartsTogether(SortBy(activities, TimestampOf))
  {
    var s := SortBy(activities, TimestampOf);
    var p := HeadIsStart(s, i);
    var q := HeadIsStart(s, j);
    ChronologicalTimestamp(activities, i);
    ChronologicalTimestamp(activities, j);
    if q < p {
      RunsGrow(s, q, p);
    }
  }

  /** The merged entries start at distinct moments exactly when the runs of the sorted list do. */
  lemma {:induction false} DistinctStarts(activities: seq<Entry>)
    ensures DistinctBy(Chronological(activities), TimestampOf) <==> !StartsTogether(SortBy(activities, TimestampOf))
  {
    var s, c := SortBy(activities, TimestampOf), Chronological(activities);
    if StartsTogether(s) {
      var p, q :| 0 <= p < q < |s| && RunStart(s, p) && RunStart(s, q) && s[p].timestamp == s[q].timestamp;
      StartsTogetherClash(activities, p, q);
    }
    if !DistinctBy(c, TimestampOf) {
      var i, j :| 0 <= i < j < |c| && TimestampOf(c[i]) == TimestampOf(c[j]);
      ClashStartsTogether(activities, i, j);
    }
  }

  /** On rows with distinct ids the function is idempotent exactly when, in the sorted list, no two
      runs start at the same timestamp. */
  lemma {:induction false} IdempotentIffDistinctStarts(activities: seq<Entry>)
    requires DistinctBy(activities, IdOf)
    ensures Merged(Merged(activities)) == Merged(activities) <==> !StartsTogether(SortBy(activities, TimestampOf))
  {
    var c := Chronological(activities);
    DistinctStarts(activities);
    if DistinctBy(c, TimestampOf) {
      IdempotentForDistinctStarts(activities);
    } else {
      ChronologicalDistinct(activities, IdOf);
      var i, j :| 0 <= i < j < |c| && TimestampOf(c[i]) == TimestampOf(c[j]);
      TieReordered(c, i, j);
      if Merged(Merged(activities)) == Merged(activities) {
        MergedAgainSorted(activities);
      }
    }
  }

  lemma {:induction false} IdempotentForDistinctStarts(activities: seq<Entry>)
    requires DistinctBy(Chronological(activities), TimestampOf)
    ensures Merged(Merged(activities)) == Merged(activities)
  {
    var c := Chronological(activities);
    NewestFirst(activities);
    ReverseSameElements(c);
    forall i, j | 0 <= i < j < |c| ensures TimestampOf(c[i]) < TimestampOf(c[j]) {
      assert TimestampOf(c[i]) <= TimestampOf(c[j]) && TimestampOf(c[i]) != TimestampOf(c[j]);
    }
    SortedUnique(c, SortBy(Merged(activities), TimestampOf), TimestampOf);
    MergedAgainSame(activities);
  }

  /** In particular, distinct timestamps suffice. */
  lemma {:induction false} IdempotentForDistinctTimestamps(activities: seq<Entry>)
    requires DistinctBy(activities, TimestampOf)
    ensures Merged(Merged(activities)) == Merged(activities)
  {
    ChronologicalDistinct(activities, TimestampOf);
    IdempotentForDistinctStarts(activities);
  }

  /** Two entries of one timestamp and different keys change places with every merge. */
  lemma {:induction false} TieIsNotIdempotent()
    ensures var a, b := Entry(1, 0, "editor", "a", 10), Entry(2, 0, "browser", "b", 10);
      Merged(Merged([a, b])) != Merged([a, b])
  {
    var a, b := Entry(1, 0, "editor", "a", 10), Entry(2, 0, "browser", "b", 10);
    SortBySorted([a, b], TimestampOf);
    assert RunStart([a, b], 0) && RunStart([a, b], 1);
    assert StartsTogether([a, b]);
    IdempotentIffDistinctStarts([a, b]);
  }
}
