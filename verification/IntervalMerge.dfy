/** The sort-then-merge loop of one hour of the timeline. */
module IntervalMerge {
  import opened Sequences
  import opened Measure

  function StartOf(iv: Interval): int { iv.start }

  /** `intervals.sort((a, b) => a.start - b.start)`. */
  method SortByStart(unsorted: seq<Interval>) returns (s: seq<Interval>)
    requires NonEmpty(unsorted)
    ensures |s| == |unsorted| && NonEmpty(s) && Covered(s) == Covered(unsorted)
    ensures forall i :: 0 < i < |s| ==> s[i - 1].start <= s[i].start
  {
    s := SortBy(unsorted, StartOf);
    SortedIntervals(unsorted, s);
  }

  lemma {:induction false} SortedIntervals(unsorted: seq<Interval>, s: seq<Interval>)
    requires NonEmpty(unsorted) && multiset(s) == multiset(unsorted) && SortedBy(s, StartOf)
    ensures |s| == |unsorted| && NonEmpty(s) && Covered(s) == Covered(unsorted)
    ensures forall i :: 0 < i < |s| ==> s[i - 1].start <= s[i].start
  {
    SameLength(s, unsorted);
    CoveredPermutation(s, unsorted);
    forall i | 0 <= i < |s| ensures s[i].start < s[i].end {
      assert s[i] in multiset(unsorted);
    }
    forall i | 0 < i < |s| ensures s[i - 1].start <= s[i].start {
      assert StartOf(s[i - 1]) <= StartOf(s[i]);
    }
  }

  /** Sort by start and merge: exactly the number of covered milliseconds. */
  method MergedDuration(unsorted: seq<Interval>) returns (mergedDuration: int)
    requires NonEmpty(unsorted) && |unsorted| > 0
    ensures mergedDuration == |Covered(unsorted)|
  {
    var intervals := SortByStart(unsorted);
    mergedDuration := 0;
    var currentStart, currentEnd := intervals[0].start, intervals[0].end;
    FirstMerge(intervals[0]);
    assert intervals[..1] == [intervals[0]];
    for k := 1 to |intervals|
      invariant currentStart <= intervals[k - 1].start && currentStart < currentEnd
      invariant MergedSoFar(intervals[..k], mergedDuration, currentStart, currentEnd)
    {
      var next := intervals[k];
      assert intervals[..k + 1] == intervals[..k] + [next];
      if next.start < currentEnd {
        ExtendMerge(intervals[..k], next, mergedDuration, currentStart, currentEnd);
        currentEnd := if next.end > currentEnd then next.end else currentEnd;
      } else {
        StartMerge(intervals[..k], next, mergedDuration, currentStart, currentEnd);
        mergedDuration := mergedDuration + (currentEnd - currentStart);
        currentStart := next.start;
        currentEnd := next.end;
      }
    }
    assert intervals[..|intervals|] == intervals;
    mergedDuration := mergedDuration + (currentEnd - currentStart);
  }

  /** The open segment holds all that is covered from its start on; the rest is counted. */
  ghost predicate MergedSoFar(prefix: seq<Interval>, merged: int, currentStart: int, currentEnd: int) {
    && (forall t :: currentStart <= t ==> (Covers(prefix, t) <==> t < currentEnd))
    && merged + (currentEnd - currentStart) == |Covered(prefix)|
  }

  lemma {:induction false} FirstMerge(first: Interval)
    requires first.start < first.end
    ensures MergedSoFar([first], 0, first.start, first.end)
  {
    forall t ensures Covers([first], t) <==> Contains(first, t) {
      assert [first][0] == first;
    }
    SplitSize(Covered([first]), Range(first.start, first.end), {});
  }

  lemma {:induction false} ExtendMerge(prefix: seq<Interval>, next: Interval, merged: int, cs: int, ce: int)
    requires MergedSoFar(prefix, merged, cs, ce) && cs <= next.start < ce && next.start < next.end
    ensures MergedSoFar(prefix + [next], merged, cs, if next.end > ce then next.end else ce)
  {
    forall t ensures Covers(prefix + [next], t) <==> Covers(prefix, t) || Contains(next, t) {
      CoversSnoc(prefix, next, t);
    }
    SplitSize(Covered(prefix + [next]), Covered(prefix), Range(ce, next.end));
  }

  lemma {:induction false} StartMerge(prefix: seq<Interval>, next: Interval, merged: int, cs: int, ce: int)
    requires MergedSoFar(prefix, merged, cs, ce) && cs < ce <= next.start < next.end
    ensures MergedSoFar(prefix + [next], merged + (ce - cs), next.start, next.end)
  {
    forall t ensures Covers(prefix + [next], t) <==> Covers(prefix, t) || Contains(next, t) {
      CoversSnoc(prefix, next, t);
    }
    SplitSize(Covered(prefix + [next]), Covered(prefix), Range(next.start, next.end));
  }
}
