/** Sets of milliseconds covered by intervals, and how many there are. */
module Measure {
  import opened Sequences

  /** Half open: `start` is inside, `end` is not. */
  datatype Interval = Interval(start: int, end: int)

  function Length(iv: Interval): int {
    if iv.start < iv.end then iv.end - iv.start else 0
  }

  ghost predicate Contains(iv: Interval, t: int) {
    iv.start <= t < iv.end
  }

  ghost predicate Covers(s: seq<Interval>, t: int) {
    exists i :: 0 <= i < |s| && Contains(s[i], t)
  }

  ghost function Range(a: int, b: int): (r: set<int>)
    ensures forall t :: t in r <==> a <= t < b
    ensures |r| == if a < b then b - a else 0
    decreases b - a
  {
    if a < b then Range(a, b - 1) + {b - 1} else {}
  }

  /** Every instant inside at least one of the intervals. */
  ghost function Covered(s: seq<Interval>): (r: set<int>)
    ensures forall t :: t in r <==> Covers(s, t)
  {
    var r := set i, t | 0 <= i < |s| && t in Range(s[i].start, s[i].end) :: t;
    assert forall i, t :: 0 <= i < |s| ==> (t in Range(s[i].start, s[i].end) <==> Contains(s[i], t));
    r
  }

  lemma {:induction false} CoversAppend(a: seq<Interval>, b: seq<Interval>, t: int)
    ensures Covers(a + b, t) <==> Covers(a, t) || Covers(b, t)
  {
    if Covers(a, t) {
      var i :| 0 <= i < |a| && Contains(a[i], t);
      assert Contains((a + b)[i], t);
    }
    if Covers(b, t) {
      var i :| 0 <= i < |b| && Contains(b[i], t);
      assert Contains((a + b)[|a| + i], t);
    }
  }

  lemma {:induction false} CoversSnoc(a: seq<Interval>, x: Interval, t: int)
    ensures Covers(a + [x], t) <==> Covers(a, t) || Contains(x, t)
  {
    CoversAppend(a, [x], t);
    if Contains(x, t) {
      assert Contains([x][0], t);
    }
  }

  lemma {:induction false} CoveredSnoc(a: seq<Interval>, x: Interval)
    ensures Covered(a + [x]) == Covered(a) + Range(x.start, x.end)
  {
    forall t ensures t in Covered(a + [x]) <==> t in Covered(a) + Range(x.start, x.end) {
      CoversSnoc(a, x, t);
    }
  }

  /** The instants covered do not depend on the order of the intervals. */
  lemma {:induction false} CoveredPermutation(a: seq<Interval>, b: seq<Interval>)
    requires multiset(a) == multiset(b)
    ensures Covered(a) == Covered(b)
  {
    forall t ensures Covers(a, t) <==> Covers(b, t) {
      if Covers(a, t) {
        var i :| 0 <= i < |a| && Contains(a[i], t);
        assert a[i] in multiset(b);
      }
      if Covers(b, t) {
        var i :| 0 <= i < |b| && Contains(b[i], t);
        assert b[i] in multiset(a);
      }
    }
  }

  lemma {:induction false} SubsetSize<T>(a: set<T>, b: set<T>)
    requires a <= b
    ensures |a| <= |b|
  {
    assert b == a + (b - a);
  }

  /** No instant lies in two of the intervals. */
  ghost predicate Disjoint(s: seq<Interval>) {
    forall i, j, t :: 0 <= i < j < |s| && Contains(s[i], t) ==> !Contains(s[j], t)
  }

  lemma {:induction false} MeasureAtMostSum(s: seq<Interval>)
    ensures |Covered(s)| <= SumBy(s, Length)
  {
    if |s| > 0 {
      var init, last := s[..|s| - 1], s[|s| - 1];
      MeasureAtMostSum(init);
      assert s == init + [last];
      CoveredSnoc(init, last);
      assert |Covered(s)| <= |Covered(init)| + |Range(last.start, last.end)|;
    }
  }

  lemma {:induction false} DisjointSnoc(a: seq<Interval>, x: Interval)
    ensures Disjoint(a + [x]) <==> Disjoint(a) && Covered(a) !! Range(x.start, x.end)
  {
    var s := a + [x];
    assert s[|a|] == x && forall i :: 0 <= i < |a| ==> s[i] == a[i];
    if Disjoint(s) {
      forall i, j, t | 0 <= i < j < |a| && Contains(a[i], t) ensures !Contains(a[j], t) {
        assert Contains(s[i], t);
      }
      forall t | t in Covered(a) ensures t !in Range(x.start, x.end) {
        var i :| 0 <= i < |a| && Contains(a[i], t);
        assert Contains(s[i], t) && !Contains(s[|a|], t);
      }
    }
    if Disjoint(a) && Covered(a) !! Range(x.start, x.end) {
      forall i, j, t | 0 <= i < j < |s| && Contains(s[i], t) ensures !Contains(s[j], t) {
        assert Contains(a[i], t) && t in Covered(a);
        assert j == |a| ==> t !in Range(x.start, x.end);
      }
    }
  }

  lemma {:induction false} UnionSize<T>(a: set<T>, b: set<T>)
    ensures |a + b| <= |a| + |b|
    ensures |a + b| == |a| + |b| <==> a !! b
  {
    assert |a + b| == |a| + |b| - |a * b|;
    if x :| x in a && x in b {
      assert x in a * b;
    } else {
      assert a * b == {};
    }
  }

  lemma {:induction false} SplitSize<T>(whole: set<T>, a: set<T>, b: set<T>)
    requires forall x :: x in whole <==> x in a || x in b
    requires a !! b
    ensures |whole| == |a| + |b|
  {
    assert whole == a + b;
    UnionSize(a, b);
  }

  /** Adding up lengths gives the covered time exactly when no instant is counted twice. */
  lemma {:induction false} SumIsMeasureIffDisjoint(s: seq<Interval>)
    ensures SumBy(s, Length) == |Covered(s)| <==> Disjoint(s)
  {
    if |s| > 0 {
      var a, x := s[..|s| - 1], s[|s| - 1];
      assert s == a + [x];
      SumIsMeasureIffDisjoint(a);
      MeasureStep(a, x);
    }
  }

  lemma {:induction false} MeasureStep(a: seq<Interval>, x: Interval)
    requires SumBy(a, Length) == |Covered(a)| <==> Disjoint(a)
    ensures SumBy(a + [x], Length) == |Covered(a + [x])| <==> Disjoint(a + [x])
  {
    MeasureAtMostSum(a);
    DisjointSnoc(a, x);
    CoveredSnoc(a, x);
    UnionSize(Covered(a), Range(x.start, x.end));
    assert (a + [x])[..|a|] == a;
  }

  ghost predicate NonEmpty(intervals: seq<Interval>) {
    forall i :: 0 <= i < |intervals| ==> intervals[i].start < intervals[i].end
  }
}
