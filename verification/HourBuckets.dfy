/** Splitting sessions at clock hours, and the hour-by-hour measure of their union. */
module HourBuckets {
  import opened Sequences
  import opened Measure
  import opened LocalClock

  /** What the splitting loop pushes for the rest of a session, one interval per clock hour. */
  function Pieces(current: int, end: int, offset: int): seq<Interval>
    decreases end - current
  {
    if current >= end then []
    else
      var hourEnd := HourStart(current, offset) + HOUR;
      var segmentEnd := if end < hourEnd then end else hourEnd;
      [Interval(current, segmentEnd)] + Pieces(segmentEnd, end, offset)
  }

  lemma {:induction false} FirstPiece(start: int, end: int, offset: int)
    requires start < end
    ensures var p := Pieces(start, end, offset);
            && |p| > 0 && p[0].start == start < p[0].end <= end
            && p == [p[0]] + Pieces(p[0].end, end, offset)
            && forall t :: Contains(p[0], t) ==> HourStart(t, offset) == HourStart(start, offset)
  {
    forall t | start <= t < HourStart(start, offset) + HOUR ensures HourStart(t, offset) == HourStart(start, offset) {
      assert (t + offset) / HOUR == (start + offset) / HOUR;
    }
  }

  /** The pieces of one session tile it, in order, each inside a single clock hour. */
  lemma {:induction false} PiecesPartition(start: int, end: int, offset: int)
    requires start < end
    ensures var p := Pieces(start, end, offset);
            && |p| > 0 && p[0].start == start && p[|p| - 1].end == end
            && (forall i :: 0 < i < |p| ==> p[i].start == p[i - 1].end)
            && (forall i, t :: 0 <= i < |p| && Contains(p[i], t) ==>
                  HourStart(t, offset) == HourStart(p[i].start, offset))
            && (forall i :: 0 <= i < |p| ==> p[i].start < p[i].end)
    decreases end - start
  {
    FirstPiece(start, end, offset);
    var p := Pieces(start, end, offset);
    var rest := Pieces(p[0].end, end, offset);
    if p[0].end < end {
      PiecesPartition(p[0].end, end, offset);
      assert forall i :: 0 < i < |p| ==> p[i] == rest[i - 1];
    }
  }

  function InHour(pieces: seq<Interval>, h: int, offset: int): seq<Interval> {
    if |pieces| == 0 then []
    else (if HourOf(pieces[0].start, offset) == h then [pieces[0]] else []) + InHour(pieces[1..], h, offset)
  }

  /** What one session contributes to the bucket of hour `h`. */
  function Contribution(iv: Interval, h: int, offset: int): seq<Interval> {
    InHour(Pieces(iv.start, iv.end, offset), h, offset)
  }

  /** The bucket of hour `h` after all the sessions. */
  function Bucket(spans: seq<Interval>, h: int, offset: int): seq<Interval> {
    if |spans| == 0 then []
    else Bucket(spans[..|spans| - 1], h, offset) + Contribution(spans[|spans| - 1], h, offset)
  }

  lemma {:induction false} ContributionCovers(iv: Interval, h: int, offset: int, t: int)
    ensures Covers(Contribution(iv, h, offset), t) <==> Contains(iv, t) && HourOf(t, offset) == h
    decreases iv.end - iv.start
  {
    var p := Pieces(iv.start, iv.end, offset);
    if iv.start < iv.end {
      var rest := Interval(p[0].end, iv.end);
      ContributionCovers(rest, h, offset, t);
      assert p[1..] == Pieces(rest.start, rest.end, offset);
      var first := if HourOf(iv.start, offset) == h then [p[0]] else [];
      assert Contribution(iv, h, offset) == first + Contribution(rest, h, offset);
      CoversAppend(first, Contribution(rest, h, offset), t);
      assert Covers(first, t) <==> first == [p[0]] && Contains(p[0], t) by {
        assert first == [p[0]] && Contains(p[0], t) ==> Contains(first[0], t);
      }
      if Contains(p[0], t) {
        SameHour(iv.start, t, offset);
      }
    }
  }

  /** A bucket holds exactly the active instants of its hour of the day. */
  lemma {:induction false} BucketCovers(spans: seq<Interval>, h: int, offset: int, t: int)
    ensures Covers(Bucket(spans, h, offset), t) <==> Covers(spans, t) && HourOf(t, offset) == h
  {
    if |spans| > 0 {
      var init, last := spans[..|spans| - 1], spans[|spans| - 1];
      BucketCovers(init, h, offset, t);
      ContributionCovers(last, h, offset, t);
      CoversAppend(Bucket(init, h, offset), Contribution(last, h, offset), t);
      CoversSnoc(init, last, t);
      assert spans == init + [last];
    }
  }

  /** The instants of a set that fall in hour `h` of the day. */
  ghost function InHourOf(c: set<int>, h: int, offset: int): set<int> {
    set t | t in c && HourOf(t, offset) == h
  }

  ghost function BeforeHour(c: set<int>, n: nat, offset: int): set<int> {
    set t | t in c && HourOf(t, offset) < n
  }

  lemma {:induction false} BucketIsHourOfUnion(spans: seq<Interval>, h: int, offset: int)
    ensures Covered(Bucket(spans, h, offset)) == InHourOf(Covered(spans), h, offset)
  {
    forall t ensures t in Covered(Bucket(spans, h, offset)) <==> t in InHourOf(Covered(spans), h, offset) {
      BucketCovers(spans, h, offset, t);
    }
  }

  /** Milliseconds of hour `h` in which at least one session is active. */
  ghost function ActiveMs(spans: seq<Interval>, h: int, offset: int): nat {
    |InHourOf(Covered(spans), h, offset)|
  }

  /** Clocks that differ by whole hours count the same instants, each under its own hour. */
  lemma {:induction false} ActiveInZone(spans: seq<Interval>, h: int, offset: int, zone: int)
    requires 0 <= h < 24
    ensures ActiveMs(spans, HourInZone(h, zone), offset + zone * HOUR) == ActiveMs(spans, h, offset)
  {
    var here := InHourOf(Covered(spans), h, offset);
    var there := InHourOf(Covered(spans), HourInZone(h, zone), offset + zone * HOUR);
    forall t ensures t in here <==> t in there {
      HourOfInZone(t, offset, zone);
    }
    assert here == there;
  }

  ghost function ActiveAt(spans: seq<Interval>, offset: int): int -> int {
    h => ActiveMs(spans, h, offset)
  }

  lemma {:induction false} HourSplit(c: set<int>, n: nat, offset: int)
    ensures |BeforeHour(c, n + 1, offset)| == |BeforeHour(c, n, offset)| + |InHourOf(c, n, offset)|
    ensures |BeforeHour(c, 0, offset)| == 0
  {
    SplitSize(BeforeHour(c, n + 1, offset), BeforeHour(c, n, offset), InHourOf(c, n, offset));
  }

  lemma {:induction false} HoursBefore(spans: seq<Interval>, n: nat, offset: int)
    ensures SumTo(ActiveAt(spans, offset), n) == |BeforeHour(Covered(spans), n, offset)|
    decreases n
  {
    HourSplit(Covered(spans), if n == 0 then 0 else n - 1, offset);
    if n > 0 {
      HoursBefore(spans, n - 1, offset);
    }
  }

  /** Conservation: the 24 hours together hold the measure of the union of all sessions. */
  lemma {:induction false} HoursAddUp(spans: seq<Interval>, offset: int)
    ensures SumTo(ActiveAt(spans, offset), 24) == |Covered(spans)|
  {
    HoursBefore(spans, 24, offset);
    assert BeforeHour(Covered(spans), 24, offset) == Covered(spans);
  }

  /** No hour exceeds 60 minutes when all activity lies in one 24 hour window, although the
      oldest and the newest partial hours may share a bucket. */
  lemma {:induction false} HourAtMostSixtyMinutes(spans: seq<Interval>, h: int, offset: int, w: int)
    requires forall t :: t in Covered(spans) ==> w <= t < w + DAY
    requires 0 <= h < 24
    ensures ActiveMs(spans, h, offset) <= HOUR
  {
    var a := HourStart(w, offset) + (h - HourOf(w, offset)) % 24 * HOUR;  // first hour h ending after w
    var early, late := Range(if w < a then a else w, a + HOUR), Range(a + DAY, w + DAY);
    forall t | t in InHourOf(Covered(spans), h, offset) ensures t in early + late {
      SameClockHour(w, t, h, offset);
    }
    UnionSize(early, late);
    SubsetSize(InHourOf(Covered(spans), h, offset), early + late);
  }

  lemma {:induction false} SameClockHour(w: int, t: int, h: int, offset: int)
    requires w <= t < w + DAY
    requires 0 <= h < 24 && HourOf(t, offset) == h
    ensures var a := HourStart(w, offset) + (h - HourOf(w, offset)) % 24 * HOUR;
            a <= t < a + HOUR || a + DAY <= t < a + DAY + HOUR
  {
    var kw, kt := (w + offset) / HOUR, (t + offset) / HOUR;
    var d := (h - kw % 24) % 24;
    assert kw <= kt <= kw + 24;
    assert kt == kw + d || kt == kw + d + 24;
    assert HourStart(w, offset) == kw * HOUR - offset;
  }
}
