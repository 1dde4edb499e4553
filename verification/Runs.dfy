/** Maximal runs of linked neighbours: the batch view of every incremental grouping below. */
module Runs {

  function Flatten<T>(runs: seq<seq<T>>): seq<T> {
    if |runs| == 0 then [] else Flatten(runs[..|runs| - 1]) + runs[|runs| - 1]
  }

  ghost predicate IsRun<T>(run: seq<T>, linked: (T, T) -> bool) {
    |run| > 0 && forall i :: 0 <= i < |run| - 1 ==> linked(run[i], run[i + 1])
  }

  ghost predicate Cut<T>(a: seq<T>, b: seq<T>, linked: (T, T) -> bool)
    requires |a| > 0 && |b| > 0
  {
    !linked(a[|a| - 1], b[0])
  }

  /** The runs spell the sequence, are linked inside and nowhere linked across a cut. */
  ghost predicate Maximal<T>(s: seq<T>, linked: (T, T) -> bool, runs: seq<seq<T>>) {
    && Flatten(runs) == s
    && (forall i :: 0 <= i < |runs| ==> IsRun(runs[i], linked))
    && (forall i :: 0 <= i < |runs| - 1 ==> Cut(runs[i], runs[i + 1], linked))
  }

  function Extend<T>(runs: seq<seq<T>>, x: T): seq<seq<T>>
    requires |runs| > 0
  {
    runs[..|runs| - 1] + [runs[|runs| - 1] + [x]]
  }

  /** Cuts a sequence wherever two neighbours are not linked. */
  function RunsOf<T>(s: seq<T>, linked: (T, T) -> bool): (r: seq<seq<T>>)
    ensures |r| == 0 <==> |s| == 0
    ensures forall i :: 0 <= i < |r| ==> |r[i]| > 0
  {
    if |s| == 0 then []
    else
      var n := |s| - 1;
      var init := RunsOf(s[..n], linked);
      if n > 0 && linked(s[n - 1], s[n]) then Extend(init, s[n]) else init + [[s[n]]]
  }

  lemma {:induction false} RunsExtend<T>(s: seq<T>, x: T, linked: (T, T) -> bool)
    requires |s| > 0 && linked(s[|s| - 1], x)
    ensures RunsOf(s + [x], linked) == Extend(RunsOf(s, linked), x)
  {
    assert (s + [x])[..|s|] == s;
  }

  lemma {:induction false} RunsStart<T>(s: seq<T>, x: T, linked: (T, T) -> bool)
    requires |s| > 0 ==> !linked(s[|s| - 1], x)
    ensures RunsOf(s + [x], linked) == RunsOf(s, linked) + [[x]]
  {
    assert (s + [x])[..|s|] == s;
  }

  lemma {:induction false} MaximalExtend<T>(s: seq<T>, x: T, linked: (T, T) -> bool, runs: seq<seq<T>>)
    requires |s| > 0 && |runs| > 0 && linked(s[|s| - 1], x)
    ensures Maximal(s + [x], linked, Extend(runs, x)) <== Maximal(s, linked, runs)
  {
    if Maximal(s, linked, runs) {
      var e, k := Extend(runs, x), |runs| - 1;
      assert e[..k] == runs[..k] && e[k] == runs[k] + [x];
      assert IsRun(runs[k], linked) && runs[k][|runs[k]| - 1] == s[|s| - 1];
      assert IsRun(e[k], linked);
      forall i | 0 <= i < |e| - 1 ensures Cut(e[i], e[i + 1], linked) {
        assert Cut(runs[i], runs[i + 1], linked);
      }
    }
  }

  lemma {:induction false} MaximalStart<T>(s: seq<T>, x: T, linked: (T, T) -> bool, runs: seq<seq<T>>)
    requires |s| > 0 ==> !linked(s[|s| - 1], x)
    requires Maximal(s, linked, runs)
    ensures Maximal(s + [x], linked, runs + [[x]])
  {
    var e := runs + [[x]];
    assert e[..|runs|] == runs;
    if |runs| > 0 {
      var last := runs[|runs| - 1];
      assert IsRun(last, linked) && last[|last| - 1] == s[|s| - 1];
    }
    forall i | 0 <= i < |e| - 1 ensures Cut(e[i], e[i + 1], linked) {
      assert i < |runs| - 1 ==> Cut(runs[i], runs[i + 1], linked);
    }
  }

  lemma {:induction false} RunsAreMaximal<T>(s: seq<T>, linked: (T, T) -> bool)
    ensures Maximal(s, linked, RunsOf(s, linked))
  {
    if |s| > 0 {
      var n := |s| - 1;
      RunsAreMaximal(s[..n], linked);
      assert s == s[..n] + [s[n]];
      if n > 0 && linked(s[n - 1], s[n]) {
        MaximalExtend(s[..n], s[n], linked, RunsOf(s[..n], linked));
      } else {
        MaximalStart(s[..n], s[n], linked, RunsOf(s[..n], linked));
      }
    }
  }

  /** Without its last element, which was linked to the one before. */
  lemma {:induction false} MaximalShorten<T>(s: seq<T>, linked: (T, T) -> bool, runs: seq<seq<T>>, shorter: seq<seq<T>>)
    requires Maximal(s, linked, runs) && |runs| > 0
    requires var last := runs[|runs| - 1]; |last| > 1 && shorter == runs[..|runs| - 1] + [last[..|last| - 1]]
    ensures |s| > 1 && linked(s[|s| - 2], s[|s| - 1])
    ensures Maximal(s[..|s| - 1], linked, shorter) && runs == Extend(shorter, s[|s| - 1])
  {
    var k := |runs| - 1;
    var last := runs[k];
    assert shorter[..k] == runs[..k] && IsRun(last, linked);
    assert s == Flatten(runs[..k]) + last;
    assert linked(last[|last| - 2], last[|last| - 2 + 1]);
    assert last == last[..|last| - 1] + [last[|last| - 1]] && runs == runs[..k] + [last];
    forall i | 0 <= i < |shorter| - 1 ensures Cut(shorter[i], shorter[i + 1], linked) {
      assert Cut(runs[i], runs[i + 1], linked);
    }
  }

  /** Without its last element, which was a run of its own. */
  lemma {:induction false} MaximalDrop<T>(s: seq<T>, linked: (T, T) -> bool, runs: seq<seq<T>>)
    requires Maximal(s, linked, runs) && |runs| > 0 && |runs[|runs| - 1]| == 1
    ensures |s| > 0 && Maximal(s[..|s| - 1], linked, runs[..|runs| - 1])
    ensures runs == runs[..|runs| - 1] + [[s[|s| - 1]]]
    ensures |s| > 1 ==> !linked(s[|s| - 2], s[|s| - 1])
  {
    var k := |runs| - 1;
    assert s == Flatten(runs[..k]) + runs[k] && runs[k] == [s[|s| - 1]];
    assert s[..|s| - 1] == Flatten(runs[..k]);
    if k > 0 {
      assert Cut(runs[k - 1], runs[k], linked) && IsRun(runs[k - 1], linked);
      assert Flatten(runs[..k]) == Flatten(runs[..k][..k - 1]) + runs[k - 1];
    }
  }

  /** There is only one way to cut a sequence into maximal runs. */
  lemma {:induction false} MaximalRunsUnique<T>(s: seq<T>, linked: (T, T) -> bool, runs: seq<seq<T>>)
    requires Maximal(s, linked, runs)
    ensures runs == RunsOf(s, linked)
    decreases |s|
  {
    if |runs| > 0 {
      var k := |runs| - 1;
      assert IsRun(runs[k], linked);
      if |runs[k]| == 1 {
        MaximalDrop(s, linked, runs);
        MaximalRunsUnique(s[..|s| - 1], linked, runs[..k]);
      } else {
        var shorter := runs[..k] + [runs[k][..|runs[k]| - 1]];
        MaximalShorten(s, linked, runs, shorter);
        MaximalRunsUnique(s[..|s| - 1], linked, shorter);
      }
    }
  }

  /** As many runs as elements means no two neighbours are linked, and conversely. */
  lemma {:induction false} AllRunsSingle<T>(s: seq<T>, linked: (T, T) -> bool)
    ensures |RunsOf(s, linked)| <= |s|
    ensures |RunsOf(s, linked)| == |s| <==> forall i :: 0 < i < |s| ==> !linked(s[i - 1], s[i])
    ensures |RunsOf(s, linked)| == |s| ==> forall i :: 0 <= i < |s| ==> RunsOf(s, linked)[i] == [s[i]]
  {
    if |s| > 0 {
      AllRunsSingle(s[..|s| - 1], linked);
    }
  }
}
