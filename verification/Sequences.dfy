/** Stable sorting, sums and permutations: the library calls the source relies on. */
module Sequences {

  ghost predicate SortedBy<T>(s: seq<T>, key: T -> int) {
    forall i, j :: 0 <= i < j < |s| ==> key(s[i]) <= key(s[j])
  }

  function InsertBy<T>(x: T, s: seq<T>, key: T -> int): (r: seq<T>)
    ensures multiset(r) == multiset{x} + multiset(s)
  {
    if |s| == 0 || key(x) <= key(s[0]) then
      [x] + s
    else
      assert s == [s[0]] + s[1..];
      [s[0]] + InsertBy(x, s[1..], key)
  }

  lemma {:induction false} InsertBySorted<T>(x: T, s: seq<T>, key: T -> int)
    requires SortedBy(s, key)
    ensures SortedBy(InsertBy(x, s, key), key)
  {
    if |s| > 0 && key(x) > key(s[0]) {
      var rest := InsertBy(x, s[1..], key);
      InsertBySorted(x, s[1..], key);
      forall i | 0 <= i < |rest| ensures key(s[0]) <= key(rest[i]) {
        assert rest[i] in multiset{x} + multiset(s[1..]);
        assert rest[i] == x || rest[i] in s[1..];
      }
    }
  }

  /** `Array.prototype.sort` and LINQ `OrderBy`: a stable ascending sort by key. */
  function SortBy<T>(s: seq<T>, key: T -> int): (r: seq<T>)
    ensures SortedBy(r, key)
    ensures multiset(r) == multiset(s)
  {
    if |s| == 0 then []
    else
      assert s == [s[0]] + s[1..];
      InsertBySorted(s[0], SortBy(s[1..], key), key);
      InsertBy(s[0], SortBy(s[1..], key), key)
  }

  lemma {:induction false} SameLength<T>(a: seq<T>, b: seq<T>)
    requires multiset(a) == multiset(b)
    ensures |a| == |b|
  {
    assert |multiset(a)| == |a|;
    assert |multiset(b)| == |b|;
  }

  /** Sorting a list that is already in order changes nothing. */
  lemma {:induction false} SortBySorted<T>(s: seq<T>, key: T -> int)
    requires SortedBy(s, key)
    ensures SortBy(s, key) == s
  {
    if |s| > 0 {
      SortBySorted(s[1..], key);
      assert s == [s[0]] + s[1..];
    }
  }

  ghost predicate StrictlySortedBy<T>(s: seq<T>, key: T -> int) {
    forall i, j :: 0 <= i < j < |s| ==> key(s[i]) < key(s[j])
  }

  lemma {:induction false} SameHead<T>(c: seq<T>, d: seq<T>, key: T -> int)
    requires StrictlySortedBy(c, key) && SortedBy(d, key) && multiset(c) == multiset(d) && |c| > 0 && |d| > 0
    ensures c[0] == d[0]
  {
    assert d[0] in multiset(c) && c[0] in multiset(d);
    var m :| 0 <= m < |c| && c[m] == d[0];
    var k :| 0 <= k < |d| && d[k] == c[0];
    assert forall j :: 0 < j < |d| ==> key(d[0]) <= key(d[j]);
    assert forall j :: 0 < j < |c| ==> key(c[0]) < key(c[j]);
  }

  lemma {:induction false} SameTail<T>(c: seq<T>, d: seq<T>)
    requires multiset(c) == multiset(d) && |c| > 0 && |d| > 0 && c[0] == d[0]
    ensures multiset(c[1..]) == multiset(d[1..])
  {
    assert c == [c[0]] + c[1..] && d == [d[0]] + d[1..];
    assert multiset(c[1..]) == multiset(c) - multiset{c[0]};
    assert multiset(d[1..]) == multiset(d) - multiset{d[0]};
  }

  /** With distinct keys there is only one way to sort. */
  lemma {:induction false} SortedUnique<T>(c: seq<T>, d: seq<T>, key: T -> int)
    requires StrictlySortedBy(c, key) && SortedBy(d, key) && multiset(c) == multiset(d)
    ensures c == d
  {
    SameLength(c, d);
    if |c| > 0 {
      SameHead(c, d, key);
      SameTail(c, d);
      SortedUnique(c[1..], d[1..], key);
      assert c == [c[0]] + c[1..] && d == [d[0]] + d[1..];
    }
  }

  ghost predicate Before<T>(s: seq<T>, x: T, y: T) {
    exists p, q :: 0 <= p < q < |s| && s[p] == x && s[q] == y
  }

  lemma {:induction false} BeforeCons<T>(x: T, s: seq<T>, y: T)
    requires y in s
    ensures Before([x] + s, x, y)
  {
    var q :| 0 <= q < |s| && s[q] == y;
    assert ([x] + s)[0] == x && ([x] + s)[q + 1] == y;
  }

  lemma {:induction false} BeforeLater<T>(z: T, s: seq<T>, x: T, y: T)
    requires Before(s, x, y)
    ensures Before([z] + s, x, y)
  {
    var p, q :| 0 <= p < q < |s| && s[p] == x && s[q] == y;
    assert ([z] + s)[p + 1] == x && ([z] + s)[q + 1] == y;
  }

  lemma {:induction false} InsertKeepsOrder<T>(z: T, s: seq<T>, key: T -> int, x: T, y: T)
    requires SortedBy(s, key) && Before(s, x, y)
    ensures Before(InsertBy(z, s, key), x, y)
  {
    if key(z) <= key(s[0]) {
      BeforeLater(z, s, x, y);
    } else {
      var p, q :| 0 <= p < q < |s| && s[p] == x && s[q] == y;
      if p == 0 {
        assert s[1..][q - 1] == y;
        assert y in multiset(s[1..]) && y in multiset(InsertBy(z, s[1..], key));
        BeforeCons(s[0], InsertBy(z, s[1..], key), y);
      } else {
        assert s[1..][p - 1] == x && s[1..][q - 1] == y;
        InsertKeepsOrder(z, s[1..], key, x, y);
        BeforeLater(s[0], InsertBy(z, s[1..], key), x, y);
      }
    }
  }

  lemma {:induction false} InsertGoesFirst<T>(z: T, s: seq<T>, key: T -> int, y: T)
    requires SortedBy(s, key) && y in s && key(z) <= key(y)
    ensures Before(InsertBy(z, s, key), z, y)
  {
    if key(z) <= key(s[0]) {
      BeforeCons(z, s, y);
    } else {
      InsertGoesFirst(z, s[1..], key, y);
      BeforeLater(s[0], InsertBy(z, s[1..], key), z, y);
    }
  }

  /** Equal keys keep their order. */
  lemma {:induction false} SortByStable<T>(s: seq<T>, key: T -> int, x: T, y: T)
    requires Before(s, x, y) && key(x) == key(y)
    ensures Before(SortBy(s, key), x, y)
  {
    var p, q :| 0 <= p < q < |s| && s[p] == x && s[q] == y;
    if p == 0 {
      assert s[1..][q - 1] == y;
      assert y in multiset(s[1..]) && y in multiset(SortBy(s[1..], key));
      InsertGoesFirst(s[0], SortBy(s[1..], key), key, y);
    } else {
      assert s[1..][p - 1] == x && s[1..][q - 1] == y;
      SortByStable(s[1..], key, x, y);
      InsertKeepsOrder(s[0], SortBy(s[1..], key), key, x, y);
    }
  }

  ghost predicate DistinctBy<T>(s: seq<T>, key: T -> int) {
    forall i, j :: 0 <= i < j < |s| ==> key(s[i]) != key(s[j])
  }

  lemma {:induction false} OccursOnce<T>(s: seq<T>, key: T -> int, x: T)
    requires DistinctBy(s, key)
    ensures multiset(s)[x] <= 1
  {
    if |s| > 0 {
      var init, last := s[..|s| - 1], s[|s| - 1];
      OccursOnce(init, key, x);
      assert s == init + [last];
      assert forall i :: 0 <= i < |init| ==> init[i] == s[i] && key(s[i]) != key(s[|s| - 1]);
    }
  }

  lemma {:induction false} DistinctByPermutation<T>(a: seq<T>, b: seq<T>, key: T -> int)
    requires DistinctBy(a, key) && multiset(a) == multiset(b)
    ensures DistinctBy(b, key)
  {
    forall i, j | 0 <= i < j < |b| ensures key(b[i]) != key(b[j]) {
      assert b[i] in multiset(a) && b[j] in multiset(a);
      OccursOnce(a, key, b[j]);
      assert b == b[..j] + [b[j]] + b[j + 1..] && b[i] in b[..j];
      assert multiset(b)[b[j]] == multiset(b[..j])[b[j]] + 1 + multiset(b[j + 1..])[b[j]];
    }
  }

  function SumBy<T>(s: seq<T>, f: T -> int): int {
    if |s| == 0 then 0 else SumBy(s[..|s| - 1], f) + f(s[|s| - 1])
  }

  lemma {:induction false} SumByAppend<T>(a: seq<T>, b: seq<T>, f: T -> int)
    ensures SumBy(a + b, f) == SumBy(a, f) + SumBy(b, f)
  {
    if |b| == 0 {
      assert a + b == a;
    } else {
      assert (a + b)[..|a + b| - 1] == a + b[..|b| - 1];
      SumByAppend(a, b[..|b| - 1], f);
    }
  }

  /** A sum does not depend on the order of its terms. */
  lemma {:induction false} SumByPermutation<T>(a: seq<T>, b: seq<T>, f: T -> int)
    requires multiset(a) == multiset(b)
    ensures SumBy(a, f) == SumBy(b, f)
    decreases |a|
  {
    SameLength(a, b);
    if |a| > 0 {
      var x := a[|a| - 1];
      assert a == a[..|a| - 1] + [x];
      assert x in multiset(b);
      var i :| 0 <= i < |b| && b[i] == x;
      var rest := b[..i] + b[i + 1..];
      assert b == b[..i] + [x] + b[i + 1..];
      assert multiset(rest) == multiset(b) - multiset{x} == multiset(a[..|a| - 1]);
      SumByPermutation(a[..|a| - 1], rest, f);
      SumByAppend(b[..i], [x], f);
      SumByAppend(b[..i] + [x], b[i + 1..], f);
      SumByAppend(b[..i], b[i + 1..], f);
      assert [x][..0] == [];
      assert SumBy([x], f) == SumBy([x][..0], f) + f(x) == f(x);
    }
  }

  // ---- Sums over the indices below n --------------------------------------------------------

  ghost function SumTo(f: int -> int, n: nat): int {
    if n == 0 then 0 else SumTo(f, n - 1) + f(n - 1)
  }

  lemma {:induction false} SumToAdds(f: int -> int, g: int -> int, k: int -> int, n: nat)
    requires forall h :: 0 <= h < n ==> f(h) == g(h) + k(h)
    ensures SumTo(f, n) == SumTo(g, n) + SumTo(k, n)
  {
    if n > 0 {
      SumToAdds(f, g, k, n - 1);
    }
  }

  lemma {:induction false} SumToZero(f: int -> int, n: nat)
    requires forall h :: 0 <= h < n ==> f(h) == 0
    ensures SumTo(f, n) == 0
  {
    if n > 0 {
      SumToZero(f, n - 1);
    }
  }

  lemma {:induction false} SumToSingle(f: int -> int, at: nat, n: nat)
    requires forall h :: 0 <= h < n && h != at ==> f(h) == 0
    ensures SumTo(f, n) == if at < n then f(at) else 0
  {
    if n > 0 {
      SumToSingle(f, at, n - 1);
    }
  }

  /** Pointwise larger terms have equal sums only when they are equal term by term. */
  lemma {:induction false} SumToPointwise(f: int -> int, g: int -> int, n: nat)
    requires forall h :: 0 <= h < n ==> f(h) >= g(h)
    ensures SumTo(f, n) >= SumTo(g, n)
    ensures SumTo(f, n) == SumTo(g, n) <==> forall h :: 0 <= h < n ==> f(h) == g(h)
  {
    if n > 0 {
      SumToPointwise(f, g, n - 1);
    }
  }
}
