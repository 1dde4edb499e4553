/** Cursor pagination of the screenshot list, and exactly which rows it never shows. */
module Screenshots {
  import opened Wrappers

  datatype Screenshot = Screenshot(id: string, captureTime: int)

  /** The route's order: newest first, then by id. `rank` stands for the database's order of ids. */
  ghost predicate InOrder(rows: seq<Screenshot>, rank: string -> int) {
    forall i, j :: 0 <= i < j < |rows| ==>
      rows[i].captureTime > rows[j].captureTime
      || (rows[i].captureTime == rows[j].captureTime && rank(rows[i].id) < rank(rows[j].id))
  }

  /** `id` is the primary key. */
  ghost predicate DistinctIds(rows: seq<Screenshot>) {
    forall i, j :: 0 <= i < j < |rows| ==> rows[i].id != rows[j].id
  }

  function IndexOf(rows: seq<Screenshot>, id: string): (r: Option<nat>)
    ensures r.Some? ==> r.value < |rows| && rows[r.value].id == id
    ensures r.None? ==> forall i :: 0 <= i < |rows| ==> rows[i].id != id
  {
    if |rows| == 0 then None
    else if rows[0].id == id then Some(0)
    else match IndexOf(rows[1..], id) case None => None case Some(i) => Some(i + 1)
  }

  /** `findMany` over the ordered rows: from the cursor row on, or from the start; an unknown cursor
      finds nothing. */
  function FindMany(rows: seq<Screenshot>, cursor: Option<string>, skip: nat, take: nat): seq<Screenshot> {
    var from :=
      if cursor.None? then skip
      else match IndexOf(rows, cursor.value) case None => |rows| case Some(i) => i + skip;
    if from >= |rows| then []
    else if from + take <= |rows| then rows[from..from + take]
    else rows[from..]
  }

  datatype Page = Page(screenshots: seq<Screenshot>, cursor: Option<string>, hasMore: bool)

  /** The route: one row more than asked for; the extra row is popped and becomes the cursor. */
  method GetPage(rows: seq<Screenshot>, take: nat, cursor: string) returns (r: Page)
    ensures r == PageAt(rows, take, if cursor == "" then Some(0) else
                          match IndexOf(rows, cursor) case None => None case Some(i) => Some(i + 1))
    ensures cursor != "" && (forall i :: 0 <= i < |rows| ==> rows[i].id != cursor) ==> r == Page([], None, false)
  {
    var queryCursor, skip := None, 0;
    if |cursor| > 0 {
      queryCursor := Some(cursor);
      skip := 1;
    }
    var screenshots := FindMany(rows, queryCursor, skip, take + 1);
    var nextCursor, hasMore := None, false;
    if |screenshots| > take {
      hasMore := true;
      var nextItem := screenshots[|screenshots| - 1];
      screenshots := screenshots[..|screenshots| - 1];
      nextCursor := if nextItem.id == "" then None else Some(nextItem.id);
    }
    r := Page(screenshots, nextCursor, hasMore);
  }

  /** The page whose first row is at `from`; `None` is a cursor whose row does not exist. */
  function PageAt(rows: seq<Screenshot>, take: nat, from: Option<nat>): Page {
    if from.None? || from.value >= |rows| then Page([], None, false)
    else if from.value + take < |rows| then
      var next := rows[from.value + take].id;
      Page(rows[from.value..from.value + take], if next == "" then None else Some(next), true)
    else Page(rows[from.value..], None, false)
  }

  ghost predicate ProperIds(rows: seq<Screenshot>) {
    DistinctIds(rows) && forall i :: 0 <= i < |rows| ==> rows[i].id != ""
  }

  lemma {:induction false} IndexOfRow(rows: seq<Screenshot>, i: nat)
    requires DistinctIds(rows) && i < |rows|
    ensures IndexOf(rows, rows[i].id) == Some(i)
  {
    var r := IndexOf(rows, rows[i].id);
    assert r.Some?;
  }

  /** The rows before `n`, without every one at a position `k * (take + 1) + take`. */
  function Shown(rows: seq<Screenshot>, take: nat, n: nat): seq<Screenshot>
    requires n <= |rows|
  {
    if n == 0 then []
    else Shown(rows, take, n - 1) + if (n - 1) % (take + 1) == take then [] else [rows[n - 1]]
  }

  /** The client: asks for pages until there is no cursor any more. */
  method FollowCursors(rows: seq<Screenshot>, take: nat) returns (pages: nat, shown: seq<Screenshot>)
    requires ProperIds(rows)
    ensures pages == |rows| / (take + 1) + 1
    ensures shown == Shown(rows, take, |rows|)
  {
    pages, shown := 0, [];
    var cursor := "";
    ghost var from := 0;
    while true
      invariant from <= |rows| && from == pages * (take + 1)
      invariant IsCursorTo(rows, cursor, from)
      invariant shown == Shown(rows, take, from)
      decreases |rows| - from
    {
      CursorFindsPage(rows, take, cursor, from);
      PageShows(rows, take, pages, from);
      var page := GetPage(rows, take, cursor);
      Counted(pages, take + 1);
      pages := pages + 1;
      shown := shown + page.screenshots;
      if page.cursor.None? {
        LastPage(|rows|, pages - 1, take + 1);
        return;
      }
      cursor := page.cursor.value;
      from := from + take + 1;
    }
  }

  /** The cursor is the id of the row just before the next page. */
  ghost predicate IsCursorTo(rows: seq<Screenshot>, cursor: string, from: nat)
    requires from <= |rows|
  {
    if from == 0 then cursor == "" else cursor == rows[from - 1].id
  }

  lemma {:induction false} CursorFindsPage(rows: seq<Screenshot>, take: nat, cursor: string, from: nat)
    requires ProperIds(rows) && from <= |rows| && IsCursorTo(rows, cursor, from)
    ensures PageAt(rows, take, if cursor == "" then Some(0) else
                     match IndexOf(rows, cursor) case None => None case Some(i) => Some(i + 1))
         == PageAt(rows, take, Some(from))
  {
    if from > 0 {
      IndexOfRow(rows, from - 1);
    }
  }

  /** A page adds the rows it returns; a page with a successor is followed by one row never shown. */
  lemma {:induction false} PageShows(rows: seq<Screenshot>, take: nat, k: nat, from: nat)
    requires ProperIds(rows) && from <= |rows| && from == k * (take + 1)
    ensures var page := PageAt(rows, take, Some(from));
      var next := if from + take < |rows| then from + take + 1 else |rows|;
      && Shown(rows, take, next) == Shown(rows, take, from) + page.screenshots
      && (from + take < |rows| ==> page.cursor.Some? && IsCursorTo(rows, page.cursor.value, next))
      && (from + take >= |rows| ==> page.cursor.None?)
  {
    if from + take < |rows| {
      ShownPage(rows, take, k, from, take);
      PositionInPage(from, k, take + 1, take);
    } else {
      ShownPage(rows, take, k, from, |rows| - from);
    }
  }

  lemma {:induction false} ShownPage(rows: seq<Screenshot>, take: nat, k: nat, from: nat, count: nat)
    requires from + count <= |rows| && count <= take && from == k * (take + 1)
    ensures Shown(rows, take, from + count) == Shown(rows, take, from) + rows[from..from + count]
    decreases count
  {
    if count > 0 {
      ShownPage(rows, take, k, from, count - 1);
      PositionInPage(from, k, take + 1, count - 1);
      assert rows[from..from + count] == rows[from..from + count - 1] + [rows[from + count - 1]];
    }
  }

  lemma {:induction false} Counted(k: nat, size: nat)
    ensures (k + 1) * size == k * size + size
  {
  }

  lemma {:induction false} Monotone(a: nat, b: nat, size: nat)
    requires a <= b
    ensures a * size <= b * size
  {
  }

  lemma {:induction false} LastPage(n: nat, k: nat, size: nat)
    requires size > 0 && k * size <= n < k * size + size
    ensures n / size == k
  {
    var q := n / size;
    Counted(q, size);
    Counted(k, size);
    if q < k {
      Monotone(q + 1, k, size);
    } else if q > k {
      Monotone(k + 1, q, size);
    }
  }

  lemma {:induction false} PositionInPage(from: nat, k: nat, size: nat, i: nat)
    requires from == k * size && i < size
    ensures (from + i) % size == i
  {
    LastPage(from + i, k, size);
  }

  // ---- What is shown ------------------------------------------------------------------------

  /** A row is shown exactly when its position is not of the form `k * (take + 1) + take`. */
  lemma {:induction false} ShownIffNotLastOfBlock(rows: seq<Screenshot>, take: nat, n: nat, p: nat)
    requires ProperIds(rows) && p < n <= |rows|
    ensures rows[p] in Shown(rows, take, n) <==> p % (take + 1) != take
  {
    if p < n - 1 {
      ShownIffNotLastOfBlock(rows, take, n - 1, p);
      assert rows[n - 1].id != rows[p].id;
    } else {
      ShownIsBefore(rows, take, p);
    }
  }

  lemma {:induction false} ShownIsBefore(rows: seq<Screenshot>, take: nat, n: nat)
    requires ProperIds(rows) && n <= |rows|
    ensures forall x :: x in Shown(rows, take, n) ==> exists i :: 0 <= i < n && rows[i] == x
    ensures n < |rows| ==> rows[n] !in Shown(rows, take, n)
  {
    if n > 0 {
      ShownIsBefore(rows, take, n - 1);
    }
  }

  /** The positions of the rows shown, in increasing order. */
  lemma {:induction false} ShownAt(rows: seq<Screenshot>, take: nat, n: nat, i: nat) returns (p: nat)
    requires n <= |rows| && i < |Shown(rows, take, n)|
    ensures i <= p < n && Shown(rows, take, n)[i] == rows[p] && i == |Shown(rows, take, p)|
  {
    if i < |Shown(rows, take, n - 1)| {
      p := ShownAt(rows, take, n - 1, i);
    } else {
      p := n - 1;
      ShownAtMost(rows, take, p);
    }
  }

  lemma {:induction false} ShownAtMost(rows: seq<Screenshot>, take: nat, n: nat)
    requires n <= |rows|
    ensures |Shown(rows, take, n)| <= n
  {
    if n > 0 {
      ShownAtMost(rows, take, n - 1);
    }
  }

  lemma {:induction false} ShownGrows(rows: seq<Screenshot>, take: nat, m: nat, n: nat)
    requires m <= n <= |rows|
    ensures |Shown(rows, take, m)| <= |Shown(rows, take, n)|
    decreases n
  {
    if m < n {
      ShownGrows(rows, take, m, n - 1);
    }
  }

  /** Nothing is shown twice, and what is shown keeps the route's order. */
  lemma {:induction false} ShownInOrder(rows: seq<Screenshot>, take: nat, n: nat, rank: string -> int)
    requires ProperIds(rows) && InOrder(rows, rank) && n <= |rows|
    ensures DistinctIds(Shown(rows, take, n)) && InOrder(Shown(rows, take, n), rank)
  {
    var s := Shown(rows, take, n);
    forall i, j | 0 <= i < j < |s|
      ensures exists p, q :: 0 <= p < q < |rows| && s[i] == rows[p] && s[j] == rows[q]
    {
      var p := ShownAt(rows, take, n, i);
      var q := ShownAt(rows, take, n, j);
      if q <= p {
        ShownGrows(rows, take, q, p);
      }
      assert p < q;
    }
  }

  /** Pagination is complete exactly when everything fits on the first page. */
  lemma {:induction false} CompleteIffOnePage(rows: seq<Screenshot>, take: nat)
    requires ProperIds(rows)
    ensures Shown(rows, take, |rows|) == rows <==> |rows| <= take
  {
    if |rows| <= take {
      ShownAll(rows, take, |rows|);
      assert rows[..|rows|] == rows;
    } else {
      PositionInPage(0, 0, take + 1, take);
      ShownIffNotLastOfBlock(rows, take, |rows|, take);
      assert rows[take] in rows;
    }
  }

  lemma {:induction false} ShownAll(rows: seq<Screenshot>, take: nat, n: nat)
    requires n <= |rows| && n <= take
    ensures Shown(rows, take, n) == rows[..n]
  {
    if n > 0 {
      ShownAll(rows, take, n - 1);
      PositionInPage(0, 0, take + 1, n - 1);
    }
  }

  /** One page, whatever the position: it has at most `take` rows, the first ones from there on; there is
      more exactly when rows remain behind it; and exactly then, the id being proper, it has a cursor,
      which is the first of the rows that remain. */
  lemma {:induction false} PageMeans(rows: seq<Screenshot>, take: nat, from: nat)
    requires ProperIds(rows) && from <= |rows|
    ensures var page := PageAt(rows, take, Some(from));
      && page.screenshots <= rows[from..] && |page.screenshots| <= take
      && (|page.screenshots| < take ==> page.screenshots == rows[from..])
      && (page.hasMore <==> |page.screenshots| < |rows| - from)
      && (page.cursor.Some? <==> page.hasMore)
      && (page.hasMore ==> page.cursor.value == rows[from + |page.screenshots|].id)
  {
  }
}
