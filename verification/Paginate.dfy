/** Cursor pagination: every page asks for the rows strictly after the last row of the page before. */
module Paginate {
  import opened Prelude

  /** What a row is sorted and found by: an instant in microseconds, and an id that compares like the uuid it is. */
  datatype Row = Row(createdAt: int, id: nat)

  const MS := 1000

  /** A cursor names its row by the milliseconds a date carries; what is below them is dropped. */
  function CursorOf(r: Row): Row { Row(r.createdAt / MS * MS, r.id) }

  /** Newest first, the id breaking ties. */
  predicate Before(a: Row, b: Row) {
    a.createdAt > b.createdAt || (a.createdAt == b.createdAt && a.id > b.id)
  }

  /** The filter of a page: strictly after the cursor, or everything when there is none. */
  predicate AfterCursor(cursor: Option<Row>, r: Row) {
    cursor == None || r.createdAt < cursor.value.createdAt
    || (r.createdAt == cursor.value.createdAt && r.id < cursor.value.id)
  }

  ghost predicate Descending(rows: seq<Row>) {
    forall i, j :: 0 <= i < j < |rows| ==> Before(rows[i], rows[j])
  }

  /** The answer of the database: the first `take` rows after the cursor, in order. */
  ghost predicate IsAnswer(rows: seq<Row>, table: set<Row>, cursor: Option<Row>, take: nat) {
    && Descending(rows) && |rows| <= take
    && (forall r :: r in rows ==> r in table && AfterCursor(cursor, r))
    && (forall r :: r in table && AfterCursor(cursor, r) && r !in rows ==>
          |rows| == take && forall x :: x in rows ==> Before(x, r))
  }

  datatype Page = Page(data: seq<Row>, nextCursor: Option<Row>, hasMore: bool)

  /** One row more than the limit was asked for; it only tells that there is more. */
  function PageOf(rows: seq<Row>, limit: nat): Page {
    var hasMore := |rows| > limit;
    var kept := if hasMore then rows[..limit] else rows;
    Page(kept, if hasMore && kept != [] then Some(CursorOf(kept[|kept| - 1])) else None, hasMore)
  }

  /** Some row no other comes before. */
  lemma First(s: set<Row>) returns (first: Row)
    requires s != {}
    ensures first in s && forall r :: r in s && r != first ==> Before(first, r)
  {
    var some :| some in s;
    var rest := s - {some};
    first := some;
    if rest != {} {
      var other := First(rest);
      if Before(other, some) { first := other; }
    }
    forall r | r in s && r != first ensures Before(first, r) {
      assert r == some || r in rest;
    }
  }

  /** The database always has an answer, and only one. */
  lemma {:induction false} AnswerExists(table: set<Row>, cursor: Option<Row>, take: nat) returns (rows: seq<Row>)
    ensures IsAnswer(rows, table, cursor, take)
    decreases take
  {
    var left := set r | r in table && AfterCursor(cursor, r);
    if take == 0 || left == {} {
      rows := [];
      assert forall r :: r in table && AfterCursor(cursor, r) ==> r in left;
    } else {
      var first := First(left);
      var rest := AnswerExists(table, Some(first), take - 1);
      rows := [first] + rest;
      assert forall r :: r in table && AfterCursor(cursor, r) ==> r in left;
      forall r | r in table && AfterCursor(cursor, r) && r !in rows
        ensures |rows| == take && forall x :: x in rows ==> Before(x, r)
      {
        assert r != rows[0] && r !in rest;
        assert Before(first, r) && AfterCursor(Some(first), r);
      }
      forall i, j | 0 <= i < j < |rows| ensures Before(rows[i], rows[j]) {
        assert rows[j] == rest[j - 1] && rest[j - 1] in rest;
      }
    }
  }

  lemma {:induction false} AnswerUnique(a: seq<Row>, b: seq<Row>, table: set<Row>, cursor: Option<Row>, take: nat)
    requires IsAnswer(a, table, cursor, take) && IsAnswer(b, table, cursor, take)
    ensures a == b
    decreases take
  {
    assert a != [] ==> a[0] in a;
    assert b != [] ==> b[0] in b;
    if a != [] && b != [] {
      HeadsAgree(a, b, table, cursor, take);
      RestIsAnswer(a, table, cursor, take);
      RestIsAnswer(b, table, cursor, take);
      AnswerUnique(a[1..], b[1..], table, Some(a[0]), take - 1);
      assert a == [a[0]] + a[1..] && b == [b[0]] + b[1..];
    }
  }

  lemma HeadsAgree(a: seq<Row>, b: seq<Row>, table: set<Row>, cursor: Option<Row>, take: nat)
    requires IsAnswer(a, table, cursor, take) && IsAnswer(b, table, cursor, take) && a != [] && b != []
    ensures a[0] == b[0]
  {
    assert a[0] in a && b[0] in b;
    assert a[0] == b[0] || Before(b[0], a[0]);
    assert b[0] == a[0] || Before(a[0], b[0]);
  }

  lemma RestIsAnswer(a: seq<Row>, table: set<Row>, cursor: Option<Row>, take: nat)
    requires IsAnswer(a, table, cursor, take) && a != []
    ensures IsAnswer(a[1..], table, Some(a[0]), take - 1)
  {
    var rest := a[1..];
    forall r | r in rest ensures r in table && AfterCursor(Some(a[0]), r) {
      var i :| 0 <= i < |rest| && rest[i] == r;
      assert a[i + 1] == r && a[i + 1] in a;
    }
    forall r | r in table && AfterCursor(Some(a[0]), r) && r !in rest
      ensures |rest| == take - 1 && forall x :: x in rest ==> Before(x, r)
    {
      assert a == [a[0]] + rest;
      assert AfterCursor(cursor, r) by { assert a[0] in a; }
      assert r !in a;
    }
  }

  // ----- Whole runs -----

  /** Pages fetched one after the other, each over the table as it was then, each from the cursor before. */
  ghost predicate IsRun(tables: seq<set<Row>>, cursor: Option<Row>, limit: nat, pages: seq<Page>)
    decreases |pages|
  {
    && |tables| == |pages|
    && (pages != [] ==>
          && (exists rows :: IsAnswer(rows, tables[0], cursor, limit + 1) && pages[0] == PageOf(rows, limit))
          && (|pages| > 1 ==> pages[0].hasMore)
          && IsRun(tables[1..], pages[0].nextCursor, limit, pages[1..]))
  }

  /** The run went on until there was no more. */
  ghost predicate Finished(pages: seq<Page>) {
    pages != [] && !pages[|pages| - 1].hasMore
  }

  function Returned(pages: seq<Page>): seq<Row> {
    if pages == [] then [] else pages[0].data + Returned(pages[1..])
  }

  /** A row after the one the cursor names, that the cursor's filter nevertheless leaves out. */
  predicate Shadows(last: Row, r: Row) {
    Before(last, r) && !AfterCursor(Some(CursorOf(last)), r)
  }

  /** Those are the rows of the same millisecond, but for those at its very start with a lower id. */
  lemma ShadowsMeans(last: Row, r: Row)
    ensures Shadows(last, r)
       <==> Before(last, r) && r.createdAt / 1000 == last.createdAt / 1000 && !(r.createdAt % 1000 == 0 && r.id < last.id)
  {}

  lemma FilterIsLater(last: Row, r: Row)
    requires AfterCursor(Some(CursorOf(last)), r)
    ensures Before(last, r)
  {}

  /** The row that was asked for besides is not on the page. */
  lemma OneMoreIsLeft(rows: seq<Row>, limit: nat)
    requires Descending(rows) && |rows| > limit
    ensures rows[limit] in rows && rows[limit] !in PageOf(rows, limit).data
  {
    assert forall i :: 0 <= i < limit ==> Before(rows[i], rows[limit]);
  }

  /** What one page settles. */
  lemma PageSettles(rows: seq<Row>, table: set<Row>, cursor: Option<Row>, limit: nat)
    requires limit >= 1 && IsAnswer(rows, table, cursor, limit + 1)
    ensures var page := PageOf(rows, limit);
            && Descending(page.data)
            && (forall r :: r in page.data ==> AfterCursor(cursor, r) && r in table)
            && (page.hasMore ==> page.data != [] && page.nextCursor == Some(CursorOf(page.data[|page.data| - 1])))
            && (!page.hasMore ==> page.nextCursor == None)
            && (page.hasMore <==> exists r :: r in table && AfterCursor(cursor, r) && r !in page.data)
            && (forall r :: r in table && AfterCursor(cursor, r) && r !in page.data ==>
                  page.hasMore && Before(page.data[|page.data| - 1], r))
  {
    var page := PageOf(rows, limit);
    assert forall r :: r in page.data ==> r in rows;
    if page.hasMore { OneMoreIsLeft(rows, limit); }
    forall r | r in table && AfterCursor(cursor, r) && r !in page.data
      ensures page.hasMore && Before(page.data[|page.data| - 1], r)
    {
      if r in rows {
        var i :| 0 <= i < |rows| && rows[i] == r;
        assert i == limit;
      } else {
        assert rows[limit - 1] in rows;
      }
    }
  }

  /** Everything a run returns comes in strictly descending order, each row after the cursor it started from. */
  lemma {:induction false} RunDescends(tables: seq<set<Row>>, cursor: Option<Row>, limit: nat, pages: seq<Page>)
    requires limit >= 1 && IsRun(tables, cursor, limit, pages)
    ensures Descending(Returned(pages))
    ensures forall r :: r in Returned(pages) ==> AfterCursor(cursor, r)
    decreases |pages|
  {
    if pages != [] {
      var rows :| IsAnswer(rows, tables[0], cursor, limit + 1) && pages[0] == PageOf(rows, limit);
      PageSettles(rows, tables[0], cursor, limit);
      RunDescends(tables[1..], pages[0].nextCursor, limit, pages[1..]);
      var data, rest := pages[0].data, Returned(pages[1..]);
      if |pages| == 1 {
        assert pages[1..] == [];
        assert data + rest == data;
      } else {
        JoinDescending(data, rest, cursor);
      }
    }
  }

  lemma JoinDescending(data: seq<Row>, rest: seq<Row>, cursor: Option<Row>)
    requires data != [] && Descending(data) && Descending(rest)
    requires forall r :: r in data ==> AfterCursor(cursor, r)
    requires forall r :: r in rest ==> AfterCursor(Some(CursorOf(data[|data| - 1])), r)
    ensures Descending(data + rest)
    ensures forall r :: r in data + rest ==> AfterCursor(cursor, r)
  {
    var last := data[|data| - 1];
    assert last in data;
    forall r | r in rest ensures forall x :: x in data ==> Before(x, r) {
      FilterIsLater(last, r);
      forall x | x in data ensures Before(x, r) {
        var i :| 0 <= i < |data| && data[i] == x;
        assert i == |data| - 1 || Before(data[i], last);
      }
    }
    var all := data + rest;
    forall i, j | 0 <= i < j < |all| ensures Before(all[i], all[j]) {
      if i < |data| <= j { assert all[i] in data && all[j] in rest; }
    }
  }

  /** So no row is returned twice. */
  lemma NeverTwice(tables: seq<set<Row>>, limit: nat, pages: seq<Page>)
    requires limit >= 1 && IsRun(tables, None, limit, pages)
    ensures Distinct(Returned(pages))
  {
    RunDescends(tables, None, limit, pages);
  }

  /** The page does not end the run, and its last row shadows another. */
  predicate EndsOnShadow(page: Page, r: Row) {
    page.hasMore && page.data != [] && Shadows(page.data[|page.data| - 1], r)
  }

  ghost predicate Shadowed(pages: seq<Page>, r: Row) {
    exists p :: p in pages && EndsOnShadow(p, r)
  }

  lemma ShadowedStep(pages: seq<Page>, r: Row)
    requires pages != []
    ensures Shadowed(pages, r) <==> EndsOnShadow(pages[0], r) || Shadowed(pages[1..], r)
  {
    assert pages == [pages[0]] + pages[1..];
    if Shadowed(pages[1..], r) {
      var p :| p in pages[1..] && EndsOnShadow(p, r);
      assert p in pages;
    }
  }

  /** Every page of a run ends after the cursor the run starts from. */
  lemma {:induction false} EndsAreLater(tables: seq<set<Row>>, cursor: Option<Row>, limit: nat, pages: seq<Page>, p: Page)
    requires limit >= 1 && IsRun(tables, cursor, limit, pages) && p in pages && p.data != []
    ensures AfterCursor(cursor, p.data[|p.data| - 1])
  {
    RunDescends(tables, cursor, limit, pages);
    ReturnedHolds(pages, p, p.data[|p.data| - 1]);
  }

  lemma {:induction false} ReturnedHolds(pages: seq<Page>, p: Page, r: Row)
    requires p in pages && r in p.data
    ensures r in Returned(pages)
  {
    if p != pages[0] {
      assert pages == [pages[0]] + pages[1..];
      ReturnedHolds(pages[1..], p, r);
    }
  }

  /** A row on the first page is returned, and no page ends on a row shadowing it. */
  lemma FirstPageReturns(tables: seq<set<Row>>, cursor: Option<Row>, limit: nat, pages: seq<Page>, r: Row)
    requires limit >= 1 && IsRun(tables, cursor, limit, pages) && pages != [] && r in pages[0].data
    requires Descending(pages[0].data)
    requires pages[0].hasMore ==> pages[0].nextCursor == Some(CursorOf(pages[0].data[|pages[0].data| - 1]))
    ensures r in Returned(pages) && !Shadowed(pages, r)
  {
    var last := pages[0].data[|pages[0].data| - 1];
    ShadowedStep(pages, r);
    ReturnedHolds(pages, pages[0], r);
    LastIsLast(pages[0].data, r);
    NotShadowedLater(tables[1..], limit, pages[1..], last, r);
  }

  /** A row the cursor of the first page leaves out is returned later by none. */
  lemma ShadowedIsLost(tables: seq<set<Row>>, limit: nat, pages: seq<Page>, r: Row)
    requires limit >= 1 && pages != [] && pages[0].data != [] && r !in pages[0].data
    requires IsRun(tables, pages[0].nextCursor, limit, pages[1..])
    requires pages[0].nextCursor == Some(CursorOf(pages[0].data[|pages[0].data| - 1]))
    requires Shadows(pages[0].data[|pages[0].data| - 1], r)
    ensures r !in Returned(pages)
  {
    RunDescends(tables, pages[0].nextCursor, limit, pages[1..]);
  }

  /**
   * A finished run returns a row that was there at each of its requests, whatever came and went besides, exactly
   * when no page ended on a row shadowing it.
   */
  lemma {:induction false} MissedExactlyInShadows(tables: seq<set<Row>>, cursor: Option<Row>, limit: nat, pages: seq<Page>, r: Row)
    requires limit >= 1 && IsRun(tables, cursor, limit, pages) && Finished(pages)
    requires AfterCursor(cursor, r) && forall t :: t in tables ==> r in t
    ensures r in Returned(pages) <==> !Shadowed(pages, r)
    decreases |pages|
  {
    var rows :| IsAnswer(rows, tables[0], cursor, limit + 1) && pages[0] == PageOf(rows, limit);
    PageSettles(rows, tables[0], cursor, limit);
    if r in pages[0].data {
      FirstPageReturns(tables, cursor, limit, pages, r);
    } else {
      assert r in tables[0] && |pages| > 1 && Finished(pages[1..]);
      ShadowedStep(pages, r);
      if Shadows(pages[0].data[|pages[0].data| - 1], r) {
        ShadowedIsLost(tables[1..], limit, pages, r);
      } else {
        MissedExactlyInShadows(tables[1..], pages[0].nextCursor, limit, pages[1..], r);
      }
    }
  }

  lemma LastIsLast(data: seq<Row>, r: Row)
    requires Descending(data) && r in data
    ensures r == data[|data| - 1] || Before(r, data[|data| - 1])
  {
    var i :| 0 <= i < |data| && data[i] == r;
  }

  /** A row up to the end of one page is in the shadow of no later page. */
  lemma NotShadowedLater(rest: seq<set<Row>>, limit: nat, later: seq<Page>, last: Row, r: Row)
    requires limit >= 1 && (r == last || Before(r, last))
    requires later != [] ==> IsRun(rest, Some(CursorOf(last)), limit, later)
    ensures !Shadowed(later, r)
  {
    forall p | p in later ensures !EndsOnShadow(p, r) {
      if p.data != [] {
        EndsAreLater(rest, Some(CursorOf(last)), limit, later, p);
        FilterIsLater(last, p.data[|p.data| - 1]);
      }
    }
  }

  /** With instants in whole milliseconds nothing is in shadow, so nothing is missed. */
  lemma NothingMissed(tables: seq<set<Row>>, limit: nat, pages: seq<Page>, r: Row)
    requires limit >= 1 && IsRun(tables, None, limit, pages) && Finished(pages)
    requires (forall t :: t in tables ==> r in t) && forall x :: x in Returned(pages) ==> x.createdAt % 1000 == 0
    ensures r in Returned(pages)
  {
    MissedExactlyInShadows(tables, None, limit, pages, r);
    forall p | p in pages ensures !EndsOnShadow(p, r) {
      if p.data != [] { ReturnedHolds(pages, p, p.data[|p.data| - 1]); }
    }
  }

  /** Two rows of one millisecond and a page of one: the second row is never returned. */
  lemma OneMillisecondLosesARow(ms: int, a: Row, b: Row)
    requires a.createdAt == ms * MS + 2 && b.createdAt == ms * MS + 1
    ensures exists pages :: IsRun([{a, b}, {a, b}], None, 1, pages) && Finished(pages) && b !in Returned(pages)
  {
    var first, second := PageOf([a, b], 1), PageOf([], 1);
    var tables, pages := [{a, b}, {a, b}], [first, second];
    assert a.createdAt / MS * MS == ms * MS;
    assert IsAnswer([a, b], {a, b}, None, 2);
    assert first == Page([a], Some(CursorOf(a)), true);
    assert IsAnswer([], {a, b}, first.nextCursor, 2);
    assert tables[1..] == [{a, b}] && pages[1..] == [second] && pages[1..][1..] == [] && tables[1..][1..] == [];
    assert IsRun(tables[1..], first.nextCursor, 1, pages[1..]);
    assert second == Page([], None, false);
    assert Returned(pages[1..]) == second.data + Returned(pages[1..][1..]);
    assert Returned(pages) == first.data + Returned(pages[1..]);
  }

  /** And it returns nothing that was never there. */
  lemma {:induction false} NothingInvented(tables: seq<set<Row>>, cursor: Option<Row>, limit: nat, pages: seq<Page>, r: Row)
    requires limit >= 1 && IsRun(tables, cursor, limit, pages) && r in Returned(pages)
    ensures exists t :: t in tables && r in t
    decreases |pages|
  {
    var rows :| IsAnswer(rows, tables[0], cursor, limit + 1) && pages[0] == PageOf(rows, limit);
    PageSettles(rows, tables[0], cursor, limit);
    if r in pages[0].data {
      assert tables[0] in tables;
    } else {
      NothingInvented(tables[1..], pages[0].nextCursor, limit, pages[1..], r);
    }
  }

  /** What a page with more to come leaves over is less, by at least the row its cursor names. */
  lemma PageShrinks(rows: seq<Row>, table: set<Row>, cursor: Option<Row>, limit: nat)
    requires limit >= 1 && IsAnswer(rows, table, cursor, limit + 1) && PageOf(rows, limit).hasMore
    ensures |Ahead(table, PageOf(rows, limit).nextCursor)| < |Ahead(table, cursor)|
  {
    var page := PageOf(rows, limit);
    PageSettles(rows, table, cursor, limit);
    var last := page.data[|page.data| - 1];
    assert last in page.data;
    forall r | AfterCursor(page.nextCursor, r) ensures AfterCursor(cursor, r) && r != last { FilterIsLater(last, r); }
    var now, next := Ahead(table, cursor), Ahead(table, page.nextCursor);
    assert last in now && last !in next && next <= now - {last};
    SubsetSize(next, now - {last});
  }

  function Ahead(table: set<Row>, cursor: Option<Row>): set<Row> {
    set r | r in table && AfterCursor(cursor, r)
  }

  /** Over a table that stands still a run finishes: it cannot have more pages to come than there are rows ahead. */
  lemma {:induction false} QuietRunFinishes(tables: seq<set<Row>>, table: set<Row>, cursor: Option<Row>, limit: nat,
                                            pages: seq<Page>)
    requires limit >= 1 && IsRun(tables, cursor, limit, pages) && forall t :: t in tables ==> t == table
    requires pages != [] && pages[|pages| - 1].hasMore
    ensures |pages| <= |Ahead(table, cursor)|
    decreases |pages|
  {
    assert tables[0] in tables;
    var rows :| IsAnswer(rows, table, cursor, limit + 1) && pages[0] == PageOf(rows, limit);
    PageShrinks(rows, table, cursor, limit);
    if |pages| > 1 {
      assert forall t :: t in tables[1..] ==> t in tables;
      QuietRunFinishes(tables[1..], table, pages[0].nextCursor, limit, pages[1..]);
    }
  }

  // ----- Tables at rest -----

  ghost predicate NoShadows(table: set<Row>) {
    forall a, b :: a in table && b in table ==> !Shadows(a, b)
  }

  function Resting(table: set<Row>, n: nat): seq<set<Row>> {
    seq(n, _ => table)
  }

  /** A finished run over a table at rest. */
  ghost predicate IsQuietRun(table: set<Row>, cursor: Option<Row>, limit: nat, pages: seq<Page>) {
    IsRun(Resting(table, |pages|), cursor, limit, pages) && Finished(pages)
  }

  ghost predicate ReturnsAll(table: set<Row>, pages: seq<Page>) {
    forall r :: r in table ==> r in Returned(pages)
  }

  /** There is such a run, from every cursor and with every limit. */
  lemma {:induction false} QuietRunExists(table: set<Row>, cursor: Option<Row>, limit: nat, rows: seq<Row>) returns (pages: seq<Page>)
    requires limit >= 1 && IsAnswer(rows, table, cursor, limit + 1)
    ensures IsQuietRun(table, cursor, limit, pages) && pages[0] == PageOf(rows, limit)
    decreases |Ahead(table, cursor)|
  {
    var page := PageOf(rows, limit);
    if page.hasMore {
      PageShrinks(rows, table, cursor, limit);
      var next := AnswerExists(table, page.nextCursor, limit + 1);
      var rest := QuietRunExists(table, page.nextCursor, limit, next);
      pages := [page] + rest;
      assert pages[1..] == rest && Resting(table, |pages|)[1..] == Resting(table, |rest|);
    } else {
      pages := [page];
      assert pages[1..] == [] && Resting(table, 1)[1..] == [];
    }
  }

  /** The rows up to and including one. */
  ghost function UpTo(table: set<Row>, a: Row): set<Row> {
    set r | r in table && (r == a || Before(r, a))
  }

  lemma DescendingIsDistinct(rows: seq<Row>)
    requires Descending(rows)
    ensures |Elements(rows)| == |rows|
  {
    DistinctSize(rows);
  }

  /** A page as long as there are rows up to a row ends on that row, and goes on if anything comes after it. */
  lemma PageEndsAt(table: set<Row>, a: Row, b: Row, rows: seq<Row>)
    requires a in table && b in table && Before(a, b)
    requires IsAnswer(rows, table, None, |UpTo(table, a)| + 1)
    ensures var limit := |UpTo(table, a)|; limit >= 1 && |rows| == limit + 1 && rows[limit - 1] == a
  {
    var up := UpTo(table, a);
    var n := |up|;
    assert a in up;
    PageIsFull(table, a, b, rows);
    FrontIsUpTo(table, a, rows);
    var front := rows[..n];
    var j :| 0 <= j < n && front[j] == a;
    assert front[j] == rows[j] && front[n - 1] == rows[n - 1];
    assert front[n - 1] in up;
  }

  lemma PageIsFull(table: set<Row>, a: Row, b: Row, rows: seq<Row>)
    requires a in table && b in table && Before(a, b)
    requires IsAnswer(rows, table, None, |UpTo(table, a)| + 1)
    ensures |rows| == |UpTo(table, a)| + 1
  {
    var up := UpTo(table, a);
    AllUpToAnswered(table, a, rows);
    DescendingIsDistinct(rows);
    assert b !in up;
    if b in rows { SubsetSize(up + {b}, Elements(rows)); }
  }

  lemma FrontIsUpTo(table: set<Row>, a: Row, rows: seq<Row>)
    requires a in table && IsAnswer(rows, table, None, |UpTo(table, a)| + 1) && |rows| == |UpTo(table, a)| + 1
    ensures Elements(rows[..|UpTo(table, a)|]) == UpTo(table, a)
  {
    var up := UpTo(table, a);
    var front := rows[..|up|];
    AllUpToAnswered(table, a, rows);
    forall i | 0 <= i < |up| ensures front[i] in up { UpToIsInFront(table, a, rows, i); }
    DescendingIsDistinct(front);
    SubsetSize(Elements(front), up);
  }

  lemma AllUpToAnswered(table: set<Row>, a: Row, rows: seq<Row>)
    requires a in table && IsAnswer(rows, table, None, |UpTo(table, a)| + 1)
    ensures UpTo(table, a) <= Elements(rows)
  {
    var up := UpTo(table, a);
    forall s | s in up ensures s in rows {
      if s !in rows {
        DescendingIsDistinct(rows);
        assert Elements(rows) <= up;
        SubsetSize(Elements(rows), up);
      }
    }
  }

  /** If one row of the answer comes later, so do all behind it, and the rows up to `a` are among those before it. */
  lemma UpToIsInFront(table: set<Row>, a: Row, rows: seq<Row>, i: nat)
    requires Descending(rows) && i < |rows| && UpTo(table, a) <= Elements(rows) && rows[i] in table
    ensures rows[i] in UpTo(table, a) || |UpTo(table, a)| <= i
  {
    if rows[i] !in UpTo(table, a) { UpToBefore(table, a, rows, i); }
  }

  lemma UpToBefore(table: set<Row>, a: Row, rows: seq<Row>, i: nat)
    requires Descending(rows) && i < |rows| && UpTo(table, a) <= Elements(rows)
    requires rows[i] in table && rows[i] !in UpTo(table, a)
    ensures |UpTo(table, a)| <= i
  {
    var up, front := UpTo(table, a), rows[..i];
    forall s | s in up ensures s in front {
      var k :| 0 <= k < |rows| && rows[k] == s;
      assert k >= i ==> k == i || Before(rows[i], rows[k]);
      assert front[..] == rows[..i];
      assert k < i ==> front[k] == s;
    }
    DescendingIsDistinct(front);
    assert up <= Elements(front);
    SubsetSize(up, Elements(front));
  }

  /** On a table at rest, runs of every limit return every row exactly when no row of the table shadows another. */
  lemma RestingTableExactly(table: set<Row>)
    ensures (forall limit: nat, pages :: limit >= 1 && IsQuietRun(table, None, limit, pages) ==> ReturnsAll(table, pages))
       <==> NoShadows(table)
  {
    if NoShadows(table) {
      forall limit: nat, pages | limit >= 1 && IsQuietRun(table, None, limit, pages) ensures ReturnsAll(table, pages) {
        NoShadowNoLoss(table, limit, pages);
      }
    } else {
      var a, b :| a in table && b in table && Shadows(a, b);
      var limit, pages := ShadowLosesARow(table, a, b);
    }
  }

  lemma NoShadowNoLoss(table: set<Row>, limit: nat, pages: seq<Page>)
    requires limit >= 1 && IsQuietRun(table, None, limit, pages) && NoShadows(table)
    ensures ReturnsAll(table, pages)
  {
    var tables := Resting(table, |pages|);
    forall r | r in table ensures r in Returned(pages) {
      MissedExactlyInShadows(tables, None, limit, pages, r);
      forall p | p in pages ensures !EndsOnShadow(p, r) {
        if p.data != [] {
          var last := p.data[|p.data| - 1];
          ReturnedHolds(pages, p, last);
          NothingInvented(tables, None, limit, pages, last);
        }
      }
    }
  }

  lemma ShadowLosesARow(table: set<Row>, a: Row, b: Row) returns (limit: nat, pages: seq<Page>)
    requires a in table && b in table && Shadows(a, b)
    ensures limit >= 1 && IsQuietRun(table, None, limit, pages) && b !in Returned(pages)
  {
    limit := |UpTo(table, a)|;
    var rows := AnswerExists(table, None, limit + 1);
    PageEndsAt(table, a, b, rows);
    pages := QuietRunExists(table, None, limit, rows);
    assert rows[..limit][limit - 1] == a;
    assert EndsOnShadow(pages[0], b);
    MissedExactlyInShadows(Resting(table, |pages|), None, limit, pages, b);
  }
}
