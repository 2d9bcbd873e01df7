/** Keyset pagination by (created_at, id), newest first. */
module Pagination {
  import opened Prelude
  import opened Text

  const DEFAULT_LIMIT := 20
  const MAX_LIMIT := 100

  /** A JavaScript number. */
  datatype Number = Finite(value: real) | NaN | PosInfinity | NegInfinity

  function ResolveLimit(limit: Option<Number>): (n: nat)
    ensures 1 <= n <= MAX_LIMIT
    ensures limit.Some? && limit.value.Finite? && 1.0 <= limit.value.value < 101.0 ==>
              n as real <= limit.value.value < n as real + 1.0
    ensures limit.None? || limit.value.NaN? ==> n == DEFAULT_LIMIT
    ensures (limit.Some? && limit.value.Finite? && limit.value.value < 1.0) || limit == Some(NegInfinity) ==> n == 1
    ensures (limit.Some? && limit.value.Finite? && limit.value.value >= 101.0) || limit == Some(PosInfinity) ==> n == MAX_LIMIT
  {
    match limit
    case None => DEFAULT_LIMIT
    case Some(NaN) => DEFAULT_LIMIT
    case Some(PosInfinity) => MAX_LIMIT
    case Some(NegInfinity) => 1
    case Some(Finite(v)) =>
      var floor := v.Floor;
      if floor < 1 then 1 else if floor > MAX_LIMIT then MAX_LIMIT else floor
  }

  /** A row, as far as paging is concerned; the position of a row is the row itself. */
  datatype Row = Row(createdAt: string, id: string)

  /** What the client sends: nothing, something that does not decode, or the position of a row. */
  datatype Cursor = Absent | Malformed | At(position: Row)

  datatype Page = Page(items: seq<Row>, nextCursor: Option<Row>)

  // ---------- the order ----------

  /** `(created_at < ? OR (created_at = ? AND id < ?))` */
  predicate Before(a: Row, b: Row) {
    Less(a.createdAt, b.createdAt) || (a.createdAt == b.createdAt && Less(a.id, b.id))
  }

  lemma BeforeIsTotalOrder(a: Row, b: Row, c: Row)
    ensures !Before(a, a)
    ensures Before(a, b) && Before(b, c) ==> Before(a, c)
    ensures Before(a, b) || a == b || Before(b, a)
  {
    Irreflexive(a.createdAt);
    Irreflexive(a.id);
    Total(a.createdAt, b.createdAt);
    Total(a.id, b.id);
    if Less(a.createdAt, b.createdAt) && Less(b.createdAt, c.createdAt) {
      Transitive(a.createdAt, b.createdAt, c.createdAt);
    }
    if Less(a.id, b.id) && Less(b.id, c.id) {
      Transitive(a.id, b.id, c.id);
    }
  }

  ghost predicate Descending(rows: seq<Row>) {
    forall i, j | 0 <= i < j < |rows| :: Before(rows[j], rows[i])
  }

  // ---------- the query ----------

  predicate Selected(row: Row, from: Option<Row>) {
    from.None? || Before(row, from.value)
  }

  /** `rows` answers the SELECT with `LIMIT n` on the matching rows of `table`: the first `n` of them in
    * descending order. */
  ghost predicate Answers(table: set<Row>, from: Option<Row>, n: nat, rows: seq<Row>) {
    && Descending(rows)
    && (forall row <- rows :: row in table && Selected(row, from))
    && |rows| <= n
    && (forall row <- table :: Selected(row, from) && row !in rows ==> |rows| == n && (n > 0 ==> Before(row, rows[n - 1])))
  }

  function StartOf(cursor: Cursor): Option<Row> {
    if cursor.At? then Some(cursor.position) else None
  }

  /** `listByCreatedAt`, given the answer to its query for one row more than the page holds. */
  method ListByCreatedAt(ghost table: set<Row>, cursor: Cursor, limit: Option<Number>, rows: seq<Row>) returns (page: Page)
    requires Answers(table, StartOf(cursor), ResolveLimit(limit) + 1, rows)
    ensures match cursor
            case At(position) => IsPage(table, Some(position), ResolveLimit(limit), page)
            case _ => IsPage(table, None, ResolveLimit(limit), page)
  {
    var n := ResolveLimit(limit);
    var hasMore := |rows| > n;
    var items := if hasMore then rows[..n] else rows;
    var nextCursor := if hasMore && |items| > 0 then Some(items[|items| - 1]) else None;
    page := Page(items, nextCursor);
    if hasMore {
      forall row | row in table && Selected(row, StartOf(cursor)) && row !in items ensures Before(row, items[n - 1]) {
        BeforeIsTotalOrder(row, rows[n], items[n - 1]);
      }
      assert rows[n] in table && rows[n] !in items by {
        BeforeIsTotalOrder(rows[n], rows[n], rows[n]);
      }
    }
  }

  /** What a page is for its reader: the newest `n` matching rows before the cursor, and a next cursor
    * exactly when there are older ones. */
  ghost predicate IsPage(table: set<Row>, from: Option<Row>, n: nat, page: Page) {
    && Answers(table, from, n, page.items)
    && (page.nextCursor.Some? <==> exists row <- table :: Selected(row, from) && row !in page.items)
    && (page.nextCursor.Some? ==> |page.items| == n > 0 && page.nextCursor.value == page.items[n - 1])
  }

  /** The items of a page are rows of the table created before the cursor, the newest first, and ids decide between
    * rows of one time. */
  lemma PageIsNewestFirst(table: set<Row>, from: Option<Row>, n: nat, page: Page, i: nat)
    requires IsPage(table, from, n, page) && i < |page.items|
    ensures page.items[i] in table
    ensures forall j | i < j < |page.items| ::
              Less(page.items[j].createdAt, page.items[i].createdAt)
              || (page.items[j].createdAt == page.items[i].createdAt && Less(page.items[j].id, page.items[i].id))
    ensures from.Some? ==>
              Less(page.items[i].createdAt, from.value.createdAt)
              || (page.items[i].createdAt == from.value.createdAt && Less(page.items[i].id, from.value.id))
  {
    assert page.items[i] in page.items;
  }

  // ---------- following the cursor ----------

  /** A walk: the pages got by following `nextCursor`, the k-th one from the k-th table. */
  ghost predicate IsWalk(tables: seq<set<Row>>, from: Option<Row>, n: nat, pages: seq<Page>)
    decreases |pages|
  {
    && |tables| == |pages| > 0
    && IsPage(tables[0], from, n, pages[0])
    && (|pages| > 1 ==> pages[0].nextCursor.Some? && IsWalk(tables[1..], pages[0].nextCursor, n, pages[1..]))
  }

  /** Rows are added between pages, never deleted. */
  ghost predicate Growing(tables: seq<set<Row>>) {
    forall i, j | 0 <= i <= j < |tables| :: tables[i] <= tables[j]
  }

  function Items(pages: seq<Page>): seq<Row> {
    if pages == [] then [] else pages[0].items + Items(pages[1..])
  }

  /** Whatever is added meanwhile, a walk never goes back and never repeats a row. */
  lemma {:induction false} WalkDescends(tables: seq<set<Row>>, from: Option<Row>, n: nat, pages: seq<Page>)
    requires IsWalk(tables, from, n, pages)
    ensures Descending(Items(pages))
    ensures forall row <- Items(pages) :: Selected(row, from)
    decreases |pages|
  {
    if |pages| == 1 {
      assert Items(pages) == pages[0].items + [];
    } else {
      var next, rest := pages[0].nextCursor, Items(pages[1..]);
      WalkDescends(tables[1..], next, n, pages[1..]);
      var items := pages[0].items;
      forall a, b | a in rest && b in items ensures Before(a, b) && Selected(a, from) {
        assert next.value in items;
        var i :| 0 <= i < |items| && items[i] == b;
        if i < n - 1 {
          assert Before(items[n - 1], items[i]);
        }
        BeforeIsTotalOrder(a, next.value, b);
        if from.Some? {
          BeforeIsTotalOrder(a, next.value, from.value);
        }
      }
      assert Items(pages) == items + rest;
    }
  }

  /** A finished walk contains every row that was there from the start: exactly once, by the above. */
  lemma {:induction false} WalkIsComplete(tables: seq<set<Row>>, from: Option<Row>, n: nat, pages: seq<Page>, row: Row)
    requires IsWalk(tables, from, n, pages) && Growing(tables)
    requires pages[|pages| - 1].nextCursor.None?
    requires row in tables[0] && Selected(row, from)
    ensures row in Items(pages)
    decreases |pages|
  {
    if row !in pages[0].items {
      assert pages[0].nextCursor.Some?;
      assert row in tables[1] by {
        assert tables[0] <= tables[1];
      }
      assert Growing(tables[1..]) by {
        forall i, j | 0 <= i <= j < |tables[1..]| ensures tables[1..][i] <= tables[1..][j] {
          assert tables[i + 1] <= tables[j + 1];
        }
      }
      WalkIsComplete(tables[1..], pages[0].nextCursor, n, pages[1..], row);
    }
  }

  function Matching(table: set<Row>, from: Option<Row>): set<Row> {
    set row | row in table && Selected(row, from)
  }

  ghost function SetOf(rows: seq<Row>): set<Row> {
    set row | row in rows
  }

  lemma {:induction false} DescendingCardinality(rows: seq<Row>)
    requires Descending(rows)
    ensures |SetOf(rows)| == |rows|
  {
    if rows != [] {
      var last := |rows| - 1;
      DescendingCardinality(rows[..last]);
      assert rows[last] !in rows[..last] by {
        BeforeIsTotalOrder(rows[last], rows[last], rows[last]);
      }
      assert SetOf(rows) == SetOf(rows[..last]) + {rows[last]};
    }
  }

  /** One page takes its items off the rows still to come. */
  lemma PageTakes(table: set<Row>, from: Option<Row>, n: nat, page: Page)
    requires IsPage(table, from, n, page)
    ensures |page.items| <= n
    ensures page.nextCursor.None? ==> |Matching(table, from)| == |page.items|
    ensures page.nextCursor.Some? ==> |Matching(table, from)| == n + |Matching(table, page.nextCursor)|
    ensures page.nextCursor.Some? ==> |Matching(table, page.nextCursor)| > 0
  {
    DescendingCardinality(page.items);
    if page.nextCursor.None? {
      assert Matching(table, from) == SetOf(page.items);
    } else {
      var cursor := page.nextCursor.value;
      assert cursor in page.items;
      forall row | row in table ensures row in Matching(table, from) <==> row in page.items || Before(row, cursor) {
        if Before(row, cursor) && from.Some? {
          BeforeIsTotalOrder(row, cursor, from.value);
        }
      }
      forall row | row in page.items ensures !Before(row, cursor) {
        var i :| 0 <= i < n && page.items[i] == row;
        BeforeIsTotalOrder(row, cursor, row);
        if i < n - 1 {
          assert Before(page.items[n - 1], page.items[i]);
        }
      }
      assert Matching(table, from) == SetOf(page.items) + Matching(table, page.nextCursor);
      assert SetOf(page.items) !! Matching(table, page.nextCursor);
      var row :| row in table && Selected(row, from) && row !in page.items;
      assert row in Matching(table, page.nextCursor);
    }
  }

  function PageCount(rows: nat, n: nat): nat
    requires n > 0
  {
    if rows == 0 then 1 else (rows + n - 1) / n
  }

  lemma PageCountStep(rows: nat, n: nat)
    requires n > 0 && rows > 0
    ensures PageCount(rows + n, n) == 1 + PageCount(rows, n)
  {
    assert (rows + n + n - 1) / n == (rows + n - 1) / n + 1 by {
      DivStep(rows + n - 1, n);
    }
  }

  lemma DivStep(a: nat, n: nat)
    requires n > 0
    ensures (a + n) / n == a / n + 1
  {
    var q, r := a / n, a % n;
    assert a + n == (q + 1) * n + r;
    DivUnique(a + n, n, q + 1, r);
  }

  lemma DivUnique(a: nat, n: nat, q: nat, r: nat)
    requires n > 0 && a == q * n + r && r < n
    ensures a / n == q
  {
    var d := a / n - q;
    assert a == (a / n) * n + a % n;
    assert d * n == r - a % n;
    MultipleBound(d, n);
  }

  lemma MultipleBound(d: int, n: int)
    requires n > 0
    ensures d >= 1 ==> d * n >= n
    ensures d <= -1 ==> d * n <= -n
  {
    if d >= 1 {
      assert d * n == (d - 1) * n + n;
    } else if d <= -1 {
      assert d * n == (d + 1) * n - n;
    }
  }

  /** On a table that does not change, no walk has more than max(1, ceil(m / n)) pages, for m matching rows
    * and page size n, and exactly the finished walks have that many. */
  lemma {:induction false} WalkLength(table: set<Row>, tables: seq<set<Row>>, from: Option<Row>, n: nat, pages: seq<Page>)
    requires n > 0 && IsWalk(tables, from, n, pages) && (forall i | 0 <= i < |tables| :: tables[i] == table)
    ensures |pages| <= PageCount(|Matching(table, from)|, n)
    ensures |pages| == PageCount(|Matching(table, from)|, n) <==> pages[|pages| - 1].nextCursor.None?
    decreases |pages|
  {
    PageTakes(table, from, n, pages[0]);
    if pages[0].nextCursor.Some? {
      var left := |Matching(table, pages[0].nextCursor)|;
      PageCountStep(left, n);
      AtLeastOnePage(left, n);
      if |pages| > 1 {
        WalkLength(table, tables[1..], pages[0].nextCursor, n, pages[1..]);
      }
    } else {
      var m := |Matching(table, from)|;
      if m > 0 {
        DivUnique(m + n - 1, n, 1, m - 1);
      }
    }
  }

  lemma AtLeastOnePage(rows: nat, n: nat)
    requires n > 0
    ensures PageCount(rows, n) >= 1
  {
    if rows > 0 {
      DivStep(rows - 1, n);
    }
  }
}
