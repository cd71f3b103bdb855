/**
  The next-page loops over a table that does not change. A page asks for the rows with a
  smaller id and a creation time not after the last row seen, newest first, and the loops go
  on until a page is empty.
 */
module Pagination {
  import opened Collections
  import opened Types

  datatype Row = Row(id: nat, createdAt: Time)

  /** The order of the queries: newest first, and the larger id first among equals. */
  predicate Precedes(a: Row, b: Row) {
    a.createdAt > b.createdAt || (a.createdAt == b.createdAt && a.id > b.id)
  }

  /** The matching rows as the queries list them; ids are unique. */
  predicate IsListed(table: seq<Row>) {
    forall i, j | 0 <= i < j < |table| :: Precedes(table[i], table[j]) && table[i].id != table[j].id
  }

  /** The condition that a next-page cursor adds to a query. */
  predicate Beyond(cursor: Option<Row>, row: Row) {
    cursor.Some? ==> row.id < cursor.value.id && row.createdAt <= cursor.value.createdAt
  }

  /** The rows beyond the cursor, in the order of the table. */
  function After(table: seq<Row>, cursor: Option<Row>): (rows: seq<Row>)
    ensures |rows| <= |table|
  {
    if table == [] then [] else
    var n := |table| - 1;
    After(table[..n], cursor) + if Beyond(cursor, table[n]) then [table[n]] else []
  }

  function Page(table: seq<Row>, cursor: Option<Row>, size: nat): seq<Row> {
    var rows := After(table, cursor);
    if |rows| <= size then rows else rows[..size]
  }

  function Last(page: seq<Row>): Option<Row> {
    if page == [] then None else Some(page[|page| - 1])
  }

  /** The rows with a smaller id, in order: those a later page can still bring. */
  function Smaller(rows: seq<Row>, id: nat): (r: seq<Row>)
    ensures |r| <= |rows|
    ensures |r| == |rows| <==> forall i | 0 <= i < |rows| :: rows[i].id < id
    ensures |r| == |rows| ==> r == rows
  {
    if rows == [] then [] else
    var n := |rows| - 1;
    assert rows == rows[..n] + [rows[n]];
    Smaller(rows[..n], id) + if rows[n].id < id then [rows[n]] else []
  }

  /** What the loop returns: a page of the rows, then what is left with smaller ids. */
  function Scan(rows: seq<Row>, size: nat): (r: seq<Row>)
    requires size > 0
    ensures |r| <= |rows|
    decreases |rows|
  {
    if |rows| <= size then rows else rows[..size] + Scan(Smaller(rows[size..], rows[size - 1].id), size)
  }

  // ---------- the cursor condition picks exactly those rows ----------

  lemma {:induction false} AfterConcat(a: seq<Row>, b: seq<Row>, cursor: Option<Row>)
    ensures After(a + b, cursor) == After(a, cursor) + After(b, cursor)
    decreases |b|
  {
    if b == [] {
      assert a + b == a;
    } else {
      var n := |b| - 1;
      assert (a + b)[..|a| + n] == a + b[..n];
      AfterConcat(a, b[..n], cursor);
    }
  }

  lemma {:induction false} NoneAfter(rows: seq<Row>, cursor: Option<Row>)
    requires forall i | 0 <= i < |rows| :: !Beyond(cursor, rows[i])
    ensures After(rows, cursor) == []
  {
    if rows != [] { NoneAfter(rows[..|rows| - 1], cursor); }
  }

  lemma {:induction false} AfterIsSmaller(rows: seq<Row>, cursor: Row)
    requires forall i | 0 <= i < |rows| :: rows[i].createdAt <= cursor.createdAt
    ensures After(rows, Some(cursor)) == Smaller(rows, cursor.id)
  {
    if rows != [] { AfterIsSmaller(rows[..|rows| - 1], cursor); }
  }

  /** Seen from row `k`, the rows up to it are not beyond it and the others are not newer. */
  lemma ShownOrNotNewer(rows: seq<Row>, k: nat, shown: seq<Row>, rest: seq<Row>)
    requires IsListed(rows) && k < |rows| && shown == rows[..k + 1] && rest == rows[k + 1..]
    ensures forall i | 0 <= i < |shown| :: !Beyond(Some(rows[k]), shown[i])
    ensures forall i | 0 <= i < |rest| :: rest[i].createdAt <= rows[k].createdAt
  {
  }

  lemma Halves(rows: seq<Row>, k: nat)
    requires k <= |rows|
    ensures rows[..k] + rows[k..] == rows
  {
  }

  /** Rows up to the cursor's place are never asked for again; the others are those with smaller ids. */
  lemma AfterPage(rows: seq<Row>, k: nat)
    requires IsListed(rows) && k < |rows|
    ensures After(rows, Some(rows[k])) == Smaller(rows[k + 1..], rows[k].id)
  {
    ShownOrNotNewer(rows, k, rows[..k + 1], rows[k + 1..]);
    AfterParts(rows[..k + 1], rows[k + 1..], rows[k]);
    Halves(rows, k + 1);
  }

  lemma AfterParts(shown: seq<Row>, rest: seq<Row>, cursor: Row)
    requires forall i | 0 <= i < |shown| :: !Beyond(Some(cursor), shown[i])
    requires forall i | 0 <= i < |rest| :: rest[i].createdAt <= cursor.createdAt
    ensures After(shown + rest, Some(cursor)) == Smaller(rest, cursor.id)
  {
    AfterConcat(shown, rest, Some(cursor));
    NoneAfter(shown, Some(cursor));
    AfterIsSmaller(rest, cursor);
  }

  /** A cursor further on can be applied to what an earlier cursor left. */
  lemma {:induction false} AfterTwice(table: seq<Row>, cursor: Option<Row>, next: Row)
    requires Beyond(cursor, next)
    ensures After(After(table, cursor), Some(next)) == After(table, Some(next))
    decreases |table|
  {
    if table != [] {
      var n := |table| - 1;
      AfterTwice(table[..n], cursor, next);
      var rows := After(table[..n], cursor);
      if Beyond(cursor, table[n]) {
        AfterConcat(rows, [table[n]], Some(next));
      } else {
        assert After(table, cursor) == rows;
      }
    }
  }

  lemma {:induction false} AfterMembers(table: seq<Row>, cursor: Option<Row>, row: Row)
    ensures row in After(table, cursor) <==> row in table && Beyond(cursor, row)
  {
    if table != [] {
      var n := |table| - 1;
      assert table == table[..n] + [table[n]];
      AfterMembers(table[..n], cursor, row);
    }
  }

  lemma {:induction false} SmallerMembers(rows: seq<Row>, id: nat, row: Row)
    ensures row in Smaller(rows, id) <==> row in rows && row.id < id
  {
    if rows != [] {
      var n := |rows| - 1;
      assert rows == rows[..n] + [rows[n]];
      SmallerMembers(rows[..n], id, row);
    }
  }

  lemma ListedConcat(a: seq<Row>, b: seq<Row>)
    requires IsListed(a) && IsListed(b) && forall x, y | x in a && y in b :: Precedes(x, y) && x.id != y.id
    ensures IsListed(a + b)
  {
  }

  lemma {:induction false} AfterIsListed(table: seq<Row>, cursor: Option<Row>)
    requires IsListed(table)
    ensures IsListed(After(table, cursor))
  {
    if table != [] {
      var n := |table| - 1;
      AfterIsListed(table[..n], cursor);
      forall x | x in After(table[..n], cursor) ensures Precedes(x, table[n]) && x.id != table[n].id {
        AfterMembers(table[..n], cursor, x);
      }
      ListedConcat(After(table[..n], cursor), if Beyond(cursor, table[n]) then [table[n]] else []);
    }
  }

  lemma {:induction false} SmallerIsListed(rows: seq<Row>, id: nat)
    requires IsListed(rows)
    ensures IsListed(Smaller(rows, id))
  {
    if rows != [] {
      var n := |rows| - 1;
      SmallerIsListed(rows[..n], id);
      forall x | x in Smaller(rows[..n], id) ensures Precedes(x, rows[n]) && x.id != rows[n].id {
        SmallerMembers(rows[..n], id, x);
      }
      ListedConcat(Smaller(rows[..n], id), if rows[n].id < id then [rows[n]] else []);
    }
  }

  // ---------- what a scan returns ----------

  lemma {:induction false} ScanMembers(rows: seq<Row>, size: nat, row: Row)
    requires size > 0 && row in Scan(rows, size)
    ensures row in rows
    decreases |rows|
  {
    if |rows| > size && row !in rows[..size] {
      ScanMembers(Smaller(rows[size..], rows[size - 1].id), size, row);
      SmallerMembers(rows[size..], rows[size - 1].id, row);
    }
  }

  /** Whatever the data, a scan returns rows of the table, in the order of the table, and none twice. */
  lemma {:induction false} ScanNeverRepeats(rows: seq<Row>, size: nat)
    requires size > 0 && IsListed(rows)
    ensures IsListed(Scan(rows, size)) && forall row | row in Scan(rows, size) :: row in rows
    decreases |rows|
  {
    forall row | row in Scan(rows, size) ensures row in rows {
      ScanMembers(rows, size, row);
    }
    if |rows| > size {
      var page, rest := rows[..size], rows[size..];
      var tail := Smaller(rest, rows[size - 1].id);
      SmallerIsListed(rest, rows[size - 1].id);
      ScanNeverRepeats(tail, size);
      forall x, y | x in page && y in Scan(tail, size) ensures Precedes(x, y) && x.id != y.id {
        SmallerMembers(rest, rows[size - 1].id, y);
      }
      ListedConcat(page, Scan(tail, size));
    }
  }

  /** `m` is a whole number of pages, at least one. */
  predicate EndsPage(m: nat, size: nat)
    requires size > 0
  {
    m >= size && (m == size || EndsPage(m - size, size))
  }

  /** The last row of every full page has a larger id than all the rows after it. */
  ghost predicate BoundariesAgree(rows: seq<Row>, size: nat)
    requires size > 0
  {
    forall m: nat, j | m <= j < |rows| && EndsPage(m, size) :: rows[j].id < rows[m - 1].id
  }

  lemma BoundariesSplit(rows: seq<Row>, size: nat)
    requires 0 < size < |rows|
    ensures BoundariesAgree(rows, size) <==>
            (forall i | 0 <= i < |rows[size..]| :: rows[size..][i].id < rows[size - 1].id) && BoundariesAgree(rows[size..], size)
  {
    var rest := rows[size..];
    if BoundariesAgree(rows, size) {
      forall i | 0 <= i < |rest| ensures rest[i].id < rows[size - 1].id {
        assert rest[i] == rows[size + i] && EndsPage(size, size);
      }
      forall m: nat, j | m <= j < |rest| && EndsPage(m, size) ensures rest[j].id < rest[m - 1].id {
        assert EndsPage(m + size, size) && rest[j] == rows[size + j];
      }
    }
    if (forall i | 0 <= i < |rest| :: rest[i].id < rows[size - 1].id) && BoundariesAgree(rest, size) {
      forall m: nat, j | m <= j < |rows| && EndsPage(m, size) ensures rows[j].id < rows[m - 1].id {
        assert rows[j] == rest[j - size];
        if m > size {
          var k: nat := m - size;
          assert EndsPage(k, size) && rest[j - size].id < rest[k - 1].id;
        }
      }
    }
  }

  lemma {:induction false} ScanIsWholeIff(rows: seq<Row>, size: nat)
    requires size > 0
    ensures |Scan(rows, size)| == |rows| <==> BoundariesAgree(rows, size)
    decreases |rows|
  {
    if |rows| <= size {
      assert forall m: nat | EndsPage(m, size) :: m >= size;
    } else {
      BoundariesSplit(rows, size);
      var rest := rows[size..];
      var tail := Smaller(rest, rows[size - 1].id);
      if |tail| == |rest| { ScanIsWholeIff(rest, size); }
    }
  }

  function SetOf(rows: seq<Row>): set<Row> {
    set row | row in rows
  }

  lemma {:induction false} ListedSize(rows: seq<Row>)
    requires IsListed(rows)
    ensures |SetOf(rows)| == |rows|
  {
    if rows != [] {
      var n := |rows| - 1;
      assert rows == rows[..n] + [rows[n]];
      assert SetOf(rows) == SetOf(rows[..n]) + {rows[n]} && rows[n] !in rows[..n];
      ListedSize(rows[..n]);
    }
  }

  /**
    A scan returns every matching row exactly when, at the end of every page, the ids still to
    come are smaller; and then it returns the table itself.
   */
  lemma ScanIsCompleteIff(table: seq<Row>, size: nat)
    requires size > 0 && IsListed(table)
    ensures (forall row | row in table :: row in Scan(table, size)) <==> BoundariesAgree(table, size)
    ensures BoundariesAgree(table, size) ==> Scan(table, size) == table
  {
    var rows := Scan(table, size);
    ScanIsWholeIff(table, size);
    ScanNeverRepeats(table, size);
    if |rows| == |table| {
      ScanWhole(table, size);
    } else {
      ListedSize(table);
      ListedSize(rows);
      if forall row | row in table :: row in rows { SubsetSize(SetOf(table), SetOf(rows)); }
    }
  }

  lemma {:induction false} ScanWhole(rows: seq<Row>, size: nat)
    requires size > 0 && |Scan(rows, size)| == |rows|
    ensures Scan(rows, size) == rows
    decreases |rows|
  {
    if |rows| > size {
      assert rows == rows[..size] + rows[size..];
      ScanWhole(Smaller(rows[size..], rows[size - 1].id), size);
    }
  }

  /** Ids fall along the table: the order of ids agrees with the order of creation. */
  ghost predicate IdsAgree(table: seq<Row>) {
    forall i, j | 0 <= i < j < |table| :: table[j].id < table[i].id
  }

  predicate IsWhole(table: seq<Row>, size: nat)
    requires size > 0
  {
    Scan(table, size) == table
  }

  lemma AgreeingScans(table: seq<Row>, size: nat)
    requires IsListed(table) && IdsAgree(table) && size > 0
    ensures Scan(table, size) == table
  {
    ScanIsCompleteIff(table, size);
  }

  lemma SingleRowScan(table: seq<Row>)
    requires IsListed(table) && Scan(table, 1) == table
    ensures IdsAgree(table)
  {
    ScanIsCompleteIff(table, 1);
    forall i, j | 0 <= i < j < |table| ensures table[j].id < table[i].id {
      var m: nat := i + 1;
      EveryRowEndsAPage(m);
      assert m <= j && table[j].id < table[m - 1].id;
    }
  }

  /** Every page size gives a complete scan exactly when the two orders agree. */
  lemma EveryScanIsCompleteIff(table: seq<Row>)
    requires IsListed(table)
    ensures (forall size: nat | size > 0 :: IsWhole(table, size)) <==> IdsAgree(table)
  {
    if IdsAgree(table) {
      forall size: nat | size > 0 ensures IsWhole(table, size) {
        AgreeingScans(table, size);
      }
    } else if IsWhole(table, 1) {
      SingleRowScan(table);
    }
  }

  lemma {:induction false} EveryRowEndsAPage(m: nat)
    requires m > 0
    ensures EndsPage(m, 1)
  {
    if m > 1 { EveryRowEndsAPage(m - 1); }
  }

  /** An older row whose id is larger than that of the last row of the first page is never returned, whatever the page size. */
  lemma LostRow(table: seq<Row>, size: nat, j: nat)
    requires 0 < size <= j < |table| && IsListed(table) && table[j].id > table[size - 1].id
    ensures table[j] !in Scan(table, size)
  {
    var row, tail := table[j], Smaller(table[size..], table[size - 1].id);
    if row in Scan(tail, size) {
      ScanMembers(tail, size, row);
      SmallerMembers(table[size..], table[size - 1].id, row);
    }
  }

  // ---------- the loops ----------

  lemma AfterRow(table: seq<Row>, cursor: Option<Row>, k: nat)
    requires IsListed(table) && k < |After(table, cursor)|
    ensures var rows := After(table, cursor); After(table, Some(rows[k])) == Smaller(rows[k + 1..], rows[k].id)
  {
    var rows := After(table, cursor);
    AfterIsListed(table, cursor);
    AfterMembers(table, cursor, rows[k]);
    AfterTwice(table, cursor, rows[k]);
    AfterPage(rows, k);
  }

  lemma NextPage(table: seq<Row>, cursor: Option<Row>, size: nat)
    requires size > 0 && IsListed(table)
    ensures var page := Page(table, cursor, size);
            if page == [] then
              Scan(After(table, cursor), size) == []
            else
              && Scan(After(table, cursor), size) == page + Scan(After(table, Last(page)), size)
              && |After(table, Last(page))| < |After(table, cursor)|
  {
    var rows := After(table, cursor);
    if rows != [] {
      LastOfPage(table, cursor, size, rows);
      var k := EndOfPage(rows, size);
      AfterRow(table, cursor, k);
      PageOfRows(rows, size, After(table, Some(rows[k])));
    }
  }

  /** The place of the last row of the first page. */
  function EndOfPage(rows: seq<Row>, size: nat): (k: nat)
    requires size > 0 && rows != []
    ensures k < |rows|
  {
    if |rows| <= size then |rows| - 1 else size - 1
  }

  lemma LastOfPage(table: seq<Row>, cursor: Option<Row>, size: nat, rows: seq<Row>)
    requires size > 0 && rows == After(table, cursor) && rows != []
    ensures Page(table, cursor, size) == rows[..EndOfPage(rows, size) + 1]
    ensures Last(Page(table, cursor, size)) == Some(rows[EndOfPage(rows, size)])
  {
    if |rows| <= size { assert rows[..|rows|] == rows; }
  }

  lemma PageOfRows(rows: seq<Row>, size: nat, next: seq<Row>)
    requires size > 0 && rows != []
    requires var k := EndOfPage(rows, size); next == Smaller(rows[k + 1..], rows[k].id)
    ensures Scan(rows, size) == rows[..EndOfPage(rows, size) + 1] + Scan(next, size) && |next| < |rows|
  {
    if |rows| <= size { assert rows[|rows|..] == []; }
  }

  lemma {:induction false} AllAfterNone(table: seq<Row>)
    ensures After(table, None) == table
  {
    if table != [] { AllAfterNone(table[..|table| - 1]); }
  }

  /** One turn of the loop: fetch the page after the cursor and move the cursor. */
  method FetchPage(table: seq<Row>, cursor: Option<Row>, size: nat) returns (page: seq<Row>, next: Option<Row>, ghost left: seq<Row>)
    requires size > 0 && IsListed(table)
    ensures Scan(After(table, cursor), size) == page + left
    ensures left == if page == [] then [] else Scan(After(table, next), size)
    ensures page != [] ==> |After(table, next)| < |After(table, cursor)|
    ensures |page| <= size && (|page| < size ==> left == [])
  {
    page := Page(table, cursor, size);
    next := Last(page);
    left := if page == [] then [] else Scan(After(table, next), size);
    NextPage(table, cursor, size);
    if |page| < size { ShortPageIsLast(table, cursor, size); }
  }

  /** The job scan and the consumer list: pages until one is empty. */
  method ListAll(table: seq<Row>, size: nat) returns (rows: seq<Row>)
    requires size > 0 && IsListed(table)
    ensures rows == Scan(table, size)
  {
    rows := [];
    var cursor: Option<Row>, more := None, true;
    AllAfterNone(table);
    ghost var left := Scan(table, size);
    while more
      invariant rows + left == Scan(table, size)
      invariant left == if more then Scan(After(table, cursor), size) else []
      decreases more, |After(table, cursor)|
    {
      var page, next;
      page, next, left := FetchPage(table, cursor, size);
      Regroup(rows, page, left);
      rows := rows + page;
      if |page| > 0 { cursor := next; } else { more := false; }
    }
  }

  // ---------- a scan that stops early ----------

  /** The least whole number of pages, at least one, that holds `enough` rows. */
  function WholePages(size: nat, enough: int): (m: nat)
    requires size > 0
    ensures EndsPage(m, size) && m >= enough
    ensures m < enough + size || (enough <= 0 && m == size)
    decreases if enough > 0 then enough else 0
  {
    if enough <= size then size else size + WholePages(size, enough - size)
  }

  lemma {:induction false} WholePagesIsLeast(size: nat, enough: int, m: nat)
    requires size > 0 && EndsPage(m, size) && m >= enough
    ensures m >= WholePages(size, enough)
    decreases m
  {
    if enough > size {
      assert m != size;
      WholePagesIsLeast(size, enough - size, m - size);
    }
  }

  /** The first rows of the scan: as many whole pages as it takes to have enough, or all there are. */
  function ScanUpTo(table: seq<Row>, size: nat, enough: int): seq<Row>
    requires size > 0
  {
    var rows, m := Scan(table, size), WholePages(size, enough);
    if |rows| <= m then rows else rows[..m]
  }

  lemma FirstPageIsFull(table: seq<Row>, size: nat)
    requires size > 0
    ensures |table| <= size ==> Scan(table, size) == table
    ensures |table| >= size ==> |Scan(table, size)| >= size
  {
  }

  /**
    Fewer than `enough` plus a page of rows come back if and only if the limit is positive or
    the table is that small.
   */
  lemma LimitIsKeptIff(table: seq<Row>, size: nat, enough: int)
    requires size > 0
    ensures |ScanUpTo(table, size, enough)| < enough + size <==> enough > 0 || |table| < enough + size
  {
    FirstPageIsFull(table, size);
  }

  /** With a limit of zero a full page comes back, and so exactly as many rows as the limit plus a page. */
  lemma ZeroLimitReturnsAPage(table: seq<Row>, size: nat)
    requires 0 < size <= |table|
    ensures |ScanUpTo(table, size, 0)| == size
  {
    FirstPageIsFull(table, size);
  }

  /** Where the loop stands with `count` rows: short by whole pages, or at the end, or with exactly enough pages. */
  ghost predicate OnTheWay(count: nat, atEnd: bool, more: bool, size: nat, enough: int)
    requires size > 0
  {
    && count <= WholePages(size, enough)
    && (atEnd || if more then count == 0 || (EndsPage(count, size) && count < enough) else count == WholePages(size, enough))
  }

  lemma {:induction false} OnePageMore(m: nat, size: nat)
    requires size > 0 && (m == 0 || EndsPage(m, size))
    ensures EndsPage(m + size, size)
  {
  }

  lemma {:induction false} PagesBelow(m: nat, size: nat, enough: int)
    requires size > 0 && EndsPage(m, size) && m < enough
    ensures m + size <= WholePages(size, enough)
    decreases m
  {
    if m > size { PagesBelow(m - size, size, enough - size); }
  }

  /** Enough has come: what is there is the shortest such prefix. */
  lemma EnoughIsReached(size: nat, enough: int, before: nat, m: nat)
    requires size > 0 && (before == 0 || (EndsPage(before, size) && before < enough)) && m == before + size && m >= enough
    ensures m == WholePages(size, enough)
  {
    OnePageMore(before, size);
    WholePagesIsLeast(size, enough, m);
    if before > 0 { PagesBelow(before, size, enough); }
  }

  /** One turn of the loop, which goes on while the page has rows and there are not enough. */
  lemma NextTurn(count: nat, atEnd: bool, page: nat, endAfter: bool, size: nat, enough: int)
    requires size > 0 && OnTheWay(count, atEnd, true, size, enough)
    requires page <= size && (page < size ==> endAfter) && (atEnd ==> page == 0)
    ensures OnTheWay(count + page, endAfter, page > 0 && count + page < enough, size, enough)
  {
    if !atEnd {
      OnePageMore(count, size);
      if count > 0 { PagesBelow(count, size, enough); }
      if count + size >= enough { EnoughIsReached(size, enough, count, count + size); }
    }
  }

  /** A page that is not full is the last one. */
  lemma ShortPageIsLast(table: seq<Row>, cursor: Option<Row>, size: nat)
    requires size > 0 && IsListed(table) && |Page(table, cursor, size)| < size
    ensures Scan(After(table, cursor), size) == Page(table, cursor, size)
  {
  }

  lemma PrefixUpTo(table: seq<Row>, size: nat, enough: int, rows: seq<Row>, left: seq<Row>)
    requires size > 0 && rows + left == Scan(table, size) && |rows| <= WholePages(size, enough)
    requires left == [] || |rows| == WholePages(size, enough)
    ensures rows == ScanUpTo(table, size, enough)
  {
    if left == [] {
      assert rows + left == rows;
    } else {
      assert (rows + left)[..|rows|] == rows;
    }
  }

  /** Where the loop stands with `rows` returned and `left` to come. */
  ghost predicate InScan(table: seq<Row>, size: nat, enough: int, rows: seq<Row>, left: seq<Row>, cursor: Option<Row>, more: bool)
    requires size > 0
  {
    && rows + left == Scan(table, size) && OnTheWay(|rows|, left == [], more, size, enough)
    && (more ==> left == Scan(After(table, cursor), size))
  }

  /** One turn of the loop of the prune scan. */
  method FetchMore(table: seq<Row>, size: nat, enough: int, before: seq<Row>, cursor: Option<Row>, ghost left: seq<Row>)
    returns (rows: seq<Row>, next: Option<Row>, more: bool, ghost left': seq<Row>)
    requires size > 0 && IsListed(table) && InScan(table, size, enough, before, left, cursor, true)
    ensures InScan(table, size, enough, rows, left', next, more)
    ensures before <= rows && |rows| <= |before| + size && (left == [] ==> rows == before)
    ensures more <==> rows != before && |rows| < enough
    ensures more ==> |After(table, next)| < |After(table, cursor)|
  {
    var page;
    page, next, left' := FetchPage(table, cursor, size);
    assert left == [] ==> |page| == 0;
    NextTurn(|before|, left == [], |page|, left' == [], size, enough);
    Regroup(before, page, left');
    rows, more := before + page, |page| > 0;
    if more && |rows| >= enough { more := false; }
  }

  /** Pages end a page apart. */
  lemma {:induction false} NextEnd(m: nat, n: nat, size: nat)
    requires size > 0 && (m == 0 || EndsPage(m, size)) && EndsPage(n, size) && m < n
    ensures n >= m + size
    decreases m
  {
    if m > 0 && n > size {
      NextEnd(m - size, n - size, size);
    }
  }

  /** No query before the given number of rows failed. */
  ghost predicate NoneFailed(fails: nat -> bool, count: nat, size: nat)
    requires size > 0
  {
    forall n: nat | n < count && (n == 0 || EndsPage(n, size)) :: !fails(n)
  }

  lemma NoneFailedYet(fails: nat -> bool, count: nat, page: nat, size: nat)
    requires size > 0 && NoneFailed(fails, count, size) && (count == 0 || EndsPage(count, size) || page == 0)
    requires !fails(count) && page <= size
    ensures NoneFailed(fails, count + page, size)
  {
    forall n: nat | n < count + page && (n == 0 || EndsPage(n, size)) ensures !fails(n) {
      if count < n { NextEnd(count, n, size); }
    }
  }

  lemma PrefixOfUpTo(table: seq<Row>, size: nat, enough: int, rows: seq<Row>, left: seq<Row>)
    requires size > 0 && rows + left == Scan(table, size) && |rows| <= WholePages(size, enough)
    ensures rows <= ScanUpTo(table, size, enough) && (left == [] ==> rows == ScanUpTo(table, size, enough))
  {
    if left == [] { assert rows + left == rows; }
  }

  /**
    The scan for messages to prune: it also stops once it has enough rows, or when a query fails.
    `fails` says of the query that is sent when so many rows have been read whether it fails. What
    comes back then is the pages read before, and the caller is not told.
   */
  method ListUpTo(table: seq<Row>, size: nat, enough: int, fails: nat -> bool) returns (rows: seq<Row>, ghost failed: bool)
    requires size > 0 && IsListed(table)
    ensures rows <= ScanUpTo(table, size, enough) && (!failed ==> rows == ScanUpTo(table, size, enough))
    ensures failed == (fails(|rows|) && (rows == [] || |rows| < enough)) && NoneFailed(fails, |rows|, size)
    ensures rows == [] || EndsPage(|rows|, size) || rows == ScanUpTo(table, size, enough)
  {
    rows, failed := [], false;
    var cursor: Option<Row>, more := None, true;
    AllAfterNone(table);
    ghost var left := Scan(table, size);
    assert rows + left == left;
    while more
      invariant InScan(table, size, enough, rows, left, cursor, more) && !failed && NoneFailed(fails, |rows|, size)
      invariant !more ==> !fails(|rows|) || (rows != [] && |rows| >= enough)
      invariant more ==> rows == [] || |rows| < enough
      decreases more, |After(table, cursor)|
    {
      if fails(|rows|) {
        PrefixOfUpTo(table, size, enough, rows, left);
        return rows, true;
      }
      ghost var before := rows;
      rows, cursor, more, left := FetchMore(table, size, enough, rows, cursor, left);
      NoneFailedYet(fails, |before|, |rows| - |before|, size);
    }
    PrefixUpTo(table, size, enough, rows, left);
  }
}
