/**
 * `getTransactions`: the user's transactions, optionally limited to a
 * date range, newest first, one page at a time, with the number of
 * matching transactions counted before paging.
 *
 * The order in which the database scans the table is an input (`scan`,
 * any arrangement of the transaction ids); the model sorts stably, so
 * rows with equal date and creation time keep that scan order, which the
 * database leaves open.
 */
module TransactionList {
  import opened Wrappers
  import opened Uuid
  import opened Errors
  import opened Dates
  import opened Store
  import opened Sorting
  import opened TransactionService

  // ------------------------------------------------------- Kotlin `Int`

  const TwoTo32: int := 0x1_0000_0000
  const IntMin: int := -0x8000_0000
  const IntMax: int := 0x7fff_ffff

  predicate IsInt32(n: int) {
    IntMin <= n <= IntMax
  }

  /** Two's-complement wrap-around of 32-bit `Int` arithmetic. */
  function Wrap32(n: int): (r: int)
    ensures IsInt32(r)
    ensures (r - n) % TwoTo32 == 0
    ensures IsInt32(n) ==> r == n
  {
    var m := n % TwoTo32;
    if m > IntMax then m - TwoTo32 else m
  }

  // ----------------------------------------------------------- filtering

  datatype TransactionList = TransactionList(transactions: seq<TransactionView>, total: int, page: int, pageSize: int)

  /** The optional date filter: `None` when the text is given and `LocalDate.parse` rejects it. */
  function ReadBound(s: Option<string>): (r: Option<Option<Date>>)
    ensures r.Some? <==> s.None? || ParseDate(s.value).Some?
    ensures s.None? ==> r == Some(None)
  {
    if s.None? then Some(None)
    else if ParseDate(s.value).None? then None
    else Some(Some(ParseDate(s.value).value))
  }

  /** The `where` clause: the user's transaction, dated within the bounds that are given. */
  predicate Matches(row: TxnRow, owner: Id, from: Option<Date>, to: Option<Date>) {
    row.owner == owner
    && (from.Some? ==> Le(from.value, row.date))
    && (to.Some? ==> Le(row.date, to.value))
  }

  /** `scan` lists every transaction id once. */
  predicate IsScan(txns: map<Id, TxnRow>, scan: seq<Id>) {
    && (forall i :: 0 <= i < |scan| ==> scan[i] in txns)
    && (forall t :: t in txns ==> t in scan)
    && (forall i, j :: 0 <= i < j < |scan| ==> scan[i] != scan[j])
  }

  /** The rows the filtered query returns, in scan order. */
  function Listed(txns: map<Id, TxnRow>, owner: Id, from: Option<Date>, to: Option<Date>, scan: seq<Id>)
    : (r: seq<TxnRow>)
    requires forall i :: 0 <= i < |scan| ==> scan[i] in txns
    ensures |r| <= |scan|
  {
    if scan == [] then []
    else
      var init := scan[..|scan| - 1];
      var row := txns[scan[|scan| - 1]];
      Listed(txns, owner, from, to, init) + (if Matches(row, owner, from, to) then [row] else [])
  }

  /** A row is listed exactly when it is a matching transaction the scan visits. */
  lemma {:induction false} ListedMembers(txns: map<Id, TxnRow>, owner: Id, from: Option<Date>, to: Option<Date>,
                                         scan: seq<Id>, x: TxnRow)
    requires forall i :: 0 <= i < |scan| ==> scan[i] in txns
    ensures x in Listed(txns, owner, from, to, scan) <==>
      Matches(x, owner, from, to) && exists i :: 0 <= i < |scan| && txns[scan[i]] == x
  {
    if scan != [] {
      var init := scan[..|scan| - 1];
      ListedMembers(txns, owner, from, to, init, x);
      if x in Listed(txns, owner, from, to, init) {
        var i :| 0 <= i < |init| && txns[init[i]] == x;
        assert txns[scan[i]] == x;
      }
      if Matches(x, owner, from, to) && exists i :: 0 <= i < |scan| && txns[scan[i]] == x {
        var i :| 0 <= i < |scan| && txns[scan[i]] == x;
        if i < |init| {
          assert txns[init[i]] == x;
        }
      }
    }
  }

  /** With a full scan, the listed rows are exactly the user's transactions in the range. */
  lemma ListedExactly(txns: map<Id, TxnRow>, owner: Id, from: Option<Date>, to: Option<Date>, scan: seq<Id>,
                      x: TxnRow)
    requires IsScan(txns, scan)
    ensures x in Listed(txns, owner, from, to, scan) <==> x in txns.Values && Matches(x, owner, from, to)
  {
    ListedMembers(txns, owner, from, to, scan, x);
    if x in txns.Values {
      var t :| t in txns && txns[t] == x;
      var i :| 0 <= i < |scan| && scan[i] == t;
    }
  }

  /** No two rows share an id. */
  predicate UniqueIds(xs: seq<TxnRow>) {
    forall i, j :: 0 <= i < j < |xs| ==> xs[i].id != xs[j].id
  }

  /** Each transaction of the scan is listed at most once. */
  lemma {:induction false} ListedOnce(txns: map<Id, TxnRow>, owner: Id, from: Option<Date>, to: Option<Date>,
                                      scan: seq<Id>)
    requires forall i :: 0 <= i < |scan| ==> scan[i] in txns && txns[scan[i]].id == scan[i]
    requires forall i, j :: 0 <= i < j < |scan| ==> scan[i] != scan[j]
    ensures UniqueIds(Listed(txns, owner, from, to, scan))
  {
    if scan != [] {
      var init := scan[..|scan| - 1];
      var last := scan[|scan| - 1];
      ListedOnce(txns, owner, from, to, init);
      var prev := Listed(txns, owner, from, to, init);
      forall i | 0 <= i < |prev|
        ensures prev[i].id != last
      {
        ListedMembers(txns, owner, from, to, init, prev[i]);
        var k :| 0 <= k < |init| && txns[init[k]] == prev[i];
        assert init[k] == scan[k];
      }
    }
  }

  // ------------------------------------------------------------ ordering

  /** `orderBy(date DESC, createdAt DESC)` as an ascending key. */
  function NewestFirst(row: TxnRow): (int, int) {
    (-Ordinal(row.date), -row.createdAt)
  }

  /** Sorted rows run from the latest date back, and within a date from the latest creation back. */
  lemma NewestFirstOrder(rows: seq<TxnRow>, i: nat, j: nat)
    requires SortedBy(rows, NewestFirst) && i < j < |rows|
    ensures Le(rows[j].date, rows[i].date)
    ensures rows[i].date == rows[j].date ==> rows[j].createdAt <= rows[i].createdAt
  {
    assert KeyLe(NewestFirst(rows[i]), NewestFirst(rows[j]));
  }

  // -------------------------------------------------------------- paging

  /** How many rows a page holds: a full page, or what is left of the listing from `offset` on. */
  function PageLength(n: nat, offset: nat, size: nat): nat {
    if offset >= n then 0 else if size < n - offset then size else n - offset
  }

  /** `limit(size).offset(offset)` on an ordered result. */
  function Window<T>(xs: seq<T>, offset: nat, size: nat): (r: seq<T>)
    ensures |r| == PageLength(|xs|, offset, size)
    ensures forall i :: 0 <= i < |r| ==> r[i] == xs[offset + i]
  {
    if offset >= |xs| then []
    else if size < |xs| - offset then xs[offset..offset + size]
    else xs[offset..]
  }

  /** The offset as `((page - 1) * pageSize).toLong()` computes it: the product is taken in 32-bit `Int`. */
  function OffsetAsWritten(page: int, pageSize: int): (r: int)
    ensures IsInt32(r)
    ensures IsInt32(page - 1) && IsInt32((page - 1) * pageSize) ==> r == (page - 1) * pageSize
  {
    var p := Wrap32(page - 1);
    assert IsInt32(page - 1) ==> p * pageSize == (page - 1) * pageSize;
    Wrap32(p * pageSize)
  }

  /** The offset the listing means: the rows of all earlier pages. */
  function PageOffset(page: int, pageSize: int): int {
    (page - 1) * pageSize
  }

  /** Page 65537 of size 65536 starts, as written, at offset 0 rather than 2^32. */
  lemma OffsetWraps()
    ensures OffsetAsWritten(65537, 65536) == 0
    ensures PageOffset(65537, 65536) == TwoTo32
  {
  }

  /** As written, that far page repeats the first page; the intended page is empty for any shorter listing. */
  lemma FarPageRepeatsFirst<T>(xs: seq<T>)
    requires 0 < |xs| < TwoTo32
    ensures Window(xs, OffsetAsWritten(65537, 65536), 65536) == Window(xs, PageOffset(1, 65536), 65536)
    ensures Window(xs, PageOffset(65537, 65536), 65536) == []
    ensures Window(xs, OffsetAsWritten(65537, 65536), 65536) != []
  {
    OffsetWraps();
  }

  /** Pages of a positive size cover the listing: item `i` is item `i % s` of page `i / s + 1`. */
  lemma PagesCover<T>(xs: seq<T>, s: nat, i: nat)
    requires 0 < s && i < |xs|
    ensures var w := Window(xs, PageOffset(i / s + 1, s), s); i % s < |w| && w[i % s] == xs[i]
  {
    assert PageOffset(i / s + 1, s) == (i / s) * s;
    assert (i / s) * s + i % s == i;
  }

  /** Two different pages share no position of the listing. */
  lemma PagesDisjoint(s: nat, p: int, q: int, k: nat, l: nat)
    requires 0 < s && 1 <= p < q && k < s && l < s
    ensures PageOffset(p, s) + k != PageOffset(q, s) + l
  {
    MulStep(q - 1, p - 1, s);
  }

  lemma {:induction false} MulStep(a: int, b: int, s: nat)
    requires b < a
    ensures b * s + s <= a * s
    decreases a - b
  {
    if b + 1 < a {
      MulStep(a, b + 1, s);
    }
  }

  // ------------------------------------------------------------- listing

  /**
   * Why the listing fails: an unreadable date, or a negative `limit` or
   * `offset`, which the database rejects; the offset is the one the
   * service sends, taken in 32-bit `Int`.
   */
  function ListFailure(startDate: Option<string>, endDate: Option<string>, page: int, pageSize: int)
    : (r: Option<Failure>)
    ensures r.None? <==>
      ReadBound(startDate).Some? && ReadBound(endDate).Some? && 0 <= pageSize && 0 <= OffsetAsWritten(page, pageSize)
    ensures r.Some? ==> r == Some(Unexpected)
  {
    if ReadBound(startDate).None? || ReadBound(endDate).None? then Some(Unexpected)
    else if pageSize < 0 || OffsetAsWritten(page, pageSize) < 0 then Some(Unexpected)
    else None
  }

  /** The views of some listed rows, each with its splits. */
  function Views(accounts: map<Id, AccountRow>, txns: map<Id, TxnRow>, splits: seq<SplitRow>, rows: seq<TxnRow>)
    : (r: seq<TransactionView>)
    requires forall i :: 0 <= i < |rows| ==> rows[i].id in txns
    ensures |r| == |rows|
    ensures forall i :: 0 <= i < |rows| ==> r[i] == View(accounts, txns, splits, rows[i].id)
  {
    seq(|rows|, i requires 0 <= i < |rows| => View(accounts, txns, splits, rows[i].id))
  }

  /** The matching transactions, newest first. */
  function Ordered(txns: map<Id, TxnRow>, owner: Id, from: Option<Date>, to: Option<Date>, scan: seq<Id>)
    : seq<TxnRow>
    requires forall i :: 0 <= i < |scan| ==> scan[i] in txns
  {
    SortBy(Listed(txns, owner, from, to, scan), NewestFirst)
  }

  /** `getTransactions`. */
  function ListTransactions(accounts: map<Id, AccountRow>, txns: map<Id, TxnRow>, splits: seq<SplitRow>,
                            owner: Id, startDate: Option<string>, endDate: Option<string>,
                            page: int, pageSize: int, scan: seq<Id>)
    : (r: Result<TransactionList>)
    requires IsScan(txns, scan) && forall t :: t in txns ==> txns[t].id == t
    requires IsInt32(page) && IsInt32(pageSize)
    ensures r.Err? <==> ListFailure(startDate, endDate, page, pageSize).Some?
    ensures r.Err? ==> r.failure == Unexpected
    ensures r.Ok? ==>
      var rows := Ordered(txns, owner, ReadBound(startDate).value, ReadBound(endDate).value, scan);
      && r.value.total == |rows| && r.value.page == page && r.value.pageSize == pageSize
      && |r.value.transactions| <= pageSize
      && var offset := OffsetAsWritten(page, pageSize);
      && PageLength(|rows|, offset, pageSize) == |r.value.transactions|
      && forall i :: 0 <= i < |r.value.transactions| ==>
           offset + i < |rows| && rows[offset + i].id in txns
           && r.value.transactions[i] == View(accounts, txns, splits, rows[offset + i].id)
  {
    var refused := ListFailure(startDate, endDate, page, pageSize);
    if refused.Some? then Err(refused.value)
    else
      var rows := Ordered(txns, owner, ReadBound(startDate).value, ReadBound(endDate).value, scan);
      ListedIds(txns, owner, ReadBound(startDate).value, ReadBound(endDate).value, scan);
      var offset := OffsetAsWritten(page, pageSize);
      Ok(ListPage(accounts, txns, splits, rows, page, pageSize, offset))
  }

  /** One page of `rows`, `pageSize` of them from `offset` on, with the count of all of them. */
  function ListPage(accounts: map<Id, AccountRow>, txns: map<Id, TxnRow>, splits: seq<SplitRow>, rows: seq<TxnRow>,
                    page: int, pageSize: int, offset: int)
    : (r: TransactionList)
    requires forall x :: x in rows ==> x.id in txns
    requires 0 <= pageSize && 0 <= offset
    ensures r.total == |rows| && r.page == page && r.pageSize == pageSize
    ensures |r.transactions| <= pageSize
    ensures |r.transactions| == PageLength(|rows|, offset, pageSize)
    ensures forall i :: 0 <= i < |r.transactions| ==>
      offset + i < |rows| && rows[offset + i].id in txns
      && r.transactions[i] == View(accounts, txns, splits, rows[offset + i].id)
  {
    var shown := Window(rows, offset, pageSize);
    assert forall i :: 0 <= i < |shown| ==> shown[i] in rows;
    TransactionList(Views(accounts, txns, splits, shown), |rows|, page, pageSize)
  }

  lemma ListedIds(txns: map<Id, TxnRow>, owner: Id, from: Option<Date>, to: Option<Date>, scan: seq<Id>)
    requires forall i :: 0 <= i < |scan| ==> scan[i] in txns
    requires forall t :: t in txns ==> txns[t].id == t
    ensures forall x :: x in Ordered(txns, owner, from, to, scan) ==>
      x.id in txns && txns[x.id] == x && Matches(x, owner, from, to)
  {
    var listed := Listed(txns, owner, from, to, scan);
    forall x | x in Ordered(txns, owner, from, to, scan)
      ensures x.id in txns && txns[x.id] == x && Matches(x, owner, from, to)
    {
      SortByMembers(listed, NewestFirst, x);
      ListedMembers(txns, owner, from, to, scan, x);
    }
  }

  /** Every matching transaction is among the rows a listing pages through. */
  lemma OrderedComplete(txns: map<Id, TxnRow>, owner: Id, from: Option<Date>, to: Option<Date>, scan: seq<Id>, t: Id)
    requires IsScan(txns, scan)
    requires t in txns && Matches(txns[t], owner, from, to)
    ensures txns[t] in Ordered(txns, owner, from, to, scan)
  {
    var listed := Listed(txns, owner, from, to, scan);
    ListedExactly(txns, owner, from, to, scan, txns[t]);
    SortByMembers(listed, NewestFirst, txns[t]);
  }

  /** No transaction appears twice among the rows a listing pages through. */
  lemma OrderedOnce(txns: map<Id, TxnRow>, owner: Id, from: Option<Date>, to: Option<Date>, scan: seq<Id>)
    requires IsScan(txns, scan) && forall t :: t in txns ==> txns[t].id == t
    ensures UniqueIds(Ordered(txns, owner, from, to, scan))
  {
    forall i | 0 <= i < |scan|
      ensures txns[scan[i]].id == scan[i]
    {
    }
    var listed := Listed(txns, owner, from, to, scan);
    ListedOnce(txns, owner, from, to, scan);
    DistinctIdsSorted(listed);
    assert Ordered(txns, owner, from, to, scan) == SortBy(listed, NewestFirst);
  }

  /** Sorting keeps rows with distinct ids distinct. */
  lemma DistinctIdsSorted(xs: seq<TxnRow>)
    requires UniqueIds(xs)
    ensures UniqueIds(SortBy(xs, NewestFirst))
  {
    var r := SortBy(xs, NewestFirst);
    forall i, j | 0 <= i < j < |xs|
      ensures xs[i] != xs[j]
    {
    }
    SortByDistinct(xs, NewestFirst);
    forall i, j | 0 <= i < j < |r|
      ensures r[i].id != r[j].id
    {
      SortByMembers(xs, NewestFirst, r[i]);
      SortByMembers(xs, NewestFirst, r[j]);
      var a :| 0 <= a < |xs| && xs[a] == r[i];
      var b :| 0 <= b < |xs| && xs[b] == r[j];
      assert a != b;
    }
  }
}
