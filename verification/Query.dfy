/** The join query with its two filters and its pagination (src/rest/routes/v1/mod.rs). */
module Query {
  import opened MachineInts
  import opened Wrappers
  import opened Models
  import opened Store

  datatype ApiError = ServiceUnavailable | InternalServerError

  datatype PaginationParams = PaginationParams(page: Option<u32>, pageSize: Option<u32>)

  const DEFAULT_PAGE: u32 := 1
  const DEFAULT_PAGE_SIZE: u32 := 10

  type RowFilter = (StoredObject, ExpirationRow) -> bool

  /** The order in which the database visits the objects. The query has no ORDER BY, so any order
      may be used; for an unchanged database it is some fixed one. */
  ghost predicate IsScan(t: Tables, scan: seq<Address>) {
    && (forall i, j | 0 <= i < j < |scan| :: scan[i] != scan[j])
    && forall x :: x in scan <==> x in t.objects
  }

  /** Objects inner-joined with their expiration rows, filtered, in scan order. */
  function JoinWhere(t: Tables, scan: seq<Address>, keep: RowFilter): seq<StoredObject>
    requires forall x <- scan :: x in t.objects
  {
    if scan == [] then []
    else
      var x, rest := scan[0], JoinWhere(t, scan[1..], keep);
      if x in t.expirations && keep(t.objects[x], t.expirations[x]) then [t.objects[x]] + rest else rest
  }

  /** Owner or return address before resolution. */
  predicate Mentions(row: ExpirationRow, address: Address) {
    row.owner == address || row.returnAddress == address
  }

  /** The owner strictly before the expiration, the return address from it on. */
  predicate ResolvesTo(row: ExpirationRow, address: Address, now: i64) {
    || (row.owner == address && row.unixTime * 1000 > now)
    || (row.returnAddress == address && row.unixTime * 1000 <= now)
  }

  function Unresolved(objectType: ObjectType, address: Address): RowFilter {
    (o: StoredObject, row: ExpirationRow) => o.objectType == objectType && Mentions(row, address)
  }

  function Resolved(objectType: ObjectType, address: Address, now: i64): RowFilter {
    (o: StoredObject, row: ExpirationRow) => o.objectType == objectType && ResolvesTo(row, address, now)
  }

  /** The offset as a release build computes it. */
  function Offset(page: u32, pageSize: u32): u32 {
    WrappingMul(WrappingSub(page, 1), pageSize)
  }

  /** LIMIT and OFFSET. */
  function Window<T>(rows: seq<T>, offset: nat, limit: nat): seq<T> {
    rows[Min(offset, |rows|)..Min(offset + limit, |rows|)]
  }

  function Page<T>(rows: seq<T>, page: u32, pageSize: u32): seq<T> {
    Window(rows, Offset(page, pageSize), pageSize)
  }

  /** The whole result, before pagination. */
  function Matching(
    t: Tables, scan: seq<Address>, latestTimestampMs: Option<u64>,
    address: Address, objectType: ObjectType, resolve: bool)
    : seq<StoredObject>
    requires IsScan(t, scan) && (resolve ==> latestTimestampMs.Some?)
  {
    JoinWhere(t, scan,
      if resolve then Resolved(objectType, address, AsI64(latestTimestampMs.value))
      else Unresolved(objectType, address))
  }

  function FetchStoredObjects(
    t: Tables, scan: seq<Address>, latestTimestampMs: Option<u64>,
    address: Address, pagination: PaginationParams, objectType: ObjectType, resolve: bool)
    : Result<seq<StoredObject>, ApiError>
    requires IsScan(t, scan)
  {
    if resolve && latestTimestampMs.None? then Failure(ServiceUnavailable)
    else
      var page := if pagination.page.Some? then pagination.page.value else DEFAULT_PAGE;
      var pageSize := if pagination.pageSize.Some? then pagination.pageSize.value else DEFAULT_PAGE_SIZE;
      Success(Page(Matching(t, scan, latestTimestampMs, address, objectType, resolve), page, pageSize))
  }

  /** A row of the result is a joined row that passes the filter, and the other way round. */
  lemma {:induction false} JoinMember(t: Tables, scan: seq<Address>, keep: RowFilter, o: StoredObject)
    requires forall x <- scan :: x in t.objects
    ensures o in JoinWhere(t, scan, keep)
       <==> exists x <- scan :: x in t.expirations && t.objects[x] == o && keep(o, t.expirations[x])
  {
    if scan == [] {
    } else {
      JoinMember(t, scan[1..], keep, o);
      assert forall x :: x in scan <==> x == scan[0] || x in scan[1..];
    }
  }

  ghost function KeptAmong(t: Tables, ids: set<Address>, keep: RowFilter): set<Address> {
    set x | x in ids && x in t.objects && x in t.expirations && keep(t.objects[x], t.expirations[x])
  }

  ghost function Kept(t: Tables, keep: RowFilter): set<Address> {
    KeptAmong(t, t.objects.Keys, keep)
  }

  /** The length of the result does not depend on the order of the scan. */
  lemma JoinCount(t: Tables, scan: seq<Address>, keep: RowFilter)
    requires IsScan(t, scan)
    ensures |JoinWhere(t, scan, keep)| == |Kept(t, keep)|
  {
    DistinctJoinCount(t, scan, t.objects.Keys, keep);
  }

  lemma {:induction false} DistinctJoinCount(t: Tables, scan: seq<Address>, ids: set<Address>, keep: RowFilter)
    requires forall x <- scan :: x in t.objects
    requires forall i, j | 0 <= i < j < |scan| :: scan[i] != scan[j]
    requires forall x :: x in ids <==> x in scan
    ensures |JoinWhere(t, scan, keep)| == |KeptAmong(t, ids, keep)|
  {
    var kept := KeptAmong(t, ids, keep);
    if scan == [] {
      assert kept == {};
    } else {
      var x := scan[0];
      var rest := KeptAmong(t, ids - {x}, keep);
      assert forall y :: y in scan <==> y == x || y in scan[1..];
      DistinctJoinCount(t, scan[1..], ids - {x}, keep);
      assert kept == if x in t.expirations && keep(t.objects[x], t.expirations[x]) then rest + {x} else rest;
    }
  }

  /** The offset is the true one exactly when nothing wraps. */
  lemma OffsetIsExactIff(page: u32, pageSize: u32)
    ensures Offset(page, pageSize) == (page - 1) * pageSize
       <==> pageSize == 0 || (1 <= page && (page - 1) * pageSize < TWO_TO_THE_32)
  {
    if page == 0 {
      assert WrappingSub(page, 1) == TWO_TO_THE_32 - 1;
      if pageSize != 0 {
        assert (page - 1) * pageSize < 0;
      }
    } else if pageSize != 0 {
      assert WrappingSub(page, 1) == page - 1;
      assert 0 <= (page - 1) * pageSize;
    }
  }

  /** The number of rows before a page, as far as 32 bits tell; page 0 included. */
  function RowsBefore(page: u32, pageSize: u32): (n: u32)
    ensures 0 <= (page - 1) * pageSize < TWO_TO_THE_32 ==> n == (page - 1) * pageSize
  {
    var before: int := (page - 1) * pageSize;
    LowBits(before)
  }

  lemma OffsetIsRowsBefore(page: u32, pageSize: u32)
    ensures Offset(page, pageSize) == RowsBefore(page, pageSize)
  {
    if page == 0 {
      assert (TWO_TO_THE_32 - 1) * pageSize == TWO_TO_THE_32 * pageSize - pageSize;
    }
  }

  /** Pages 1 to `n`, one after the other. */
  function Pages<T>(rows: seq<T>, n: u32, pageSize: u32): seq<T> {
    if n == 0 then [] else Pages(rows, n - 1, pageSize) + Page(rows, n, pageSize)
  }

  /** A page whose offset fits continues the rows before it. */
  lemma PageContinues<T>(rows: seq<T>, before: nat, page: u32, pageSize: u32)
    requires page >= 1 && before == (page - 1) * pageSize && Offset(page, pageSize) == before
    ensures rows[..Min(before, |rows|)] + Page(rows, page, pageSize) == rows[..Min(before + pageSize, |rows|)]
  {
  }

  /** The first pages are the first rows, as long as the last offset fits. */
  lemma {:induction false} PagesAreAPrefix<T>(rows: seq<T>, n: u32, pageSize: u32)
    requires n >= 1 ==> (n - 1) * pageSize < TWO_TO_THE_32
    ensures Pages(rows, n, pageSize) == rows[..Min(n * pageSize, |rows|)]
  {
    if n == 0 {
    } else {
      var before := (n - 1) * pageSize;
      assert n * pageSize == before + pageSize;
      if n >= 2 {
        assert (n - 2) * pageSize <= before;
      }
      PagesAreAPrefix(rows, n - 1, pageSize);
      OffsetIsExactIff(n, pageSize);
      PageContinues(rows, before, n, pageSize);
    }
  }

  /** The pages that are needed give every row once, in order. */
  lemma PagesTile<T>(rows: seq<T>, n: u32, pageSize: u32)
    requires pageSize >= 1 && (n - 1) * pageSize < |rows| <= n * pageSize
    requires n >= 1 ==> (n - 1) * pageSize < TWO_TO_THE_32
    ensures Pages(rows, n, pageSize) == rows
  {
    PagesAreAPrefix(rows, n, pageSize);
  }

  /** A page is the rows it stands for exactly when its offset does not wrap, or wraps past the
      end of the result; the pages after the last are then empty. */
  lemma PageIsRightIff<T>(rows: seq<T>, page: u32, pageSize: u32)
    requires |rows| <= TWO_TO_THE_32 && page >= 1 && pageSize >= 1
    ensures Page(rows, page, pageSize) == Window(rows, (page - 1) * pageSize, pageSize)
       <==> (page - 1) * pageSize < TWO_TO_THE_32 || |rows| <= Offset(page, pageSize)
    ensures |rows| <= (page - 1) * pageSize < TWO_TO_THE_32 ==> Page(rows, page, pageSize) == []
  {
    OffsetIsExactIff(page, pageSize);
    var offset := Offset(page, pageSize);
    assert |Page(rows, page, pageSize)| == Min(offset + pageSize, |rows|) - Min(offset, |rows|);
  }

  /** One that does not: page 65537 of 65536 rows is the first page again. */
  lemma WrappedPageRepeats<T>(rows: seq<T>)
    ensures Page(rows, 65537, 65536) == Page(rows, 1, 65536)
  {
    assert Offset(65537, 65536) == 0 == Offset(1, 65536);
  }

  /** What a client gets that asks for pages 1 to `n` one after the other. */
  function FetchPages(
    t: Tables, scan: seq<Address>, latestTimestampMs: Option<u64>,
    address: Address, objectType: ObjectType, resolve: bool, n: u32, pageSize: u32)
    : seq<StoredObject>
    requires IsScan(t, scan) && (resolve ==> latestTimestampMs.Some?)
  {
    if n == 0 then []
    else
      var pagination := PaginationParams(Some(n), Some(pageSize));
      FetchPages(t, scan, latestTimestampMs, address, objectType, resolve, n - 1, pageSize)
      + FetchStoredObjects(t, scan, latestTimestampMs, address, pagination, objectType, resolve).value
  }

  lemma {:induction false} FetchPagesArePages(
    t: Tables, scan: seq<Address>, latestTimestampMs: Option<u64>,
    address: Address, objectType: ObjectType, resolve: bool, n: u32, pageSize: u32)
    requires IsScan(t, scan) && (resolve ==> latestTimestampMs.Some?)
    ensures FetchPages(t, scan, latestTimestampMs, address, objectType, resolve, n, pageSize)
         == Pages(Matching(t, scan, latestTimestampMs, address, objectType, resolve), n, pageSize)
  {
    if n == 0 {
    } else {
      FetchPagesArePages(t, scan, latestTimestampMs, address, objectType, resolve, n - 1, pageSize);
    }
  }

  /** On an unchanged database a client that asks for all the pages gets the whole result. */
  lemma FetchedPagesTile(
    t: Tables, scan: seq<Address>, latestTimestampMs: Option<u64>,
    address: Address, objectType: ObjectType, resolve: bool, n: u32, pageSize: u32)
    requires IsScan(t, scan) && (resolve ==> latestTimestampMs.Some?)
    requires var count := |Matching(t, scan, latestTimestampMs, address, objectType, resolve)|;
             pageSize >= 1 && (n - 1) * pageSize < count <= n * pageSize
    requires n >= 1 ==> (n - 1) * pageSize < TWO_TO_THE_32
    ensures FetchPages(t, scan, latestTimestampMs, address, objectType, resolve, n, pageSize)
         == Matching(t, scan, latestTimestampMs, address, objectType, resolve)
  {
    FetchPagesArePages(t, scan, latestTimestampMs, address, objectType, resolve, n, pageSize);
    PagesTile(Matching(t, scan, latestTimestampMs, address, objectType, resolve), n, pageSize);
  }

  /** The page defaults to 1 and its size to 10, each on its own. */
  lemma FetchedIsWindow(
    t: Tables, scan: seq<Address>, latestTimestampMs: Option<u64>,
    address: Address, pagination: PaginationParams, objectType: ObjectType, resolve: bool)
    requires IsScan(t, scan) && (resolve ==> latestTimestampMs.Some?)
    ensures var rows := Matching(t, scan, latestTimestampMs, address, objectType, resolve);
            var page := match pagination.page case None => 1 case Some(n) => n;
            var size := match pagination.pageSize case None => 10 case Some(n) => n;
            var offset := RowsBefore(page, size);
            FetchStoredObjects(t, scan, latestTimestampMs, address, pagination, objectType, resolve)
            == Success(rows[Min(offset, |rows|)..Min(offset + size, |rows|)])
  {
    var page := match pagination.page case None => 1 case Some(n) => n;
    var size := match pagination.pageSize case None => 10 case Some(n) => n;
    OffsetIsRowsBefore(page, size);
  }
}
