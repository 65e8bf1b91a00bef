/** Decoding the fetched rows into responses (src/rest/routes/v1/basic.rs and nft.rs), and the join
    against decoding every object. */
module Responses {
  import opened MachineInts
  import opened Wrappers
  import opened Models
  import opened Store
  import opened Query

  datatype ExpirationView = ExpirationView(owner: Address, returnAddress: Address, unixTime: u64)

  datatype OutputView = OutputView(id: Address, balance: u64, expiration: Option<ExpirationView>)

  function View(output: Output): OutputView {
    OutputView(output.id, output.balance,
      match output.expiration
      case None => None
      case Some(e) => Some(ExpirationView(e.owner, e.returnAddress, e.unixTime)))
  }

  /** All rows of one type, or an error if any of them is not one. */
  function ToOutputs(codec: Codec, expected: ObjectType, rows: seq<StoredObject>)
    : Result<seq<OutputView>, ApiError>
  {
    if rows == [] then Success([])
    else
      match DecodeAs(codec, expected, rows[0])
      case Failure(_) => Failure(InternalServerError)
      case Success(output) =>
        var rest :- ToOutputs(codec, expected, rows[1..]);
        Success([View(output)] + rest)
  }

  /** The handler of one route: fetch, then decode. */
  function Serve(
    codec: Codec, t: Tables, scan: seq<Address>, latestTimestampMs: Option<u64>,
    address: Address, pagination: PaginationParams, objectType: ObjectType, resolve: bool)
    : Result<seq<OutputView>, ApiError>
    requires IsScan(t, scan)
  {
    var rows :- FetchStoredObjects(t, scan, latestTimestampMs, address, pagination, objectType, resolve);
    ToOutputs(codec, objectType, rows)
  }

  /** The answer for a stored object: the id and the balance of the output its contents decode to, and
      the very terms of its expiration row, which are that output's. */
  ghost predicate Answers(codec: Codec, view: OutputView, o: StoredObject, row: ExpirationRow) {
    exists output ::
      && DecodesTo(codec, o, output) && IsRowOf(row, output)
      && view == OutputView(output.id, output.balance,
                            Some(ExpirationView(row.owner, row.returnAddress, row.unixTime)))
      && view.id == o.id
  }

  /** `view` answers for the stored object `o`, whose row names `address`. */
  ghost predicate IsAnswer(codec: Codec, t: Tables, view: OutputView, o: StoredObject, address: Address) {
    && o.id in t.objects && t.objects[o.id] == o && o.id in t.expirations
    && Mentions(t.expirations[o.id], address)
    && Answers(codec, view, o, t.expirations[o.id])
  }

  ghost predicate Decodable(codec: Codec, t: Tables, objectType: ObjectType, o: StoredObject, address: Address) {
    var output := DecodeAs(codec, objectType, o);
    output.Success? && IsAnswer(codec, t, View(output.value), o, address)
  }

  /** One row that is not an output of the route's type fails the whole request. */
  lemma {:induction false} ToOutputsFailsIff(codec: Codec, expected: ObjectType, rows: seq<StoredObject>)
    ensures ToOutputs(codec, expected, rows) == Failure(InternalServerError)
       <==> exists o <- rows :: o.objectType != expected || forall output :: !DecodesTo(codec, o, output)
    ensures ToOutputs(codec, expected, rows).Failure? ==> ToOutputs(codec, expected, rows).error == InternalServerError
  {
    if rows == [] {
    } else {
      ToOutputsFailsIff(codec, expected, rows[1..]);
      assert forall o :: o in rows <==> o == rows[0] || o in rows[1..];
      var r := DecodeAs(codec, expected, rows[0]);
      if r.Success? {
        DecodeAsIff(codec, expected, rows[0], r.value);
      }
    }
  }

  /** Rows that can each be answered are answered one for one and in order. */
  lemma {:induction false} DecodableRowsDecode(
    codec: Codec, t: Tables, objectType: ObjectType, rows: seq<StoredObject>, address: Address)
    requires forall o <- rows :: Decodable(codec, t, objectType, o, address)
    ensures var r := ToOutputs(codec, objectType, rows);
            && r.Success? && |r.value| == |rows|
            && forall k | 0 <= k < |rows| :: IsAnswer(codec, t, r.value[k], rows[k], address)
  {
    if rows == [] {
    } else {
      assert Decodable(codec, t, objectType, rows[0], address) && forall o <- rows[1..] :: o in rows;
      DecodableRowsDecode(codec, t, objectType, rows[1..], address);
    }
  }

  lemma MatchingRowsDecode(
    codec: Codec, t: Tables, scan: seq<Address>, latestTimestampMs: Option<u64>,
    address: Address, objectType: ObjectType, resolve: bool, o: StoredObject)
    requires Agreement(codec, t) && IsScan(t, scan) && (resolve ==> latestTimestampMs.Some?)
    requires o in Matching(t, scan, latestTimestampMs, address, objectType, resolve)
    ensures Decodable(codec, t, objectType, o, address)
  {
    var keep := if resolve then Resolved(objectType, address, AsI64(latestTimestampMs.value))
                else Unresolved(objectType, address);
    JoinMember(t, scan, keep, o);
    var x :| x in scan && x in t.expirations && t.objects[x] == o && keep(o, t.expirations[x]);
    assert ToExpiration(codec, o) == Success(t.expirations[x]);
    assert DecodesTo(codec, o, DecodeAs(codec, objectType, o).value);
  }

  /** A request answers with an error only if it asks for resolution before any checkpoint was seen.
      Otherwise it answers with the fetched rows, one for one and in order, and each answer carries
      the terms of its expiration row, which name the queried address. */
  lemma DecodingFetchedRowsNeverFails(
    codec: Codec, t: Tables, scan: seq<Address>, latestTimestampMs: Option<u64>,
    address: Address, pagination: PaginationParams, objectType: ObjectType, resolve: bool)
    requires Agreement(codec, t) && IsScan(t, scan)
    ensures var fetched := FetchStoredObjects(t, scan, latestTimestampMs, address, pagination, objectType, resolve);
            var served := Serve(codec, t, scan, latestTimestampMs, address, pagination, objectType, resolve);
            if resolve && latestTimestampMs.None? then served == Failure(ServiceUnavailable)
            else
              && fetched.Success? && served.Success?
              && |served.value| == |fetched.value|
              && forall k | 0 <= k < |served.value| :: IsAnswer(codec, t, served.value[k], fetched.value[k], address)
  {
    if !resolve || latestTimestampMs.Some? {
      var rows := FetchStoredObjects(t, scan, latestTimestampMs, address, pagination, objectType, resolve).value;
      forall o | o in rows ensures Decodable(codec, t, objectType, o, address) {
        MatchingRowsDecode(codec, t, scan, latestTimestampMs, address, objectType, resolve, o);
      }
      DecodableRowsDecode(codec, t, objectType, rows, address);
    }
  }

  /** Who may unlock an output at a time in milliseconds, by the ledger's rule. */
  function HolderAt(e: Expiration, timestampMs: u64): Address {
    if timestampMs < e.unixTime * 1000 then e.owner else e.returnAddress
  }

  /** What a query is meant to return, without the derived table: visit the objects, decode each,
      and test its expiration. With no timestamp the address may be either party. */
  function DecodeAndFilter(
    codec: Codec, t: Tables, scan: seq<Address>, objectType: ObjectType, address: Address, at: Option<u64>)
    : (rows: seq<StoredObject>)
    requires forall x <- scan :: x in t.objects
    ensures |rows| <= |scan|
  {
    if scan == [] then []
    else
      var o, rest := t.objects[scan[0]], DecodeAndFilter(codec, t, scan[1..], objectType, address, at);
      match DecodeAs(codec, objectType, o)
      case Failure(_) => rest
      case Success(output) => if Wanted(output.expiration, address, at) then [o] + rest else rest
  }

  predicate Wanted(expiration: Option<Expiration>, address: Address, at: Option<u64>) {
    match expiration
    case None => false
    case Some(e) =>
      match at
      case None => e.owner == address || e.returnAddress == address
      case Some(now) => HolderAt(e, now) == address
  }

  lemma {:induction false} JoinIsDecodeAndFilter(
    codec: Codec, t: Tables, scan: seq<Address>, objectType: ObjectType, address: Address, at: Option<u64>)
    requires Agreement(codec, t) && forall x <- scan :: x in t.objects
    requires at.Some? ==> at.value < TWO_TO_THE_63
    ensures var keep := if at.Some? then Resolved(objectType, address, AsI64(at.value))
                        else Unresolved(objectType, address);
            JoinWhere(t, scan, keep) == DecodeAndFilter(codec, t, scan, objectType, address, at)
  {
    if scan == [] {
    } else {
      var x := scan[0];
      assert ToExpiration(codec, t.objects[x]) == Success(t.expirations[x]);
      JoinIsDecodeAndFilter(codec, t, scan[1..], objectType, address, at);
    }
  }

  /** The time a request is answered for. */
  function AskedAt(resolve: bool, latestTimestampMs: Option<u64>): Option<u64> {
    if resolve then latestTimestampMs else None
  }

  /** A clock that the cast to `i64` leaves alone, where one is needed. */
  predicate ClockFits(resolve: bool, latestTimestampMs: Option<u64>) {
    resolve ==> latestTimestampMs.Some? && latestTimestampMs.value < TWO_TO_THE_63
  }

  lemma MatchingIsDecodeAndFilter(
    codec: Codec, t: Tables, scan: seq<Address>, latestTimestampMs: Option<u64>,
    address: Address, objectType: ObjectType, resolve: bool)
    requires Agreement(codec, t) && IsScan(t, scan) && ClockFits(resolve, latestTimestampMs)
    ensures Matching(t, scan, latestTimestampMs, address, objectType, resolve)
         == DecodeAndFilter(codec, t, scan, objectType, address, AskedAt(resolve, latestTimestampMs))
  {
    JoinIsDecodeAndFilter(codec, t, scan, objectType, address, AskedAt(resolve, latestTimestampMs));
  }

  /** A request returns a window of what decoding and filtering every object returns. The page defaults to
      1 and its size to 10, each on its own; the window starts where the page does whenever that number of rows
      fits 32 bits, and at its remainder modulo 2^32 otherwise. */
  lemma FetchedIsDecodedWindow(
    codec: Codec, t: Tables, scan: seq<Address>, latestTimestampMs: Option<u64>,
    address: Address, pagination: PaginationParams, objectType: ObjectType, resolve: bool)
    requires Agreement(codec, t) && IsScan(t, scan) && ClockFits(resolve, latestTimestampMs)
    ensures var rows := DecodeAndFilter(codec, t, scan, objectType, address, AskedAt(resolve, latestTimestampMs));
            var page := match pagination.page case None => 1 case Some(n) => n;
            var size := match pagination.pageSize case None => 10 case Some(n) => n;
            var offset := RowsBefore(page, size);
            FetchStoredObjects(t, scan, latestTimestampMs, address, pagination, objectType, resolve)
            == Success(rows[Min(offset, |rows|)..Min(offset + size, |rows|)])
  {
    MatchingIsDecodeAndFilter(codec, t, scan, latestTimestampMs, address, objectType, resolve);
    FetchedIsWindow(t, scan, latestTimestampMs, address, pagination, objectType, resolve);
  }

  /** On an unchanged database the first pages, asked for one after the other, are the first rows. */
  lemma FetchedPagesAreAPrefix(
    codec: Codec, t: Tables, scan: seq<Address>, latestTimestampMs: Option<u64>,
    address: Address, objectType: ObjectType, resolve: bool, n: u32, pageSize: u32)
    requires Agreement(codec, t) && IsScan(t, scan) && ClockFits(resolve, latestTimestampMs)
    requires n >= 1 ==> (n - 1) * pageSize < TWO_TO_THE_32
    ensures var rows := DecodeAndFilter(codec, t, scan, objectType, address, AskedAt(resolve, latestTimestampMs));
            FetchPages(t, scan, latestTimestampMs, address, objectType, resolve, n, pageSize)
            == rows[..Min(n * pageSize, |rows|)]
  {
    MatchingIsDecodeAndFilter(codec, t, scan, latestTimestampMs, address, objectType, resolve);
    FetchPagesArePages(t, scan, latestTimestampMs, address, objectType, resolve, n, pageSize);
    PagesAreAPrefix(Matching(t, scan, latestTimestampMs, address, objectType, resolve), n, pageSize);
  }

  /** So a client that asks for as many pages as the objects could fill gets every row, once and in order. */
  lemma FetchedPagesAreDecoded(
    codec: Codec, t: Tables, scan: seq<Address>, latestTimestampMs: Option<u64>,
    address: Address, objectType: ObjectType, resolve: bool, n: u32, pageSize: u32)
    requires Agreement(codec, t) && IsScan(t, scan) && ClockFits(resolve, latestTimestampMs)
    requires |scan| <= n * pageSize && (n >= 1 ==> (n - 1) * pageSize < TWO_TO_THE_32)
    ensures FetchPages(t, scan, latestTimestampMs, address, objectType, resolve, n, pageSize)
         == DecodeAndFilter(codec, t, scan, objectType, address, AskedAt(resolve, latestTimestampMs))
  {
    FetchedPagesAreAPrefix(codec, t, scan, latestTimestampMs, address, objectType, resolve, n, pageSize);
    var rows := DecodeAndFilter(codec, t, scan, objectType, address, AskedAt(resolve, latestTimestampMs));
    assert Min(n * pageSize, |rows|) == |rows| && rows[..|rows|] == rows;
  }

  /** The resolved query follows the ledger's rule exactly for timestamps below 2^63; from there on the
      cast makes them negative and nothing ever expires. */
  lemma ResolutionFollowsLedgerIff(e: Expiration, objectId: Address, timestampMs: u64)
    requires e.owner != e.returnAddress
    ensures var row := ExpirationRow(e.owner, e.returnAddress, e.unixTime, objectId);
            (forall address :: ResolvesTo(row, address, AsI64(timestampMs)) <==> address == HolderAt(e, timestampMs))
            <==> timestampMs < TWO_TO_THE_63
  {
    var row := ExpirationRow(e.owner, e.returnAddress, e.unixTime, objectId);
    if timestampMs >= TWO_TO_THE_63 {
      assert ResolvesTo(row, e.owner, AsI64(timestampMs)) && e.owner != HolderAt(e, timestampMs);
    }
  }
}
