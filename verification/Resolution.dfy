/** Resolved queries divide the rows among the addresses (src/rest/routes/v1/mod.rs). */
module Resolution {
  import opened MachineInts
  import opened Wrappers
  import opened Models
  import opened Store
  import opened Query

  /** The one address a row resolves to. */
  function Holder(row: ExpirationRow, now: u64): (address: Address)
    ensures forall a :: ResolvesTo(row, a, AsI64(now)) <==> a == address
  {
    if row.unixTime * 1000 > AsI64(now) then row.owner else row.returnAddress
  }

  function OfType(objectType: ObjectType): RowFilter {
    (o: StoredObject, row: ExpirationRow) => o.objectType == objectType
  }

  /** Each joined object of the type is in the resolved result of exactly one address, and what is
      resolved for an address is also in its unresolved result, in whatever order either is scanned. */
  lemma EveryRowHasOneHolder(
    codec: Codec, t: Tables, scan: seq<Address>, scan': seq<Address>, objectType: ObjectType, now: u64, x: Address)
    requires Agreement(codec, t) && IsScan(t, scan) && IsScan(t, scan')
    requires x in t.objects && t.objects[x].objectType == objectType
    ensures forall a :: t.objects[x] in Matching(t, scan, Some(now), a, objectType, true)
                   <==> a == Holder(t.expirations[x], now)
    ensures t.objects[x] in Matching(t, scan', Some(now), Holder(t.expirations[x], now), objectType, false)
  {
    var o := t.objects[x];
    forall a
      ensures o in Matching(t, scan, Some(now), a, objectType, true) <==> a == Holder(t.expirations[x], now)
    {
      JoinMember(t, scan, Resolved(objectType, a, AsI64(now)), o);
      assert forall y <- scan | t.objects[y] == o :: y == x;
    }
    JoinMember(t, scan', Unresolved(objectType, Holder(t.expirations[x], now)), o);
  }

  ghost function SomeOf(addresses: set<Address>): (a: Address)
    requires addresses != {}
    ensures a in addresses
  {
    var a :| a in addresses;
    a
  }

  /** The lengths of the resolved results of some addresses, each with a scan of its own. */
  ghost function TotalResolved(
    t: Tables, scans: map<Address, seq<Address>>, objectType: ObjectType, now: u64): nat
    requires forall a <- scans :: IsScan(t, scans[a])
    decreases |scans|
  {
    if scans == map[] then 0
    else
      var a := SomeOf(scans.Keys);
      assert IsScan(t, scans[a]);
      |Matching(t, scans[a], Some(now), a, objectType, true)| + TotalResolved(t, scans - {a}, objectType, now)
  }

  ghost function HeldBy(t: Tables, objectType: ObjectType, now: u64, addresses: set<Address>): set<Address> {
    set x | x in t.objects && x in t.expirations
         && t.objects[x].objectType == objectType && Holder(t.expirations[x], now) in addresses
  }

  lemma KeptIsHeld(t: Tables, objectType: ObjectType, now: u64, a: Address)
    ensures Kept(t, Resolved(objectType, a, AsI64(now))) == HeldBy(t, objectType, now, {a})
  {
  }

  lemma ResolvedCount(t: Tables, scan: seq<Address>, objectType: ObjectType, now: u64, a: Address)
    requires IsScan(t, scan)
    ensures |Matching(t, scan, Some(now), a, objectType, true)| == |HeldBy(t, objectType, now, {a})|
  {
    JoinCount(t, scan, Resolved(objectType, a, AsI64(now)));
    KeptIsHeld(t, objectType, now, a);
  }

  /** The rows held by one address more. */
  lemma HeldByOneMore(t: Tables, objectType: ObjectType, now: u64, a: Address, others: set<Address>)
    requires a !in others
    ensures |HeldBy(t, objectType, now, others + {a})|
         == |HeldBy(t, objectType, now, {a})| + |HeldBy(t, objectType, now, others)|
  {
    var mine, theirs := HeldBy(t, objectType, now, {a}), HeldBy(t, objectType, now, others);
    assert HeldBy(t, objectType, now, others + {a}) == mine + theirs;
    assert mine !! theirs;
  }

  lemma {:induction false} TotalResolvedIsHeld(
    t: Tables, scans: map<Address, seq<Address>>, objectType: ObjectType, now: u64)
    requires forall a <- scans :: IsScan(t, scans[a])
    ensures TotalResolved(t, scans, objectType, now) == |HeldBy(t, objectType, now, scans.Keys)|
    decreases |scans|
  {
    if scans == map[] {
      assert HeldBy(t, objectType, now, scans.Keys) == {};
    } else {
      var a := SomeOf(scans.Keys);
      TotalResolvedIsHeld(t, scans - {a}, objectType, now);
      ResolvedCount(t, scans[a], objectType, now, a);
      HeldByOneMore(t, objectType, now, a, (scans - {a}).Keys);
      assert scans.Keys == (scans - {a}).Keys + {a};
    }
  }

  /** Over addresses that include every holder, the resolved results add up to the rows of the type. */
  lemma ResolutionIsAPartition(
    t: Tables, scans: map<Address, seq<Address>>, objectType: ObjectType, now: u64)
    requires forall a <- scans :: IsScan(t, scans[a])
    requires forall x <- t.expirations :: Holder(t.expirations[x], now) in scans
    ensures TotalResolved(t, scans, objectType, now) == |Kept(t, OfType(objectType))|
  {
    TotalResolvedIsHeld(t, scans, objectType, now);
    assert HeldBy(t, objectType, now, scans.Keys) == Kept(t, OfType(objectType));
  }
}
