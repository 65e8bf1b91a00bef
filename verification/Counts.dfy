/** The health counts and the insert counters against the rows (src/rest/routes/health.rs,
    src/sync/worker.rs). */
module Counts {
  import opened MachineInts
  import opened Wrappers
  import opened Models
  import opened Store
  import opened Commits
  import opened Planning
  import opened Query
  import opened Resolution
  import opened Sets
  import opened Worker

  datatype HealthResponse = HealthResponse(objectsCount: nat, basicObjectsCount: nat, nftObjectsCount: nat)

  function IdsOfType(t: Tables, objectType: ObjectType): set<Address> {
    set x | x in t.objects && t.objects[x].objectType == objectType
  }

  function Health(t: Tables): HealthResponse {
    HealthResponse(|t.objects|, |IdsOfType(t, Basic)|, |IdsOfType(t, Nft)|)
  }

  lemma CountIsUnfilteredJoin(codec: Codec, t: Tables, scan: seq<Address>, objectType: ObjectType)
    requires Agreement(codec, t) && IsScan(t, scan)
    ensures |IdsOfType(t, objectType)| == |JoinWhere(t, scan, OfType(objectType))|
  {
    JoinCount(t, scan, OfType(objectType));
    assert Kept(t, OfType(objectType)) == IdsOfType(t, objectType);
  }

  /** No stored object is hidden from the queries, and the three counts add up. */
  lemma CountsAreConserved(codec: Codec, t: Tables, scan: seq<Address>)
    requires Agreement(codec, t) && IsScan(t, scan)
    ensures var h := Health(t);
            && h.objectsCount == h.basicObjectsCount + h.nftObjectsCount
            && h.basicObjectsCount == |JoinWhere(t, scan, OfType(Basic))|
            && h.nftObjectsCount == |JoinWhere(t, scan, OfType(Nft))|
  {
    CountIsUnfilteredJoin(codec, t, scan, Basic);
    CountIsUnfilteredJoin(codec, t, scan, Nft);
    assert t.objects.Keys == IdsOfType(t, Basic) + IdsOfType(t, Nft);
    assert IdsOfType(t, Basic) !! IdsOfType(t, Nft);
  }

  function PutsOfType(cs: seq<Commit>, objectType: ObjectType): nat {
    if cs == [] then 0
    else
      var c := cs[|cs| - 1];
      PutsOfType(cs[..|cs| - 1], objectType) + if c.Put? && c.stored.objectType == objectType then 1 else 0
  }

  /** However commits repeat or delete ids, the rows of a type are no more than those at the start
      plus the puts of that type. */
  lemma {:induction false} CountersBoundRows(t: Tables, cs: seq<Commit>, objectType: ObjectType)
    ensures |IdsOfType(Run(t, cs), objectType)| <= |IdsOfType(t, objectType)| + PutsOfType(cs, objectType)
  {
    if cs == [] {
    } else {
      var n := |cs| - 1;
      var c, before := cs[n], Run(t, cs[..n]);
      CountersBoundRows(t, cs[..n], objectType);
      var was, now := IdsOfType(before, objectType), IdsOfType(Apply(before, c), objectType);
      if c.Put? && c.stored.objectType == objectType {
        SubsetSize(now, was + {c.stored.id});
      } else {
        SubsetSize(now, was);
      }
    }
  }

  /** The counters of an insert call grow by the puts it committed, type by type; together with the
      bound above, the rows of a type never outgrow its counter. */
  lemma {:induction false} CountersCountPuts(codec: Codec, t: Tables, os: seq<StoredObject>, budget: nat)
    requires forall o <- os :: IdAgrees(codec, o)
    ensures InsertAll(codec, t, os, budget).count <= |Puts(codec, os)|
    ensures var i := InsertAll(codec, t, os, budget);
            var committed := Puts(codec, os)[..i.count];
            && i.basics == PutsOfType(committed, Basic)
            && i.nfts == PutsOfType(committed, Nft)
            && i.tables == Run(t, committed)
            && |IdsOfType(i.tables, Basic)| <= |IdsOfType(t, Basic)| + i.basics
            && |IdsOfType(i.tables, Nft)| <= |IdsOfType(t, Nft)| + i.nfts
  {
    InsertLeavesExactPrefix(codec, t, os, budget);
    InsertCountsTypes(codec, t, os, budget);
    var i := InsertAll(codec, t, os, budget);
    var puts := Puts(codec, os);
    assert forall k | 0 <= k < i.count :: puts[k].stored == os[k];
    PutsOfTypeIsCount(puts[..i.count], os[..i.count], Basic);
    PutsOfTypeIsCount(puts[..i.count], os[..i.count], Nft);
    CountersBoundRows(t, puts[..i.count], Basic);
    CountersBoundRows(t, puts[..i.count], Nft);
  }

  function CountType(os: seq<StoredObject>, objectType: ObjectType): nat {
    if os == [] then 0
    else CountType(os[..|os| - 1], objectType) + if os[|os| - 1].objectType == objectType then 1 else 0
  }

  lemma {:induction false} PutsOfTypeIsCount(cs: seq<Commit>, os: seq<StoredObject>, objectType: ObjectType)
    requires |cs| == |os| && forall k | 0 <= k < |cs| :: cs[k].Put? && cs[k].stored == os[k]
    ensures PutsOfType(cs, objectType) == CountType(os, objectType)
  {
    if cs == [] {
    } else {
      PutsOfTypeIsCount(cs[..|cs| - 1], os[..|os| - 1], objectType);
    }
  }

  lemma {:induction false} InsertCountsTypes(codec: Codec, t: Tables, os: seq<StoredObject>, budget: nat)
    ensures var i := InsertAll(codec, t, os, budget);
            i.basics == CountType(os[..i.count], Basic) && i.nfts == CountType(os[..i.count], Nft)
  {
    if os == [] {
    } else {
      var n := |os| - 1;
      InsertCountsTypes(codec, t, os[..n], budget);
      var before, i := InsertAll(codec, t, os[..n], budget), InsertAll(codec, t, os, budget);
      assert os[..n][..before.count] == os[..before.count];
      if i.count == n + 1 {
        assert os[..i.count] == os && before.count == n;
      }
    }
  }

  function Counted(i: Inserted, objectType: ObjectType): nat {
    match objectType
    case Basic => i.basics
    case Nft => i.nfts
  }

  /** Whatever an insert call stores and wherever it stops, the rows of a type grow by no more than its
      counter. Nothing is assumed of the decoded ids. */
  lemma {:induction false} InsertIsCounted(
    codec: Codec, t: Tables, os: seq<StoredObject>, budget: nat, objectType: ObjectType)
    ensures var i := InsertAll(codec, t, os, budget);
            |IdsOfType(i.tables, objectType)| <= |IdsOfType(t, objectType)| + Counted(i, objectType)
  {
    if os == [] {
    } else {
      var n := |os| - 1;
      InsertIsCounted(codec, t, os[..n], budget, objectType);
      var before := InsertAll(codec, t, os[..n], budget);
      if before.outcome == Pass && n < budget && CommitObject(codec, before.tables, os[n]).Success? {
        UpsertIsCounted(codec, before.tables, os[n], objectType);
      }
    }
  }

  lemma UpsertIsCounted(codec: Codec, t: Tables, o: StoredObject, objectType: ObjectType)
    requires CommitObject(codec, t, o).Success?
    ensures |IdsOfType(CommitObject(codec, t, o).value, objectType)|
         <= |IdsOfType(t, objectType)| + if o.objectType == objectType then 1 else 0
  {
    var was, now := IdsOfType(t, objectType), IdsOfType(CommitObject(codec, t, o).value, objectType);
    SubsetSize(now, if o.objectType == objectType then was + {o.id} else was);
  }

  /** One call of the worker: its checkpoint, and how many transactions the database accepts. */
  datatype Call = Call(cp: Checkpoint, budget: nat)

  /** What a process has done: the tables, and its two counters. */
  datatype Life = Life(tables: Tables, basics: nat, nfts: nat) {
    function Add(i: Inserted): Life {
      Life(i.tables, basics + i.basics, nfts + i.nfts)
    }

    function Counter(objectType: ObjectType): nat {
      match objectType
      case Basic => basics
      case Nft => nfts
    }
  }

  /** The counters start at zero with the process and are never reset. */
  function Live(codec: Codec, packageId: Address, t: Tables, calls: seq<Call>): Life {
    if calls == [] then Life(t, 0, 0)
    else
      var before := Live(codec, packageId, t, calls[..|calls| - 1]);
      var call := calls[|calls| - 1];
      before.Add(Process(codec, packageId, before.tables, call.cp, call.budget))
  }

  lemma CallIsCounted(
    codec: Codec, packageId: Address, t: Tables, cp: Checkpoint, budget: nat, objectType: ObjectType)
    ensures var i := Process(codec, packageId, t, cp, budget);
            |IdsOfType(i.tables, objectType)| <= |IdsOfType(t, objectType)| + Counted(i, objectType)
  {
    var collected := Collect(packageId, cp.transactions);
    if collected.Success? {
      var i, p := InsertAll(codec, t, collected.value.created, budget), Process(codec, packageId, t, cp, budget);
      InsertIsCounted(codec, t, collected.value.created, budget, objectType);
      SubsetSize(IdsOfType(p.tables, objectType), IdsOfType(i.tables, objectType));
    }
  }

  /** Over the life of a process, through any calls and retries, cut-offs and deletions, the rows of a
      type never outnumber those at its start plus its counter: after every call, and at the end of the
      insert call within the next one. */
  lemma {:induction false} CountersBoundRowsForLife(
    codec: Codec, packageId: Address, t: Tables, calls: seq<Call>, next: Call, objectType: ObjectType)
    ensures var life := Live(codec, packageId, t, calls);
            && |IdsOfType(life.tables, objectType)| <= |IdsOfType(t, objectType)| + life.Counter(objectType)
            && (var collected := Collect(packageId, next.cp.transactions);
                collected.Success? ==>
                  var i := InsertAll(codec, life.tables, collected.value.created, next.budget);
                  |IdsOfType(i.tables, objectType)|
                  <= |IdsOfType(t, objectType)| + life.Counter(objectType) + Counted(i, objectType))
  {
    var life := Live(codec, packageId, t, calls);
    if calls == [] {
    } else {
      var init, call := calls[..|calls| - 1], calls[|calls| - 1];
      CountersBoundRowsForLife(codec, packageId, t, init, next, objectType);
      CallIsCounted(codec, packageId, Live(codec, packageId, t, init).tables, call.cp, call.budget, objectType);
    }
    var collected := Collect(packageId, next.cp.transactions);
    if collected.Success? {
      InsertIsCounted(codec, life.tables, collected.value.created, next.budget, objectType);
    }
  }

  lemma {:induction false} PutsOfTypeConcat(a: seq<Commit>, b: seq<Commit>, objectType: ObjectType)
    ensures PutsOfType(a + b, objectType) == PutsOfType(a, objectType) + PutsOfType(b, objectType)
  {
    if b == [] {
      assert a + b == a;
    } else {
      var n := |b| - 1;
      assert (a + b)[..|a + b| - 1] == a + b[..n];
      PutsOfTypeConcat(a, b[..n], objectType);
    }
  }

  /** The commits a call makes before it stops. */
  function CommittedBy(codec: Codec, packageId: Address, call: Call): seq<Commit> {
    var commits := JobOf(codec, packageId, call.cp).commits;
    commits[..Min(call.budget, |commits|)]
  }

  /** The puts among the first commits of some puts and a removal. */
  lemma PutsBeforeRemoval(puts: seq<Commit>, ids: set<Address>, budget: nat, objectType: ObjectType)
    ensures var commits := puts + [Remove(ids)];
            PutsOfType(commits[..Min(budget, |commits|)], objectType)
            == PutsOfType(puts[..Min(budget, |puts|)], objectType)
  {
    var commits := puts + [Remove(ids)];
    if budget <= |puts| {
      assert commits[..budget] == puts[..budget];
    } else {
      assert commits[..Min(budget, |commits|)] == commits && commits[..|puts|] == puts == puts[..|puts|];
    }
  }

  /** Only the insert call of a call counts. */
  lemma OnlyInsertsCount(codec: Codec, packageId: Address, t: Tables, cp: Checkpoint, c: Collected, budget: nat)
    requires Collect(packageId, cp.transactions) == Success(c)
    ensures var p, i := Process(codec, packageId, t, cp, budget), InsertAll(codec, t, c.created, budget);
            p.basics == i.basics && p.nfts == i.nfts
  {
  }

  /** The counters of a whole call grow by the puts it committed, type by type: not by its removals, nor by
      an object that failed, and not at all if a transaction could not be read. */
  lemma CallCountsCommittedPuts(codec: Codec, packageId: Address, t: Tables, call: Call)
    requires IdsAgree(codec, packageId, call.cp)
    ensures var p := Process(codec, packageId, t, call.cp, call.budget);
            && p.basics == PutsOfType(CommittedBy(codec, packageId, call), Basic)
            && p.nfts == PutsOfType(CommittedBy(codec, packageId, call), Nft)
  {
    var collected := Collect(packageId, call.cp.transactions);
    if collected.Success? {
      var c := collected.value;
      var puts, ids := Puts(codec, c.created), set x | x in c.deleted;
      CollectedComesFromTransactions(packageId, call.cp.transactions);
      assert forall o <- c.created :: IdAgrees(codec, o);
      OnlyInsertsCount(codec, packageId, t, call.cp, c, call.budget);
      InsertLeavesExactPrefix(codec, t, c.created, call.budget);
      CountersCountPuts(codec, t, c.created, call.budget);
      PutsBeforeRemoval(puts, ids, call.budget, Basic);
      PutsBeforeRemoval(puts, ids, call.budget, Nft);
    }
  }

  function Committed(codec: Codec, packageId: Address, calls: seq<Call>): seq<Commit> {
    if calls == [] then []
    else Committed(codec, packageId, calls[..|calls| - 1]) + CommittedBy(codec, packageId, calls[|calls| - 1])
  }

  /** Over the life of a process, whatever fails and is retried, the tables are those of the commits made,
      and the two counters are the numbers of puts of each type among them. */
  lemma {:induction false} LifeCountsCommittedPuts(
    codec: Codec, packageId: Address, t: Tables, calls: seq<Call>)
    requires ForeignKey(t) && forall call <- calls :: IdsAgree(codec, packageId, call.cp)
    ensures var life, cs := Live(codec, packageId, t, calls), Committed(codec, packageId, calls);
            && life.tables == Run(t, cs)
            && life.basics == PutsOfType(cs, Basic)
            && life.nfts == PutsOfType(cs, Nft)
  {
    if calls == [] {
    } else {
      var init, call := calls[..|calls| - 1], calls[|calls| - 1];
      var before, made := Committed(codec, packageId, init), CommittedBy(codec, packageId, call);
      LifeCountsCommittedPuts(codec, packageId, t, init);
      RunKeepsForeignKey(t, before);
      ProcessCommitsPrefixOfJob(codec, packageId, Run(t, before), call.cp, call.budget);
      CallCountsCommittedPuts(codec, packageId, Run(t, before), call);
      RunConcat(t, before, made);
      PutsOfTypeConcat(before, made, Basic);
      PutsOfTypeConcat(before, made, Nft);
    }
  }
}
