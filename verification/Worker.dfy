/** The checkpoint worker: its loops over transactions and objects, and what a call leaves behind
    when it stops early (src/sync/worker.rs). */
module Worker {
  import opened MachineInts
  import opened Wrappers
  import opened Models
  import opened Store
  import opened Commits
  import opened Planning

  /** The metrics and the clock, which the process keeps in static variables. */
  class Statics {
    var lastReceived: i64
    var lastIndexed: i64
    var basicCount: nat
    var nftCount: nat
    var latestTimestampMs: Option<u64>

    constructor ()
      ensures lastReceived == lastIndexed == 0 && basicCount == nftCount == 0
      ensures latestTimestampMs == None
    {
      lastReceived, lastIndexed, basicCount, nftCount := 0, 0, 0, 0;
      latestTimestampMs := None;
    }

    method CountIndexed(objectType: ObjectType)
      modifies `basicCount, `nftCount
      ensures basicCount == old(basicCount) + if objectType == Basic then 1 else 0
      ensures nftCount == old(nftCount) + if objectType == Nft then 1 else 0
    {
      match objectType {
        case Basic => basicCount := basicCount + 1;
        case Nft => nftCount := nftCount + 1;
      }
    }
  }

  /** What an insert call leaves: the tables, how many objects went in, and how many of each type. */
  datatype Inserted = Inserted(tables: Tables, count: nat, basics: nat, nfts: nat, outcome: Outcome<IndexError>) {
    function AndThen(t: Tables, objectType: ObjectType): Inserted {
      Inserted(
        t, count + 1,
        basics + if objectType == Basic then 1 else 0,
        nfts + if objectType == Nft then 1 else 0,
        outcome)
    }
  }

  /** Upserts in order until one fails or the database has accepted `budget` transactions. */
  function InsertAll(codec: Codec, t: Tables, os: seq<StoredObject>, budget: nat): (i: Inserted)
    ensures i.count <= |os| && (i.outcome == Pass ==> i.count == |os|)
    ensures i.basics + i.nfts == i.count
  {
    if os == [] then Inserted(t, 0, 0, 0, Pass)
    else
      var n := |os| - 1;
      var before := InsertAll(codec, t, os[..n], budget);
      if before.outcome.Fail? then before
      else if budget <= n then before.(outcome := Fail(DatabaseUnavailable))
      else
        match CommitObject(codec, before.tables, os[n])
        case Failure(e) => before.(outcome := Fail(e))
        case Success(t') => before.AndThen(t', os[n].objectType)
  }

  /** Everything one call does to the database. */
  function Process(codec: Codec, packageId: Address, t: Tables, cp: Checkpoint, budget: nat): Inserted {
    match Collect(packageId, cp.transactions)
    case Failure(e) => Inserted(t, 0, 0, 0, Fail(e))
    case Success(c) =>
      var inserted := InsertAll(codec, t, c.created, budget);
      if inserted.outcome.Fail? || c.deleted == [] then inserted
      else if budget <= inserted.count then inserted.(outcome := Fail(DatabaseUnavailable))
      else inserted.(tables := Delete(inserted.tables, set x | x in c.deleted))
  }

  lemma {:induction false} PutsPrefix(codec: Codec, os: seq<StoredObject>, o: StoredObject)
    ensures Puts(codec, os + [o])
         == if |Puts(codec, os)| < |os| || ToExpiration(codec, o).Failure? then Puts(codec, os)
            else Puts(codec, os) + [Put(o, ToExpiration(codec, o).value)]
  {
    if os == [] {
      assert os + [o] == [o];
      assert [o][1..] == [];
    } else {
      assert (os + [o])[1..] == os[1..] + [o];
      PutsPrefix(codec, os[1..], o);
    }
  }

  lemma CommitIsPut(codec: Codec, t: Tables, o: StoredObject)
    requires IdAgrees(codec, o)
    ensures CommitObject(codec, t, o) == match ToExpiration(codec, o)
                                         case Failure(e) => Failure(e)
                                         case Success(row) => Success(Apply(t, Put(o, row)))
  {
  }

  /** What a call leaves when `count` objects went in: those before the first conversion that fails
      or before the database gave up, whichever comes first, and nothing of the failing one. */
  ghost predicate ExactPrefix(codec: Codec, t: Tables, os: seq<StoredObject>, budget: nat, i: Inserted) {
    var puts := Puts(codec, os);
    && i.count == Min(budget, |puts|)
    && i.tables == Run(t, puts[..i.count])
    && (i.outcome == Pass <==> i.count == |os|)
    && (i.count < |os| ==> i.outcome == Fail(
          if i.count == budget then DatabaseUnavailable else ToExpiration(codec, os[i.count]).error))
  }

  lemma InsertSnoc(codec: Codec, t: Tables, os: seq<StoredObject>, o: StoredObject, budget: nat)
    requires IdAgrees(codec, o)
    requires ExactPrefix(codec, t, os, budget, InsertAll(codec, t, os, budget))
    ensures ExactPrefix(codec, t, os + [o], budget, InsertAll(codec, t, os + [o], budget))
  {
    var before, i := InsertAll(codec, t, os, budget), InsertAll(codec, t, os + [o], budget);
    var was, puts := Puts(codec, os), Puts(codec, os + [o]);
    assert (os + [o])[..|os|] == os;
    PutsPrefix(codec, os, o);
    if before.outcome.Fail? || budget <= |os| {
      assert i.count == before.count && puts[..i.count] == was[..i.count];
    } else {
      CommitIsPut(codec, before.tables, o);
      assert was[..|os|] == was;
      if ToExpiration(codec, o).Success? {
        assert puts == was + [Put(o, ToExpiration(codec, o).value)];
        assert puts[..|os| + 1] == puts && puts[..|os|] == was;
      }
    }
  }

  /** A call that stops early has made exactly the first upserts. */
  lemma {:induction false} InsertLeavesExactPrefix(codec: Codec, t: Tables, os: seq<StoredObject>, budget: nat)
    requires forall o <- os :: IdAgrees(codec, o)
    ensures ExactPrefix(codec, t, os, budget, InsertAll(codec, t, os, budget))
  {
    if os == [] {
    } else {
      var n := |os| - 1;
      assert os == os[..n] + [os[n]];
      InsertLeavesExactPrefix(codec, t, os[..n], budget);
      InsertSnoc(codec, t, os[..n], os[n], budget);
    }
  }

  lemma {:induction false} RunKeepsForeignKey(t: Tables, cs: seq<Commit>)
    requires ForeignKey(t)
    ensures ForeignKey(Run(t, cs))
  {
    if cs == [] {
    } else {
      RunKeepsForeignKey(t, cs[..|cs| - 1]);
    }
  }

  /** A call commits a prefix of its checkpoint's commits, and returns Ok exactly when the whole
      of a complete job went through. */
  lemma ProcessCommitsPrefixOfJob(codec: Codec, packageId: Address, t: Tables, cp: Checkpoint, budget: nat)
    requires ForeignKey(t) && IdsAgree(codec, packageId, cp)
    ensures var p := Process(codec, packageId, t, cp, budget);
            var job := JobOf(codec, packageId, cp);
            && p.tables == Run(t, job.commits[..Min(budget, |job.commits|)])
            && (p.outcome == Pass <==> job.reach.Complete? && |job.commits| <= budget)
            && (budget < |job.commits| ==> p.outcome == Fail(DatabaseUnavailable))
  {
    var collected := Collect(packageId, cp.transactions);
    if collected.Success? {
      var c := collected.value;
      CollectedComesFromTransactions(packageId, cp.transactions);
      assert forall o <- c.created :: IdAgrees(codec, o);
      InsertLeavesExactPrefix(codec, t, c.created, budget);
      CollectedCommitsPrefixOfJob(codec, packageId, t, cp, c, budget);
    }
  }

  lemma CollectedCommitsPrefixOfJob(
    codec: Codec, packageId: Address, t: Tables, cp: Checkpoint, c: Collected, budget: nat)
    requires ForeignKey(t) && Collect(packageId, cp.transactions) == Success(c)
    requires ExactPrefix(codec, t, c.created, budget, InsertAll(codec, t, c.created, budget))
    ensures var p := Process(codec, packageId, t, cp, budget);
            var job := JobOf(codec, packageId, cp);
            && p.tables == Run(t, job.commits[..Min(budget, |job.commits|)])
            && (p.outcome == Pass <==> job.reach.Complete? && |job.commits| <= budget)
            && (budget < |job.commits| ==> p.outcome == Fail(DatabaseUnavailable))
  {
    var puts := Puts(codec, c.created);
    var inserted := InsertAll(codec, t, c.created, budget);
    var ids := set x | x in c.deleted;
    if inserted.outcome == Pass && c.deleted != [] {
      assert puts[..inserted.count] == puts;
      PrefixWithRemoval(t, puts, ids, budget);
    } else if |puts| == |c.created| && c.deleted != [] {
      PrefixWithRemoval(t, puts, ids, budget);
    }
  }

  /** The prefixes of some puts followed by a removal. */
  lemma PrefixWithRemoval(t: Tables, puts: seq<Commit>, ids: set<Address>, budget: nat)
    requires ForeignKey(t)
    ensures var commits := puts + [Remove(ids)];
            Run(t, commits[..Min(budget, |commits|)])
            == if budget <= |puts| then Run(t, puts[..budget]) else Delete(Run(t, puts), ids)
  {
    var commits := puts + [Remove(ids)];
    if budget <= |puts| {
      assert commits[..budget] == puts[..budget];
    } else {
      DeleteIsRemove(t, puts, ids);
    }
  }

  lemma DeleteIsRemove(t: Tables, puts: seq<Commit>, ids: set<Address>)
    requires ForeignKey(t)
    ensures var commits := puts + [Remove(ids)];
            Delete(Run(t, puts), ids) == Run(t, commits[..|puts| + 1])
  {
    RunKeepsForeignKey(t, puts);
    var commits := puts + [Remove(ids)];
    assert commits[..|puts| + 1] == commits && commits[..|puts|] == puts;
  }

  class CheckpointWorker {
    const codec: Codec
    const packageId: Address
    const db: ObjectsDb
    const statics: Statics

    constructor (codec: Codec, packageId: Address, db: ObjectsDb, statics: Statics)
      ensures this.codec == codec && this.packageId == packageId
      ensures this.db == db && this.statics == statics
    {
      this.codec, this.packageId, this.db, this.statics := codec, packageId, db, statics;
    }

    /** One database transaction, counted once it is committed. */
    method UpsertAndCount(o: StoredObject) returns (r: Outcome<IndexError>)
      requires db.Valid()
      modifies db, statics`basicCount, statics`nftCount
      ensures db.Valid()
      ensures match CommitObject(codec, old(db.State()), o)
              case Success(t) => r == Pass && db.State() == t
              case Failure(e) => r == Fail(e) && db.State() == old(db.State())
      ensures statics.basicCount == old(statics.basicCount) + if r == Pass && o.objectType == Basic then 1 else 0
      ensures statics.nftCount == old(statics.nftCount) + if r == Pass && o.objectType == Nft then 1 else 0
    {
      r := db.UpsertTransaction(codec, o);
      if r == Pass {
        statics.CountIndexed(o.objectType);
      }
    }

    /** One transaction per object. `budget` is how many the database accepts before it is lost. */
    method MultiInsert(os: seq<StoredObject>, budget: nat) returns (r: Outcome<IndexError>)
      requires db.Valid()
      modifies db, statics`basicCount, statics`nftCount
      ensures db.Valid()
      ensures var i := InsertAll(codec, old(db.State()), os, budget);
              && db.State() == i.tables
              && r == i.outcome
              && statics.basicCount == old(statics.basicCount) + i.basics
              && statics.nftCount == old(statics.nftCount) + i.nfts
    {
      ghost var start := db.State();
      ghost var done := InsertAll(codec, start, [], budget);
      var i := 0;
      while i < |os|
        invariant i <= |os| && db.Valid()
        invariant done == InsertAll(codec, start, os[..i], budget)
        invariant done.outcome == Pass && db.State() == done.tables
        invariant statics.basicCount == old(statics.basicCount) + done.basics
        invariant statics.nftCount == old(statics.nftCount) + done.nfts
      {
        InsertStep(codec, start, os, i, budget);
        if i == budget {
          return Fail(DatabaseUnavailable);
        }
        r := UpsertAndCount(os[i]);
        if r.Fail? {
          return;
        }
        done := done.AndThen(db.State(), os[i].objectType);
        i := i + 1;
      }
      assert os[..i] == os;
      return Pass;
    }

    method DeleteObjects(ids: seq<Address>)
      requires db.Valid()
      modifies db
      ensures db.Valid() && db.State() == Delete(old(db.State()), set x | x in ids)
    {
      db.DeleteByIds(ids);
    }

    /** The clock is set before the first commit; the indexed gauge only after the last. */
    method ProcessCheckpoint(cp: Checkpoint, budget: nat) returns (r: Outcome<IndexError>)
      requires db.Valid()
      modifies db, statics
      ensures db.Valid()
      ensures var p := Process(codec, packageId, old(db.State()), cp, budget);
              && db.State() == p.tables && r == p.outcome
              && statics.basicCount == old(statics.basicCount) + p.basics
              && statics.nftCount == old(statics.nftCount) + p.nfts
      ensures statics.lastReceived == AsI64(cp.sequenceNumber)
      ensures statics.lastIndexed == if r == Pass then AsI64(cp.sequenceNumber) else old(statics.lastIndexed)
      ensures statics.latestTimestampMs
           == if Collect(packageId, cp.transactions).Success? then Some(cp.timestampMs)
              else old(statics.latestTimestampMs)
    {
      statics.lastReceived := AsI64(cp.sequenceNumber);
      var created: seq<StoredObject>, deleted: seq<Address> := [], [];
      var txs := cp.transactions;
      var i := 0;
      while i < |txs|
        modifies {}
        invariant i <= |txs|
        invariant Collect(packageId, txs[..i]) == Success(Collected(created, deleted))
      {
        CollectStep(packageId, txs, i);
        var touches := TouchesStardust(packageId, txs[i]);
        if touches.Failure? {
          return Fail(touches.error);
        }
        if touches.value {
          deleted := deleted + SharedRemovals(txs[i].removed);
          created := created + SharedOutputs(txs[i].outputs);
        }
        i := i + 1;
      }
      assert txs[..i] == txs;
      statics.latestTimestampMs := Some(cp.timestampMs);
      ghost var start := db.State();
      if created != [] {
        r := MultiInsert(created, budget);
        if r.Fail? {
          return;
        }
      }
      assert InsertAll(codec, start, created, budget).outcome == Pass;
      if deleted != [] {
        if budget <= |created| {
          return Fail(DatabaseUnavailable);
        }
        DeleteObjects(deleted);
      }
      statics.lastIndexed := AsI64(cp.sequenceNumber);
      return Pass;
    }
  }

  /** The i-th iteration, from the point of view of the whole call. */
  lemma InsertStep(codec: Codec, t: Tables, os: seq<StoredObject>, i: nat, budget: nat)
    requires i < |os| && InsertAll(codec, t, os[..i], budget).outcome.Pass?
    ensures var before := InsertAll(codec, t, os[..i], budget);
            if budget <= i then InsertAll(codec, t, os, budget) == before.(outcome := Fail(DatabaseUnavailable))
            else match CommitObject(codec, before.tables, os[i])
                 case Failure(e) => InsertAll(codec, t, os, budget) == before.(outcome := Fail(e))
                 case Success(t') => InsertAll(codec, t, os[..i + 1], budget) == before.AndThen(t', os[i].objectType)
  {
    assert os[..i + 1][..i] == os[..i];
    if InsertAll(codec, t, os[..i + 1], budget).outcome.Fail? {
      InsertStops(codec, t, os, i + 1, budget);
    }
  }

  lemma CollectStep(packageId: Address, txs: seq<Transaction>, i: nat)
    requires i < |txs| && Collect(packageId, txs[..i]).Success?
    ensures var before := Collect(packageId, txs[..i]).value;
            match TouchesStardust(packageId, txs[i])
            case Failure(e) => Collect(packageId, txs) == Failure(e)
            case Success(touches) =>
              Collect(packageId, txs[..i + 1]) == Success(
                if touches then
                  Collected(before.created + SharedOutputs(txs[i].outputs),
                            before.deleted + SharedRemovals(txs[i].removed))
                else before)
  {
    assert txs[..i + 1][..i] == txs[..i];
    var before := Collect(packageId, txs[..i]).value;
    assert before.created + [] == before.created && before.deleted + [] == before.deleted;
    if TouchesStardust(packageId, txs[i]).Failure? {
      CollectStopsAt(packageId, txs, i + 1);
    }
  }

  lemma {:induction false} InsertStops(codec: Codec, t: Tables, os: seq<StoredObject>, k: nat, budget: nat)
    requires k <= |os| && InsertAll(codec, t, os[..k], budget).outcome.Fail?
    ensures InsertAll(codec, t, os, budget) == InsertAll(codec, t, os[..k], budget)
  {
    if k == |os| {
      assert os[..k] == os;
    } else {
      var n := |os| - 1;
      assert os[..n][..k] == os[..k];
      InsertStops(codec, t, os[..n], k, budget);
    }
  }

  lemma CollectStaysFailed(packageId: Address, txs: seq<Transaction>)
    requires txs != [] && Collect(packageId, txs[..|txs| - 1]).Failure?
    ensures Collect(packageId, txs) == Collect(packageId, txs[..|txs| - 1])
  {
  }

  lemma {:induction false} CollectStops(packageId: Address, head: seq<Transaction>, tail: seq<Transaction>)
    requires Collect(packageId, head).Failure?
    ensures Collect(packageId, head + tail) == Collect(packageId, head)
  {
    if tail == [] {
      assert head + tail == head;
    } else {
      var init := tail[..|tail| - 1];
      assert (head + tail)[..|head + tail| - 1] == head + init;
      CollectStops(packageId, head, init);
      CollectStaysFailed(packageId, head + tail);
    }
  }

  lemma CollectStopsAt(packageId: Address, txs: seq<Transaction>, k: nat)
    requires k <= |txs| && Collect(packageId, txs[..k]).Failure?
    ensures Collect(packageId, txs) == Collect(packageId, txs[..k])
  {
    CollectStops(packageId, txs[..k], txs[k..]);
    assert txs[..k] + txs[k..] == txs;
  }
}
