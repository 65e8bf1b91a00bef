/** What a checkpoint asks of the database: the collected outputs and removals, and the commits
    they turn into (src/sync/worker.rs). */
module Planning {
  import opened MachineInts
  import opened Wrappers
  import opened Models
  import opened Commits

  datatype InputKind =
    | MovePackage(packageId: Address)
    | OwnedObject(objectId: Address)
    | SharedObject(objectId: Address)

  /** An object a transaction removed, as it was before. */
  datatype Removed = Removed(id: Address, shared: bool)

  datatype Transaction = Transaction(
    genesis: bool,
    inputs: Result<seq<InputKind>, IndexError>,
    removed: seq<Removed>,
    outputs: seq<Object>)

  datatype Checkpoint = Checkpoint(
    sequenceNumber: u64,
    timestampMs: u64,
    transactions: seq<Transaction>)

  predicate PackageMatches(packageId: Address, kind: InputKind) {
    kind.MovePackage? && kind.packageId == packageId
  }

  /** A genesis transaction counts before its inputs are looked at. */
  function TouchesStardust(packageId: Address, tx: Transaction): (r: Result<bool, IndexError>)
    ensures r == Success(true) <==>
              tx.genesis || (tx.inputs.Success? && MovePackage(packageId) in tx.inputs.value)
    ensures r.Failure? <==> !tx.genesis && tx.inputs.Failure?
  {
    if tx.genesis then Success(true)
    else
      var inputs :- tx.inputs;
      Success(exists kind <- inputs :: PackageMatches(packageId, kind))
  }

  /** What the source asks of a transaction: it is genesis, or it takes the package as an input. */
  predicate Calls(packageId: Address, tx: Transaction) {
    tx.genesis || (tx.inputs.Success? && MovePackage(packageId) in tx.inputs.value)
  }

  ghost predicate IsTouchingOutput(packageId: Address, tx: Transaction, o: StoredObject) {
    Calls(packageId, tx) && exists output <- tx.outputs :: StoredAs(output, o)
  }

  predicate IsTouchingRemoval(packageId: Address, tx: Transaction, x: Address) {
    Calls(packageId, tx) && Removed(x, true) in tx.removed
  }

  function SharedRemovals(removed: seq<Removed>): (ids: seq<Address>)
    ensures forall x :: x in ids <==> Removed(x, true) in removed
  {
    if removed == [] then []
    else (if removed[0].shared then [removed[0].id] else []) + SharedRemovals(removed[1..])
  }

  /** The outputs that are shared and convert to a stored row; the others are dropped silently. */
  function SharedOutputs(outputs: seq<Object>): (rows: seq<StoredObject>)
    ensures |rows| <= |outputs|
    ensures forall o :: o in rows <==> exists output <- outputs :: StoredAs(output, o)
  {
    if outputs == [] then []
    else
      var rest := SharedOutputs(outputs[1..]);
      assert forall output :: output in outputs <==> output == outputs[0] || output in outputs[1..];
      match ToStored(outputs[0])
      case Success(o) => [o] + rest
      case Failure(_) => rest
  }

  /** The rows come in the order of the outputs. */
  lemma {:induction false} SharedOutputsKeepOrder(a: seq<Object>, b: seq<Object>)
    ensures SharedOutputs(a + b) == SharedOutputs(a) + SharedOutputs(b)
  {
    if a == [] {
      assert a + b == b;
    } else {
      assert (a + b)[1..] == a[1..] + b;
      SharedOutputsKeepOrder(a[1..], b);
    }
  }

  function DeletedBy(packageId: Address, tx: Transaction): (ids: seq<Address>)
    ensures forall x :: x in ids <==> IsTouchingRemoval(packageId, tx, x)
  {
    if TouchesStardust(packageId, tx) == Success(true) then SharedRemovals(tx.removed) else []
  }

  function CreatedBy(packageId: Address, tx: Transaction): (rows: seq<StoredObject>)
    ensures forall o :: o in rows <==> IsTouchingOutput(packageId, tx, o)
  {
    if TouchesStardust(packageId, tx) == Success(true) then SharedOutputs(tx.outputs) else []
  }

  datatype Collected = Collected(created: seq<StoredObject>, deleted: seq<Address>) {
    function Then(next: Collected): Collected {
      Collected(created + next.created, deleted + next.deleted)
    }
  }

  /** Both vectors, or the error of the first transaction whose inputs cannot be read. */
  function Collect(packageId: Address, txs: seq<Transaction>): (r: Result<Collected, IndexError>)
    ensures r.Failure? <==> exists tx <- txs :: !tx.genesis && tx.inputs.Failure?
  {
    if txs == [] then Success(Collected([], []))
    else
      var n := |txs| - 1;
      var before :- Collect(packageId, txs[..n]);
      var _ :- TouchesStardust(packageId, txs[n]);
      Success(before.Then(Collected(CreatedBy(packageId, txs[n]), DeletedBy(packageId, txs[n]))))
  }

  lemma CollectSnoc(packageId: Address, txs: seq<Transaction>, tx: Transaction)
    requires Collect(packageId, txs).Success? && (tx.genesis || tx.inputs.Success?)
    ensures Collect(packageId, txs + [tx])
         == Success(Collect(packageId, txs).value.Then(Collected(CreatedBy(packageId, tx), DeletedBy(packageId, tx))))
  {
    assert (txs + [tx])[..|txs|] == txs;
  }

  lemma ThenIsAssociative(a: Collected, b: Collected, c: Collected)
    ensures a.Then(b).Then(c) == a.Then(b.Then(c))
  {
    assert (a.created + b.created) + c.created == a.created + (b.created + c.created);
    assert (a.deleted + b.deleted) + c.deleted == a.deleted + (b.deleted + c.deleted);
  }

  /** Both vectors are gathered in the order of the transactions, each of which counts once. */
  lemma {:induction false} CollectKeepsOrder(packageId: Address, a: seq<Transaction>, b: seq<Transaction>)
    requires Collect(packageId, a).Success? && Collect(packageId, b).Success?
    ensures Collect(packageId, a + b)
         == Success(Collect(packageId, a).value.Then(Collect(packageId, b).value))
  {
    var first := Collect(packageId, a).value;
    if b == [] {
      assert a + b == a;
      assert first.created + [] == first.created && first.deleted + [] == first.deleted;
    } else {
      var init, tx := b[..|b| - 1], b[|b| - 1];
      assert b == init + [tx] && a + b == (a + init) + [tx];
      CollectKeepsOrder(packageId, a, init);
      CollectSnoc(packageId, init, tx);
      CollectSnoc(packageId, a + init, tx);
      ThenIsAssociative(first, Collect(packageId, init).value,
                        Collected(CreatedBy(packageId, tx), DeletedBy(packageId, tx)));
    }
  }

  lemma CollectOne(packageId: Address, tx: Transaction)
    requires tx.genesis || tx.inputs.Success?
    ensures Collect(packageId, [tx]) == Success(Collected(
              if Calls(packageId, tx) then SharedOutputs(tx.outputs) else [],
              if Calls(packageId, tx) then SharedRemovals(tx.removed) else []))
  {
    assert [tx][..0] == [] && Collect(packageId, [tx][..0]) == Success(Collected([], []));
    assert [] + CreatedBy(packageId, tx) == CreatedBy(packageId, tx);
    assert [] + DeletedBy(packageId, tx) == DeletedBy(packageId, tx);
  }

  /** The environment's promise: contents decode to the id of the object that carries them. */
  predicate IdAgrees(codec: Codec, o: StoredObject) {
    var row := ToExpiration(codec, o);
    row.Success? ==> row.value.objectId == o.id
  }

  predicate IsPutOf(codec: Codec, c: Commit, o: StoredObject) {
    c.Put? && c.stored == o && ToExpiration(codec, o) == Success(c.row)
  }

  /** The commits of the objects in order, up to the first whose conversion fails. */
  function Puts(codec: Codec, os: seq<StoredObject>): (cs: seq<Commit>)
    ensures |cs| <= |os|
    ensures forall k | 0 <= k < |cs| :: IsPutOf(codec, cs[k], os[k])
    ensures |cs| < |os| ==> ToExpiration(codec, os[|cs|]).Failure?
  {
    if os == [] then []
    else
      match ToExpiration(codec, os[0])
      case Failure(_) => []
      case Success(row) =>
        [Put(os[0], row)] + Puts(codec, os[1..])
  }

  ghost predicate AllConvert(codec: Codec, os: seq<StoredObject>) {
    forall o <- os :: ToExpiration(codec, o).Success?
  }

  lemma {:induction false} AllConvertIff(codec: Codec, os: seq<StoredObject>)
    ensures |Puts(codec, os)| == |os| <==> AllConvert(codec, os)
  {
    var puts := Puts(codec, os);
    if |puts| < |os| {
      assert os[|puts|] in os;
    } else {
      forall o | o in os ensures ToExpiration(codec, o).Success? {
        var k :| 0 <= k < |os| && os[k] == o;
        assert IsPutOf(codec, puts[k], os[k]);
      }
    }
  }

  /** How far an attempt at a checkpoint can get. */
  datatype Reach =
    | Unreadable // the inputs of a transaction cannot be read: it stops before the clock is set
    | Stuck      // an output does not convert: it stops after the commits before it
    | Complete

  /** The commits one checkpoint can make, how far they take it, and its time. */
  datatype Job = Job(commits: seq<Commit>, reach: Reach, timestampMs: u64)

  function CommitsOf(codec: Codec, c: Collected): seq<Commit> {
    var puts := Puts(codec, c.created);
    if |puts| < |c.created| || c.deleted == [] then puts
    else puts + [Remove(set x | x in c.deleted)]
  }

  function JobOf(codec: Codec, packageId: Address, cp: Checkpoint): Job {
    match Collect(packageId, cp.transactions)
    case Failure(_) => Job([], Unreadable, cp.timestampMs)
    case Success(c) =>
      var reach := if |Puts(codec, c.created)| < |c.created| then Stuck else Complete;
      Job(CommitsOf(codec, c), reach, cp.timestampMs)
  }

  ghost predicate IdsAgree(codec: Codec, packageId: Address, cp: Checkpoint) {
    forall tx <- cp.transactions, o | IsTouchingOutput(packageId, tx, o) :: IdAgrees(codec, o)
  }

  lemma {:induction false} CollectedComesFromTransactions(packageId: Address, txs: seq<Transaction>)
    requires Collect(packageId, txs).Success?
    ensures forall o :: (o in Collect(packageId, txs).value.created
                         <==> exists tx <- txs :: IsTouchingOutput(packageId, tx, o))
    ensures forall x :: (x in Collect(packageId, txs).value.deleted
                         <==> exists tx <- txs :: IsTouchingRemoval(packageId, tx, x))
  {
    if txs == [] {
    } else {
      var n := |txs| - 1;
      CollectedComesFromTransactions(packageId, txs[..n]);
      assert forall tx :: tx in txs <==> tx in txs[..n] || tx == txs[n];
    }
  }

  lemma HasRowIff(codec: Codec)
    ensures forall o :: ToExpiration(codec, o).Success? <==> HasRow(codec, o)
  {
    forall o ensures ToExpiration(codec, o).Success? <==> HasRow(codec, o) {
      ToExpirationIff(codec, o, ExpirationRow(0, 0, 0, 0));
    }
  }

  /** A checkpoint can be completed exactly when all its transactions can be read and every shared output
      recognised in those that count has an expiration to derive a row from. */
  lemma CompleteIff(codec: Codec, packageId: Address, cp: Checkpoint)
    ensures JobOf(codec, packageId, cp).reach.Complete?
       <==> && (forall tx <- cp.transactions :: tx.genesis || tx.inputs.Success?)
            && (forall tx <- cp.transactions, o | IsTouchingOutput(packageId, tx, o) :: HasRow(codec, o))
  {
    var collected := Collect(packageId, cp.transactions);
    if collected.Success? {
      var os := collected.value.created;
      CollectedComesFromTransactions(packageId, cp.transactions);
      AllConvertIff(codec, os);
      assert AllConvert(codec, os) <==> forall o <- os :: HasRow(codec, o) by {
        HasRowIff(codec);
      }
    }
  }

  /** Every commit a checkpoint makes is faithful to its contents. */
  lemma JobIsFaithful(codec: Codec, packageId: Address, cp: Checkpoint)
    requires IdsAgree(codec, packageId, cp)
    ensures Faithful(codec, JobOf(codec, packageId, cp).commits)
  {
    var collected := Collect(packageId, cp.transactions);
    if collected.Success? {
      CollectedComesFromTransactions(packageId, cp.transactions);
      var os := collected.value.created;
      var puts := Puts(codec, os);
      forall c | c in JobOf(codec, packageId, cp).commits && c.Put?
        ensures ToExpiration(codec, c.stored) == Success(c.row) && c.row.objectId == c.stored.id
      {
        var k :| 0 <= k < |puts| && puts[k] == c;
        assert os[k] in os;
        assert IdAgrees(codec, os[k]);
      }
    }
  }
}
