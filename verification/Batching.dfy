/** "All upserts, then one delete" against applying a checkpoint transaction by transaction. */
module Batching {
  import opened Wrappers
  import opened Models
  import opened Store
  import opened Commits
  import opened Planning

  /** The reference: each transaction's outputs, then its removals. */
  function Stepwise(codec: Codec, packageId: Address, txs: seq<Transaction>): seq<Commit> {
    if txs == [] then []
    else
      var n := |txs| - 1;
      Stepwise(codec, packageId, txs[..n])
      + Puts(codec, CreatedBy(packageId, txs[n]))
      + [Remove(set x | x in DeletedBy(packageId, txs[n]))]
  }

  predicate Outputs(packageId: Address, tx: Transaction, x: Address) {
    exists o <- CreatedBy(packageId, tx) :: o.id == x
  }

  ghost predicate EverRemoved(packageId: Address, txs: seq<Transaction>, x: Address) {
    exists i :: 0 <= i < |txs| && x in DeletedBy(packageId, txs[i])
  }

  ghost predicate RebornAt(packageId: Address, txs: seq<Transaction>, x: Address, i: nat, j: nat) {
    && i < j < |txs|
    && x in DeletedBy(packageId, txs[i])
    && Outputs(packageId, txs[j], x)
    && forall k :: j <= k < |txs| ==> x !in DeletedBy(packageId, txs[k])
  }

  /** `x` is removed, then output by a later transaction of the checkpoint, and not removed again. */
  ghost predicate Reborn(packageId: Address, txs: seq<Transaction>, x: Address) {
    exists i: nat, j: nat :: RebornAt(packageId, txs, x, i, j)
  }

  /** Puts that all convert are additive. */
  lemma PutsConcat(codec: Codec, a: seq<StoredObject>, b: seq<StoredObject>)
    requires |Puts(codec, a + b)| == |a + b|
    ensures |Puts(codec, a)| == |a| && |Puts(codec, b)| == |b|
    ensures Puts(codec, a + b) == Puts(codec, a) + Puts(codec, b)
  {
    AllConvertIff(codec, a + b);
    assert forall o :: o in a || o in b ==> o in a + b;
    AllConvertIff(codec, a);
    AllConvertIff(codec, b);
    var both := Puts(codec, a) + Puts(codec, b);
    forall k | 0 <= k < |a + b| ensures Puts(codec, a + b)[k] == both[k] {
      assert (a + b)[k] == if k < |a| then a[k] else b[k - |a|];
    }
  }

  lemma PutsTouch(codec: Codec, os: seq<StoredObject>, x: Address)
    requires |Puts(codec, os)| == |os|
    ensures TouchedBy(Puts(codec, os), x) <==> exists o <- os :: o.id == x
    ensures TouchedBy(Puts(codec, os), x) ==> CellOf(Run(EMPTY, Puts(codec, os)), x).stored.Some?
  {
    var cs := Puts(codec, os);
    if o :| o in os && o.id == x {
      var k :| 0 <= k < |os| && os[k] == o;
      assert cs[k] in cs && Touches(cs[k], x);
    }
    RunIsLastTouch(EMPTY, cs, x);
  }

  lemma RebornBefore(packageId: Address, init: seq<Transaction>, tx: Transaction, x: Address, i: nat, j: nat)
    requires RebornAt(packageId, init + [tx], x, i, j)
    ensures x !in DeletedBy(packageId, tx) && i < |init| && x in DeletedBy(packageId, init[i])
    ensures if j == |init| then Outputs(packageId, tx, x) else RebornAt(packageId, init, x, i, j)
  {
    var txs, n := init + [tx], |init|;
    assert txs[n] == tx && txs[i] == init[i];
    if j < n {
      assert txs[j] == init[j];
      assert forall k | j <= k < n :: txs[k] == init[k];
    }
  }

  lemma RebornStays(packageId: Address, init: seq<Transaction>, tx: Transaction, x: Address, i: nat, j: nat)
    requires RebornAt(packageId, init, x, i, j) && x !in DeletedBy(packageId, tx)
    ensures RebornAt(packageId, init + [tx], x, i, j)
  {
  }

  /** A last transaction that removes `x` ends the matter; one that outputs it decides it. */
  lemma RebornStep(packageId: Address, init: seq<Transaction>, tx: Transaction, x: Address)
    ensures Reborn(packageId, init + [tx], x) <==>
            && x !in DeletedBy(packageId, tx)
            && (if Outputs(packageId, tx, x) then EverRemoved(packageId, init, x)
                else Reborn(packageId, init, x))
  {
    var n := |init|;
    if i: nat, j: nat :| RebornAt(packageId, init + [tx], x, i, j) {
      RebornBefore(packageId, init, tx, x, i, j);
    }
    if x !in DeletedBy(packageId, tx) {
      if Outputs(packageId, tx, x) {
        if i: nat :| i < n && x in DeletedBy(packageId, init[i]) {
          assert (init + [tx])[i] == init[i] && (init + [tx])[n] == tx;
          assert RebornAt(packageId, init + [tx], x, i, n);
        }
      } else if i: nat, j: nat :| RebornAt(packageId, init, x, i, j) {
        RebornStays(packageId, init, tx, x, i, j);
      }
    }
  }

  lemma EverRemovedStep(packageId: Address, init: seq<Transaction>, tx: Transaction, x: Address)
    ensures EverRemoved(packageId, init + [tx], x)
       <==> EverRemoved(packageId, init, x) || x in DeletedBy(packageId, tx)
  {
    var txs := init + [tx];
    assert txs[|init|] == tx;
    assert forall i :: 0 <= i < |init| ==> txs[i] == init[i];
  }

  /** One more transaction of the reference: its puts, then its removals. */
  lemma StepCell(t: Tables, head: seq<Commit>, puts: seq<Commit>, ids: set<Address>, x: Address)
    ensures CellOf(Run(t, head + puts + [Remove(ids)]), x)
         == if x in ids then ABSENT
            else if TouchedBy(puts, x) then CellOf(Run(EMPTY, puts), x)
            else CellOf(Run(t, head), x)
  {
    ConcatCell(t, head, puts, x);
    var cs := head + puts + [Remove(ids)];
    assert cs[..|cs| - 1] == head + puts;
    ApplyCell(Run(t, head + puts), Remove(ids), x);
  }

  /** What the reference leaves at one id, by the three cases that matter. */
  ghost predicate StepwiseOutcome(
    codec: Codec, packageId: Address, txs: seq<Transaction>, created: seq<StoredObject>, t: Tables, x: Address)
  {
    var cell := CellOf(Run(t, Stepwise(codec, packageId, txs)), x);
    && (Reborn(packageId, txs, x) ==> cell.stored.Some?)
    && (EverRemoved(packageId, txs, x) && !Reborn(packageId, txs, x) ==> cell == ABSENT)
    && (!EverRemoved(packageId, txs, x) ==> cell == CellOf(Run(t, Puts(codec, created)), x))
  }

  lemma StepwiseStep(
    codec: Codec, packageId: Address, init: seq<Transaction>, tx: Transaction,
    before: seq<StoredObject>, t: Tables, x: Address)
    requires var os := before + CreatedBy(packageId, tx); |Puts(codec, os)| == |os|
    requires StepwiseOutcome(codec, packageId, init, before, t, x)
    ensures StepwiseOutcome(codec, packageId, init + [tx], before + CreatedBy(packageId, tx), t, x)
  {
    var os := CreatedBy(packageId, tx);
    PutsConcat(codec, before, os);
    PutsTouch(codec, os, x);
    RebornStep(packageId, init, tx, x);
    EverRemovedStep(packageId, init, tx, x);
    var head, ids := Stepwise(codec, packageId, init), set y | y in DeletedBy(packageId, tx);
    assert (init + [tx])[..|init|] == init;
    assert Stepwise(codec, packageId, init + [tx]) == head + Puts(codec, os) + [Remove(ids)];
    StepCell(t, head, Puts(codec, os), ids, x);
    ConcatCell(t, Puts(codec, before), Puts(codec, os), x);
  }

  lemma {:induction false} StepwiseCell(
    codec: Codec, packageId: Address, txs: seq<Transaction>, t: Tables, x: Address)
    requires Collect(packageId, txs).Success?
    requires var os := Collect(packageId, txs).value.created; |Puts(codec, os)| == |os|
    ensures StepwiseOutcome(codec, packageId, txs, Collect(packageId, txs).value.created, t, x)
  {
    if txs == [] {
    } else {
      var n := |txs| - 1;
      var before := Collect(packageId, txs[..n]).value.created;
      assert txs == txs[..n] + [txs[n]];
      PutsConcat(codec, before, CreatedBy(packageId, txs[n]));
      StepwiseCell(codec, packageId, txs[..n], t, x);
      StepwiseStep(codec, packageId, txs[..n], txs[n], before, t, x);
    }
  }

  /** The batch ends with the removals, so it leaves nothing of a removed id. */
  lemma BatchCell(codec: Codec, c: Collected, t: Tables, x: Address)
    requires |Puts(codec, c.created)| == |c.created|
    ensures CellOf(Run(t, CommitsOf(codec, c)), x)
         == if x in c.deleted then ABSENT else CellOf(Run(t, Puts(codec, c.created)), x)
  {
    if c.deleted != [] {
      var puts, remove := Puts(codec, c.created), Remove(set y | y in c.deleted);
      assert (puts + [remove])[..|puts|] == puts;
      ApplyCell(Run(t, puts), remove, x);
    }
  }

  /** The batch differs from the reference at one id exactly when that id is reborn. */
  lemma BatchingDiffersExactlyAtReborn(
    codec: Codec, packageId: Address, cp: Checkpoint, t: Tables, x: Address)
    requires JobOf(codec, packageId, cp).reach.Complete?
    ensures CellOf(Run(t, JobOf(codec, packageId, cp).commits), x)
         == CellOf(Run(t, Stepwise(codec, packageId, cp.transactions)), x)
        <==> !Reborn(packageId, cp.transactions, x)
  {
    var txs := cp.transactions;
    var c := Collect(packageId, txs).value;
    StepwiseCell(codec, packageId, txs, t, x);
    BatchCell(codec, c, t, x);
    CollectedComesFromTransactions(packageId, txs);
    assert x in c.deleted <==> EverRemoved(packageId, txs, x);
    assert Reborn(packageId, txs, x) ==> EverRemoved(packageId, txs, x);
  }

  /** The batch is the reference exactly when no id is reborn. */
  lemma BatchingPreservesMeaningIff(codec: Codec, packageId: Address, cp: Checkpoint, t: Tables)
    requires JobOf(codec, packageId, cp).reach.Complete?
    ensures Run(t, JobOf(codec, packageId, cp).commits) == Run(t, Stepwise(codec, packageId, cp.transactions))
        <==> forall x :: !Reborn(packageId, cp.transactions, x)
  {
    var batch := Run(t, JobOf(codec, packageId, cp).commits);
    var steps := Run(t, Stepwise(codec, packageId, cp.transactions));
    forall x {
      BatchingDiffersExactlyAtReborn(codec, packageId, cp, t, x);
    }
    if forall x :: !Reborn(packageId, cp.transactions, x) {
      SameCells(batch, steps);
    }
  }

  /** A checkpoint that removes object 7 and then outputs it again. */
  function RebornExample(packageId: Address, contents: Contents): seq<Transaction> {
    var inputs := Success([MovePackage(packageId)]);
    [Transaction(false, inputs, [Removed(7, true)], []),
     Transaction(false, inputs, [], [Object(7, true, Move("basic_output", "BasicOutput", contents))])]
  }

  /** Its output is lost, though it came after the removal. */
  lemma RebornOutputIsLost(codec: Codec, packageId: Address, contents: Contents, output: Output)
    requires codec.basic(contents) == Some(output) && output.expiration.Some?
    ensures var cp := Checkpoint(0, 0, RebornExample(packageId, contents));
            && JobOf(codec, packageId, cp).reach.Complete?
            && 7 !in Run(EMPTY, JobOf(codec, packageId, cp).commits).objects
            && 7 in Run(EMPTY, Stepwise(codec, packageId, cp.transactions)).objects
  {
    var txs, o := RebornExample(packageId, contents), StoredObject(7, Basic, contents);
    ExampleIsCollected(packageId, contents);
    assert Puts(codec, [o]) == [Put(o, ToExpiration(codec, o).value)];
    BatchCell(codec, Collected([o], [7]), EMPTY, 7);
    assert o in CreatedBy(packageId, txs[1]);
    assert RebornAt(packageId, txs, 7, 0, 1);
    StepwiseCell(codec, packageId, txs, EMPTY, 7);
  }

  lemma ExampleIsCollected(packageId: Address, contents: Contents)
    ensures var txs, o := RebornExample(packageId, contents), StoredObject(7, Basic, contents);
            && DeletedBy(packageId, txs[0]) == [7] && CreatedBy(packageId, txs[0]) == []
            && DeletedBy(packageId, txs[1]) == [] && CreatedBy(packageId, txs[1]) == [o]
            && Collect(packageId, txs) == Success(Collected([o], [7]))
  {
    var txs, o := RebornExample(packageId, contents), StoredObject(7, Basic, contents);
    assert |"basic_output"| != |"nft_output"|;
    assert MovePackage(packageId) in txs[0].inputs.value;
    assert ToStored(txs[1].outputs[0]) == Success(o);
    assert SharedOutputs(txs[1].outputs[1..]) == [] && SharedRemovals(txs[0].removed[1..]) == [];
    assert [o] + SharedOutputs(txs[1].outputs[1..]) == [o];
    assert [7] + SharedRemovals(txs[0].removed[1..]) == [7];
    assert txs[..1] == [txs[0]] && txs[..1][..0] == [];
    assert Collect(packageId, txs[..1][..0]) == Success(Collected([], []));
    var first := Collect(packageId, txs[..1]).value;
    assert first.created == [] && first.deleted == [7];
    var all := Collect(packageId, txs).value;
    assert all.created == [o] && all.deleted == [7];
  }
}
