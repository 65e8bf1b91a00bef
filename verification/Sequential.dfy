/** Checkpoints processed one after the other, each to completion. */
module Sequential {
  import opened Models
  import opened Store
  import opened Commits
  import opened Planning
  import opened Batching

  /** The commits of a list of jobs, in order. */
  function Work(jobs: seq<Job>): seq<Commit> {
    if jobs == [] then [] else Work(jobs[..|jobs| - 1]) + jobs[|jobs| - 1].commits
  }

  ghost predicate JobsTouch(jobs: seq<Job>, x: Address) {
    exists job <- jobs :: TouchedBy(job.commits, x)
  }

  function Jobs(codec: Codec, packageId: Address, cps: seq<Checkpoint>): (jobs: seq<Job>)
    ensures |jobs| == |cps|
    ensures forall i | 0 <= i < |cps| :: jobs[i] == JobOf(codec, packageId, cps[i])
  {
    seq(|cps|, i requires 0 <= i < |cps| => JobOf(codec, packageId, cps[i]))
  }

  lemma {:induction false} WorkSplit(jobs: seq<Job>, w: nat)
    requires w <= |jobs|
    ensures Work(jobs) == Work(jobs[..w]) + Work(jobs[w..])
  {
    if w == |jobs| {
      assert jobs[..w] == jobs;
    } else {
      var n := |jobs| - 1;
      WorkSplit(jobs[..n], w);
      assert jobs[..n][..w] == jobs[..w] && jobs[..n][w..] == jobs[w..][..n - w];
    }
  }

  lemma {:induction false} WorkTouches(jobs: seq<Job>, x: Address)
    ensures TouchedBy(Work(jobs), x) <==> JobsTouch(jobs, x)
  {
    if jobs == [] {
    } else {
      var n := |jobs| - 1;
      WorkTouches(jobs[..n], x);
      TouchedByConcat(Work(jobs[..n]), jobs[n].commits, x);
      assert forall job :: job in jobs <==> job in jobs[..n] || job == jobs[n];
    }
  }

  lemma JobsAreFaithful(codec: Codec, packageId: Address, cps: seq<Checkpoint>)
    requires forall cp <- cps :: IdsAgree(codec, packageId, cp)
    ensures forall job <- Jobs(codec, packageId, cps) :: Faithful(codec, job.commits)
  {
    forall i | 0 <= i < |cps| {
      JobIsFaithful(codec, packageId, cps[i]);
    }
  }

  /** The reference over a whole run. */
  function StepwiseAll(codec: Codec, packageId: Address, cps: seq<Checkpoint>): seq<Commit> {
    if cps == [] then []
    else StepwiseAll(codec, packageId, cps[..|cps| - 1])
         + Stepwise(codec, packageId, cps[|cps| - 1].transactions)
  }

  /** Every transaction can be read and every collected output converts. */
  ghost predicate AllComplete(codec: Codec, packageId: Address, cps: seq<Checkpoint>) {
    forall cp <- cps :: JobOf(codec, packageId, cp).reach.Complete?
  }

  ghost predicate NothingReborn(packageId: Address, cps: seq<Checkpoint>) {
    forall cp <- cps, x :: !Reborn(packageId, cp.transactions, x)
  }

  lemma CompleteIsStepwise(codec: Codec, packageId: Address, cp: Checkpoint, t: Tables)
    requires JobOf(codec, packageId, cp).reach.Complete?
    requires forall x :: !Reborn(packageId, cp.transactions, x)
    ensures Run(t, JobOf(codec, packageId, cp).commits) == Run(t, Stepwise(codec, packageId, cp.transactions))
  {
    BatchingPreservesMeaningIff(codec, packageId, cp, t);
  }

  lemma {:induction false} SequentialIsStepwise(
    codec: Codec, packageId: Address, cps: seq<Checkpoint>, t: Tables)
    requires AllComplete(codec, packageId, cps)
    requires NothingReborn(packageId, cps)
    ensures Run(t, Work(Jobs(codec, packageId, cps))) == Run(t, StepwiseAll(codec, packageId, cps))
  {
    if cps == [] {
    } else {
      var n := |cps| - 1;
      var init, cp := cps[..n], cps[n];
      var jobs := Jobs(codec, packageId, cps);
      assert jobs[..n] == Jobs(codec, packageId, init);
      assert cp in cps && forall cp' <- init :: cp' in cps;
      SequentialIsStepwise(codec, packageId, init, t);
      CompleteIsStepwise(codec, packageId, cp, Run(t, Work(jobs[..n])));
      RunConcat(t, Work(jobs[..n]), jobs[n].commits);
      RunConcat(t, StepwiseAll(codec, packageId, init), Stepwise(codec, packageId, cp.transactions));
    }
  }

  ghost predicate HasPut(cs: seq<Commit>, o: StoredObject) {
    exists c <- cs :: c.Put? && c.stored == o
  }

  lemma HasPutStep(codec: Codec, packageId: Address, head: seq<Commit>, tx: Transaction, o: StoredObject)
    requires var os := CreatedBy(packageId, tx); |Puts(codec, os)| == |os|
    ensures HasPut(head + Puts(codec, CreatedBy(packageId, tx)) + [Remove(set y | y in DeletedBy(packageId, tx))], o)
       <==> HasPut(head, o) || IsTouchingOutput(packageId, tx, o)
  {
    var os := CreatedBy(packageId, tx);
    var puts, remove := Puts(codec, os), Remove(set y | y in DeletedBy(packageId, tx));
    assert forall c :: c in head + puts + [remove] <==> c in head || c in puts || c == remove;
    if o in os {
      var k :| 0 <= k < |os| && os[k] == o;
      assert puts[k] in puts && puts[k].stored == o;
    }
    assert HasPut(puts, o) ==> o in os;
  }

  /** The objects a reference run puts are the shared, recognised outputs of touching transactions. */
  lemma {:induction false} StepwisePutsAreOutputs(
    codec: Codec, packageId: Address, txs: seq<Transaction>, o: StoredObject)
    requires Collect(packageId, txs).Success?
    requires var os := Collect(packageId, txs).value.created; |Puts(codec, os)| == |os|
    ensures HasPut(Stepwise(codec, packageId, txs), o)
       <==> exists tx <- txs :: IsTouchingOutput(packageId, tx, o)
  {
    if txs == [] {
    } else {
      var n := |txs| - 1;
      var init, tx := txs[..n], txs[n];
      PutsConcat(codec, Collect(packageId, init).value.created, CreatedBy(packageId, tx));
      StepwisePutsAreOutputs(codec, packageId, init, o);
      HasPutStep(codec, packageId, Stepwise(codec, packageId, init), tx, o);
      assert forall tx' :: tx' in txs <==> tx' in init || tx' == tx;
    }
  }

  lemma CompletePutsAreOutputs(codec: Codec, packageId: Address, cp: Checkpoint, o: StoredObject)
    requires JobOf(codec, packageId, cp).reach.Complete?
    ensures HasPut(Stepwise(codec, packageId, cp.transactions), o) <==> IsCheckpointOutput(packageId, cp, o)
  {
    StepwisePutsAreOutputs(codec, packageId, cp.transactions, o);
  }

  ghost predicate IsCheckpointOutput(packageId: Address, cp: Checkpoint, o: StoredObject) {
    exists tx <- cp.transactions :: IsTouchingOutput(packageId, tx, o)
  }

  ghost predicate IsRunOutput(packageId: Address, cps: seq<Checkpoint>, o: StoredObject) {
    exists cp <- cps :: IsCheckpointOutput(packageId, cp, o)
  }

  lemma RunOutputStep(packageId: Address, init: seq<Checkpoint>, cp: Checkpoint, o: StoredObject)
    ensures IsRunOutput(packageId, init + [cp], o)
       <==> IsRunOutput(packageId, init, o) || IsCheckpointOutput(packageId, cp, o)
  {
    assert forall cp' :: cp' in init + [cp] <==> cp' in init || cp' == cp;
  }

  /** Over a whole run too: nothing else is ever put. */
  lemma {:induction false} PutsAreTouchingOutputs(
    codec: Codec, packageId: Address, cps: seq<Checkpoint>, o: StoredObject)
    requires AllComplete(codec, packageId, cps)
    ensures HasPut(StepwiseAll(codec, packageId, cps), o) <==> IsRunOutput(packageId, cps, o)
  {
    if cps == [] {
    } else {
      var n := |cps| - 1;
      var init, cp := cps[..n], cps[n];
      assert cps == init + [cp] && cp in cps;
      PutsAreTouchingOutputs(codec, packageId, init, o);
      CompletePutsAreOutputs(codec, packageId, cp, o);
      HasPutConcat(StepwiseAll(codec, packageId, init), Stepwise(codec, packageId, cp.transactions), o);
      RunOutputStep(packageId, init, cp, o);
    }
  }

  lemma HasPutConcat(a: seq<Commit>, b: seq<Commit>, o: StoredObject)
    ensures HasPut(a + b, o) <==> HasPut(a, o) || HasPut(b, o)
  {
    assert forall c :: c in a + b <==> c in a || c in b;
  }

  /** The last touch of the object's id is an output, and the output is this object. */
  ghost predicate IsLastOutput(codec: Codec, packageId: Address, cps: seq<Checkpoint>, o: StoredObject) {
    var touches := StepwiseAll(codec, packageId, cps);
    exists k: nat :: IsLastTouch(touches, o.id, k) && touches[k].Put? && touches[k].stored == o
  }

  /** After a run from an empty database, the stored object of an id is its last output,
      unless a removal came after it. */
  lemma LastTouchWins(codec: Codec, packageId: Address, cps: seq<Checkpoint>, o: StoredObject)
    requires AllComplete(codec, packageId, cps)
    requires NothingReborn(packageId, cps)
    ensures var final := Run(EMPTY, Work(Jobs(codec, packageId, cps)));
            (o.id in final.objects && final.objects[o.id] == o) <==> IsLastOutput(codec, packageId, cps, o)
  {
    var final := Run(EMPTY, Work(Jobs(codec, packageId, cps)));
    var touches := StepwiseAll(codec, packageId, cps);
    SequentialIsStepwise(codec, packageId, cps, EMPTY);
    RunIsLastTouch(EMPTY, touches, o.id);
    assert CellOf(final, o.id) == CellOf(Run(EMPTY, touches), o.id);
    assert CellOf(EMPTY, o.id) == ABSENT;
    if o.id in final.objects {
      var k: nat :| IsLastTouch(touches, o.id, k);
      assert CellOf(final, o.id) == Effect(touches[k]);
    }
  }
}
