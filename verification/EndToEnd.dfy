/** From the checkpoint stream to the answers: the parts put together. */
module EndToEnd {
  import opened MachineInts
  import opened Wrappers
  import opened Models
  import opened Store
  import opened Commits
  import opened Planning
  import opened Sequential
  import opened Interleaving
  import opened Worker
  import opened Pool
  import opened PoolConvergence
  import opened Query
  import opened Responses

  /** In every state the indexer can reach, whatever the pool size and whichever checkpoints overlap,
      fail or are replayed, every request that can be answered is. */
  lemma ReachableStatesAreServed(
    codec: Codec, packageId: Address, cps: seq<Checkpoint>, q: nat, moves: seq<Move>,
    scan: seq<Address>, latestTimestampMs: u64,
    address: Address, pagination: PaginationParams, objectType: ObjectType, resolve: bool)
    requires forall cp <- cps :: IdsAgree(codec, packageId, cp)
    requires IsScan(After(Jobs(codec, packageId, cps), q, moves).tables, scan)
    ensures var t := After(Jobs(codec, packageId, cps), q, moves).tables;
            var served := Serve(codec, t, scan, Some(latestTimestampMs), address, pagination, objectType, resolve);
            served.Success? && forall view <- served.value :: exists o :: IsAnswer(codec, t, view, o, address)
  {
    var t := After(Jobs(codec, packageId, cps), q, moves).tables;
    JobsAreFaithful(codec, packageId, cps);
    EveryStateAgrees(codec, Jobs(codec, packageId, cps), q, moves);
    DecodingFetchedRowsNeverFails(
      codec, t, scan, Some(latestTimestampMs), address, pagination, objectType, resolve);
  }

  /** An output of a touching transaction that is shared and recognised but has no expiration, or cannot be
      decoded, stops indexing for good: no run ever saves a watermark past its checkpoint, and one worker
      is never handed anything after it. */
  lemma UnconvertibleOutputStopsIndexing(
    codec: Codec, packageId: Address, cps: seq<Checkpoint>, q: nat, moves: seq<Move>,
    i: nat, tx: Transaction, o: StoredObject)
    requires i < |cps| && tx in cps[i].transactions && IsTouchingOutput(packageId, tx, o)
    requires !HasRow(codec, o)
    ensures var p := After(Jobs(codec, packageId, cps), q, moves);
            && p.Watermark() <= i
            && (q <= 1 ==> p.next <= i + 1)
            && !AllDone(Jobs(codec, packageId, cps), p)
  {
    CompleteIff(codec, packageId, cps[i]);
    IncompleteStaysInFlight(Jobs(codec, packageId, cps), q, moves, i);
  }

  /** What a call of the worker on checkpoint `i` makes of the machine. */
  function Called(codec: Codec, packageId: Address, cps: seq<Checkpoint>, p: Pool, i: nat, budget: nat): Pool
    requires i < |cps|
  {
    var out := Process(codec, packageId, p.tables, cps[i], budget);
    p.(tables := out.tables,
       clock := if Collect(packageId, cps[i].transactions).Success? then Some(cps[i].timestampMs) else p.clock,
       active := if out.outcome == Pass then p.active - {i} else p.active)
  }

  /** A whole call of the worker, wherever it stops, is a run of the machine's moves. */
  lemma CallIsMoves(
    codec: Codec, packageId: Address, cps: seq<Checkpoint>, q: nat, p: Pool, i: nat, budget: nat)
    returns (moves: seq<Move>)
    requires i < |cps| && IdsAgree(codec, packageId, cps[i]) && ForeignKey(p.tables)
    requires !p.resetting && i in p.active && p.active[i] == 0 && i !in p.read
    ensures Leads(Jobs(codec, packageId, cps), q, p, moves, Called(codec, packageId, cps, p, i, budget))
  {
    var jobs := Jobs(codec, packageId, cps);
    ProcessCommitsPrefixOfJob(codec, packageId, p.tables, cps[i], budget);
    var k := Min(budget, |jobs[i].commits|);
    if jobs[i].reach.Unreadable? {
      moves := [Retry(i)];
      assert p.active[i := 0] == p.active && p.read - {i} == p.read;
      LeadsOne(jobs, q, p, Retry(i));
    } else if jobs[i].reach.Complete? && k == |jobs[i].commits| {
      moves := Attempt(jobs, i);
      assert jobs[i].commits[..k] == jobs[i].commits;
      AttemptRuns(jobs, q, p, i);
    } else {
      moves := FailedAttempt(i, k);
      FailedAttemptRuns(jobs, q, p, i, k);
    }
  }

  /** An attempt that fails after `k` commits. */
  function FailedAttempt(i: nat, k: nat): seq<Move> {
    [ReadTransactions(i)] + CommitMoves(i, k) + [Retry(i)]
  }

  lemma FailedAttemptRuns(jobs: seq<Job>, q: nat, p: Pool, i: nat, k: nat)
    requires !p.resetting && i in p.active && p.active[i] == 0 && i !in p.read
    requires i < |jobs| && !jobs[i].reach.Unreadable? && k <= |jobs[i].commits|
    ensures Leads(jobs, q, p, FailedAttempt(i, k),
                  p.(tables := Run(p.tables, jobs[i].commits[..k]), clock := Some(jobs[i].timestampMs)))
  {
    var reading := p.(read := p.read + {i}, clock := Some(jobs[i].timestampMs));
    var written := reading.(tables := Run(p.tables, jobs[i].commits[..k]), active := p.active[i := k]);
    var failed := p.(tables := written.tables, clock := written.clock);
    AttemptBegins(jobs, q, p, i);
    AttemptIsMoves(jobs, q, reading, i, k);
    LeadsOne(jobs, q, written, Retry(i));
    assert p.active[i := k][i := 0] == p.active && p.read + {i} - {i} == p.read;
    LeadsThen(jobs, q, p, [ReadTransactions(i)], reading, CommitMoves(i, k), written);
    LeadsThen(jobs, q, p, [ReadTransactions(i)] + CommitMoves(i, k), written, [Retry(i)], failed);
  }

  /** Once everything is done, by one worker or on order-free checkpoints, through any crashes, replays and
      resets that lost nothing for good, a client that asks for enough pages gets exactly the outputs of
      the type that were the last touch of their id and that are the address's: by the ledger's rule at the
      time of the clock if the request is resolved, as either party if not. */
  lemma AnswersAreLastOutputs(
    codec: Codec, packageId: Address, cps: seq<Checkpoint>, q: nat, moves: seq<Move>,
    scan: seq<Address>, clock: Option<u64>, address: Address, resolve: bool, n: u32, pageSize: u32, o: StoredObject)
    requires forall cp <- cps :: IdsAgree(codec, packageId, cp)
    requires q <= 1 || OrderFree(Jobs(codec, packageId, cps))
    requires NothingReborn(packageId, cps)
    requires AllDone(Jobs(codec, packageId, cps), After(Jobs(codec, packageId, cps), q, moves))
    requires RestoredAbove(Jobs(codec, packageId, cps), After(Jobs(codec, packageId, cps), q, moves).base)
    requires IsScan(After(Jobs(codec, packageId, cps), q, moves).tables, scan)
    requires ClockFits(resolve, clock)
    requires |scan| <= n * pageSize && (n >= 1 ==> (n - 1) * pageSize < TWO_TO_THE_32)
    ensures var t := After(Jobs(codec, packageId, cps), q, moves).tables;
            o in FetchPages(t, scan, clock, address, o.objectType, resolve, n, pageSize)
            <==> IsLastOutput(codec, packageId, cps, o) && HeldAt(codec, o, address, AskedAt(resolve, clock))
  {
    var jobs := Jobs(codec, packageId, cps);
    var t := After(jobs, q, moves).tables;
    DoneIsSequential(jobs, q, moves);
    assert Agreement(codec, t) by {
      JobsAreFaithful(codec, packageId, cps);
      EveryStateAgrees(codec, jobs, q, moves);
    }
    assert AllComplete(codec, packageId, cps) by {
      DoneIsComplete(codec, packageId, cps, q, moves);
    }
    FetchedPagesAreDecoded(codec, t, scan, clock, address, o.objectType, resolve, n, pageSize);
    LastTouchWins(codec, packageId, cps, o);
    FilteredIsStoredAndHeld(codec, t, scan, address, AskedAt(resolve, clock), o);
  }

  lemma DoneIsSequential(jobs: seq<Job>, q: nat, moves: seq<Move>)
    requires q <= 1 || OrderFree(jobs)
    requires AllDone(jobs, After(jobs, q, moves)) && RestoredAbove(jobs, After(jobs, q, moves).base)
    ensures After(jobs, q, moves).tables == Run(EMPTY, Work(jobs))
  {
    if q <= 1 {
      OneAtATimeIsDisjoint(jobs, q, moves);
      FinishedRunConverges(jobs, q, moves);
    } else {
      OrderFreeJobsConverge(jobs, q, moves);
    }
  }

  /** A run that got through the stream met no checkpoint that cannot be completed. */
  lemma DoneIsComplete(codec: Codec, packageId: Address, cps: seq<Checkpoint>, q: nat, moves: seq<Move>)
    requires AllDone(Jobs(codec, packageId, cps), After(Jobs(codec, packageId, cps), q, moves))
    ensures AllComplete(codec, packageId, cps)
  {
    var jobs := Jobs(codec, packageId, cps);
    forall cp | cp in cps ensures JobOf(codec, packageId, cp).reach.Complete? {
      var i :| 0 <= i < |cps| && cps[i] == cp;
      if !jobs[i].reach.Complete? {
        IncompleteStaysInFlight(jobs, q, moves, i);
        assert false;
      }
    }
  }

  lemma {:induction false} DecodedMember(
    codec: Codec, t: Tables, scan: seq<Address>, address: Address, at: Option<u64>, o: StoredObject)
    requires forall x <- scan :: x in t.objects
    ensures o in DecodeAndFilter(codec, t, scan, o.objectType, address, at)
       <==> HeldAt(codec, o, address, at) && exists x <- scan :: t.objects[x] == o
  {
    if scan == [] {
    } else {
      DecodedMember(codec, t, scan[1..], address, at, o);
      assert forall x :: x in scan <==> x == scan[0] || x in scan[1..];
      var r := DecodeAs(codec, o.objectType, t.objects[scan[0]]);
      if r.Success? {
        DecodeAsIff(codec, o.objectType, t.objects[scan[0]], r.value);
      }
    }
  }

  lemma FilteredIsStoredAndHeld(
    codec: Codec, t: Tables, scan: seq<Address>, address: Address, at: Option<u64>, o: StoredObject)
    requires Agreement(codec, t) && IsScan(t, scan)
    ensures o in DecodeAndFilter(codec, t, scan, o.objectType, address, at)
       <==> o.id in t.objects && t.objects[o.id] == o && HeldAt(codec, o, address, at)
  {
    DecodedMember(codec, t, scan, address, at, o);
    assert forall x <- scan | t.objects[x] == o :: x == o.id;
  }

  /** The contents decode, as the type of the row says, to an output that is the address's. */
  ghost predicate HeldAt(codec: Codec, o: StoredObject, address: Address, at: Option<u64>) {
    exists output :: DecodesTo(codec, o, output) && Wanted(output.expiration, address, at)
  }
}
