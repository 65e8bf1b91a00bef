/** Concrete streams and runs on which the code does not do what one would hope. */
module Witnesses {
  import opened MachineInts
  import opened Wrappers
  import opened Models
  import opened Store
  import opened Commits
  import opened Planning
  import opened ProgressStore
  import opened Sequential
  import opened Pool
  import opened PoolConvergence
  import opened Query
  import opened Handover

  /** Object 7, stored as a basic output. */
  function Output7(contents: Contents): StoredObject {
    StoredObject(7, Basic, contents)
  }

  /** An ordinary transaction that calls the package and outputs object 7. */
  function OutputTransaction(packageId: Address, contents: Contents): Transaction {
    Transaction(false, Success([MovePackage(packageId)]), [],
                [Object(7, true, Move("basic_output", "BasicOutput", contents))])
  }

  lemma OutputIsCreated(packageId: Address, contents: Contents)
    ensures var tx := OutputTransaction(packageId, contents);
            && TouchesStardust(packageId, tx) == Success(true)
            && CreatedBy(packageId, tx) == [Output7(contents)] && DeletedBy(packageId, tx) == []
  {
    var tx := OutputTransaction(packageId, contents);
    assert |"basic_output"| != |"nft_output"|;
    assert MovePackage(packageId) in tx.inputs.value;
    assert ToStored(tx.outputs[0]) == Success(Output7(contents));
    assert [Output7(contents)] + SharedOutputs(tx.outputs[1..]) == [Output7(contents)];
  }

  lemma OutputCheckpointJob(
    codec: Codec, packageId: Address, n: u64, timestampMs: u64, contents: Contents, row: ExpirationRow)
    requires ToExpiration(codec, Output7(contents)) == Success(row)
    ensures JobOf(codec, packageId, Checkpoint(n, timestampMs, [OutputTransaction(packageId, contents)]))
         == Job([Put(Output7(contents), row)], Complete, timestampMs)
  {
    var o, txs := Output7(contents), [OutputTransaction(packageId, contents)];
    OutputIsCreated(packageId, contents);
    assert txs[..0] == [] && Collect(packageId, txs[..0]) == Success(Collected([], []));
    assert Collect(packageId, txs) == Success(Collected([] + [o], [] + []));
    assert [] + [o] == [o];
    assert Puts(codec, [o][1..]) == [];
    assert Puts(codec, [o]) == [Put(o, row)];
  }

  /** Two checkpoints output object 7, first with contents `a`, then with contents `b`. */
  function Rewriting(packageId: Address, a: Contents, b: Contents): seq<Checkpoint> {
    [Checkpoint(0, 0, [OutputTransaction(packageId, a)]), Checkpoint(1, 1000, [OutputTransaction(packageId, b)])]
  }

  lemma LastPut(t: Tables, cs: seq<Commit>, o: StoredObject, row: ExpirationRow)
    ensures var t' := Run(t, cs + [Put(o, row)]);
            o.id in t'.objects && t'.objects[o.id] == o
  {
    assert (cs + [Put(o, row)])[..|cs|] == cs;
  }

  /** With two workers the second checkpoint can overtake the first. */
  const OVERTAKING: seq<Move> :=
    [Start, Start, ReadTransactions(1), MakeCommit(1), Finish(1), ReadTransactions(0), MakeCommit(0), Finish(0)]

  /** Both are done, nothing failed, and the older contents stay. */
  lemma OvertakenCheckpointWins(codec: Codec, packageId: Address, a: Contents, b: Contents)
    requires a != b && ToExpiration(codec, Output7(a)).Success? && ToExpiration(codec, Output7(b)).Success?
    ensures var jobs := Jobs(codec, packageId, Rewriting(packageId, a, b));
            var p := After(jobs, 2, OVERTAKING);
            && AllDone(jobs, p) && p.tables != Run(EMPTY, Work(jobs))
            && 7 in p.tables.objects && p.tables.objects[7].contents == a
            && var inOrder := Run(EMPTY, Work(jobs));
               7 in inOrder.objects && inOrder.objects[7].contents == b
  {
    var jobs := Jobs(codec, packageId, Rewriting(packageId, a, b));
    var rowA, rowB := ToExpiration(codec, Output7(a)).value, ToExpiration(codec, Output7(b)).value;
    OutputCheckpointJob(codec, packageId, 0, 0, a, rowA);
    OutputCheckpointJob(codec, packageId, 1, 1000, b, rowB);
    OvertakingIsLateRun(jobs);
    LateRunEnds(jobs, 2, 0, 2);
    LastPut(EMPTY, Work(jobs[..0]) + Work(jobs[1..2]), Output7(a), rowA);
    LastPut(EMPTY, Work(jobs[..1]), Output7(b), rowB);
  }

  lemma OvertakingIsLateRun(jobs: seq<Job>)
    requires |jobs| == 2 && |jobs[0].commits| == |jobs[1].commits| == 1
    ensures LateRun(jobs, 0, 2) == OVERTAKING
  {
    OneCommit(0);
    OneCommit(1);
    assert Through(jobs, 0, 0) == [] && Through(jobs, 1, 1) == [];
    assert Through(jobs, 1, 2) == [Start, ReadTransactions(1), MakeCommit(1), Finish(1)];
  }

  lemma OneCommit(i: nat)
    ensures CommitMoves(i, 1) == [MakeCommit(i)]
  {
    assert CommitMoves(i, 0) == [];
  }

  /** One checkpoint that outputs object 7. */
  function Single(packageId: Address, contents: Contents): seq<Checkpoint> {
    [Checkpoint(0, 0, [OutputTransaction(packageId, contents)])]
  }

  /** It is indexed and saved; then a reset is cut off half-way, and the next start is without it. */
  const HALF_RESET: seq<Move> :=
    [Start, ReadTransactions(0), MakeCommit(0), Finish(0), SaveWatermark(1), ResetObjects, Restart]

  /** There is nothing left to do, and the object is gone. */
  lemma HalfResetLosesOutput(codec: Codec, packageId: Address, q: nat, contents: Contents)
    requires 1 <= q && ToExpiration(codec, Output7(contents)).Success?
    ensures var jobs := Jobs(codec, packageId, Single(packageId, contents));
            var p := After(jobs, q, HALF_RESET);
            && AllDone(jobs, p) && p.base == 1
            && 7 !in p.tables.objects && 7 in Run(EMPTY, Work(jobs)).objects
  {
    var jobs := Jobs(codec, packageId, Single(packageId, contents));
    var row := ToExpiration(codec, Output7(contents)).value;
    OutputCheckpointJob(codec, packageId, 0, 0, contents, row);
    LastPut(EMPTY, Work(jobs[..0]), Output7(contents), row);
    HalfResetEnds(jobs, q);
  }

  lemma {:induction false} HalfResetMoves(jobs: seq<Job>)
    requires |jobs| == 1 && |jobs[0].commits| == 1
    ensures Through(jobs, 0, 1) == HALF_RESET[..4] && HALF_RESET[..4] + HALF_RESET[4..] == HALF_RESET
  {
    OneCommit(0);
    assert Through(jobs, 0, 0) == [];
  }

  lemma HalfResetEnds(jobs: seq<Job>, q: nat)
    requires 1 <= q && |jobs| == 1 && jobs[0].reach.Complete? && |jobs[0].commits| == 1
    ensures Leads(jobs, q, INITIAL, HALF_RESET, INITIAL.(rows := SaveTo(map[], TASK, 1), next := 1, base := 1))
  {
    var end := INITIAL.(rows := SaveTo(map[], TASK, 1), next := 1, base := 1);
    HalfResetMoves(jobs);
    ThroughRuns(jobs, q, INITIAL, 0, 1);
    SavedThenHalfReset(jobs, q, Passed(jobs, INITIAL, 0, 1));
    LeadsThen(jobs, q, INITIAL, HALF_RESET[..4], Passed(jobs, INITIAL, 0, 1), HALF_RESET[4..], end);
  }

  lemma SavedThenHalfReset(jobs: seq<Job>, q: nat, p: Pool)
    requires p.next == 1 && p.active == map[] && p.read == {} && p.rows == map[] && !p.resetting
    ensures Leads(jobs, q, p, HALF_RESET[4..], INITIAL.(rows := SaveTo(map[], TASK, 1), next := 1, base := 1))
  {
    var saved := Saved(p, 1);
    var cleared := saved.(tables := EMPTY, clock := None, base := 1, resetting := true);
    SaveIsPossible(jobs, q, p, 1);
    LeadsOne(jobs, q, saved, ResetObjects);
    LeadsOne(jobs, q, cleared, Restart);
    LeadsThen(jobs, q, p, [SaveWatermark(1)], saved, [ResetObjects], cleared);
    LeadsThen(jobs, q, p, [SaveWatermark(1)] + [ResetObjects], cleared, [Restart], cleared.(resetting := false));
    assert [SaveWatermark(1)] + [ResetObjects] + [Restart] == HALF_RESET[4..];
  }

  /** Object 7 is output at time 0; nothing happens in the next checkpoint, of the same time, nor in the
      one after it, a second later. */
  function Expiring(packageId: Address, contents: Contents): seq<Checkpoint> {
    [Checkpoint(0, 0, [OutputTransaction(packageId, contents)]), Checkpoint(1, 0, []), Checkpoint(2, 1000, [])]
  }

  /** All are processed; then the process restarts and reads the first again. */
  const REPLAYED: seq<Move> :=
    [Start, ReadTransactions(0), MakeCommit(0), Finish(0), Start, ReadTransactions(1), Finish(1),
     Start, ReadTransactions(2), Finish(2), Restart, Start, ReadTransactions(0)]

  /** The second worker is done with the third checkpoint before the first reads the second. */
  const OVERLAPPED: seq<Move> :=
    [Start, ReadTransactions(0), MakeCommit(0), Finish(0), Start, Start, ReadTransactions(2), Finish(2),
     ReadTransactions(1)]

  ghost predicate IsExpiring(jobs: seq<Job>, o: StoredObject, row: ExpirationRow) {
    jobs == [Job([Put(o, row)], Complete, 0), Job([], Complete, 0), Job([], Complete, 1000)]
  }

  lemma ExpiringJobs(codec: Codec, packageId: Address, contents: Contents, row: ExpirationRow)
    requires ToExpiration(codec, Output7(contents)) == Success(row)
    ensures IsExpiring(Jobs(codec, packageId, Expiring(packageId, contents)), Output7(contents), row)
  {
    OutputCheckpointJob(codec, packageId, 0, 0, contents, row);
  }

  /** Only object 7 is stored, and the clock stands at `now`. */
  ghost predicate Showing(p: Pool, o: StoredObject, row: ExpirationRow, now: u64) {
    p.tables == Tables(map[o.id := o], map[o.id := row]) && p.clock == Some(now)
  }

  lemma ShowingIsServed(p: Pool, o: StoredObject, row: ExpirationRow, now: u64)
    requires Showing(p, o, row, now) && row.unixTime == 1 && now < TWO_TO_THE_63
    ensures ServedTo(p, [o.id], o, if now < 1000 then row.owner else row.returnAddress)
  {
    assert JoinWhere(p.tables, [o.id][1..], Resolved(o.objectType, row.owner, AsI64(now))) == [];
    assert JoinWhere(p.tables, [o.id][1..], Resolved(o.objectType, row.returnAddress, AsI64(now))) == [];
  }

  lemma ExpiringWork(jobs: seq<Job>, o: StoredObject, row: ExpirationRow)
    requires IsExpiring(jobs, o, row)
    ensures Work(jobs[0..1]) == Work(jobs[0..3]) == [Put(o, row)] && Work(jobs[2..3]) == []
    ensures Run(EMPTY, [Put(o, row)]) == Tables(map[o.id := o], map[o.id := row])
  {
    assert jobs[0..1][..0] == [] && jobs[2..3][..0] == [];
    assert jobs[0..3][..2] == jobs[0..2] && jobs[0..2][..1] == jobs[0..1];
    assert Work(jobs[0..2]) == Work(jobs[0..1]) + [];
    assert [Put(o, row)][..0] == [] && Run(EMPTY, [Put(o, row)][..0]) == EMPTY;
  }

  lemma ExpiringMoves(jobs: seq<Job>, o: StoredObject, row: ExpirationRow)
    requires IsExpiring(jobs, o, row)
    ensures Through(jobs, 0, 3) == REPLAYED[..10]
    ensures LateRunWaits(jobs, 1, 3) == OVERLAPPED[..8]
  {
    OneCommit(0);
    assert CommitMoves(1, 0) == CommitMoves(2, 0) == [];
    assert Through(jobs, 0, 0) == Through(jobs, 2, 2) == [];
    assert Through(jobs, 0, 1) == REPLAYED[..4];
    assert Through(jobs, 0, 2) == REPLAYED[..7];
    assert Through(jobs, 2, 3) == OVERLAPPED[5..8];
  }

  lemma ReplayedOnce(jobs: seq<Job>, q: nat, o: StoredObject, row: ExpirationRow)
    requires IsExpiring(jobs, o, row) && 1 <= q
    ensures Leads(jobs, q, INITIAL, REPLAYED[..10], Passed(jobs, INITIAL, 0, 3))
    ensures Showing(Passed(jobs, INITIAL, 0, 3), o, row, 1000)
  {
    ExpiringMoves(jobs, o, row);
    ExpiringWork(jobs, o, row);
    ThroughRuns(jobs, q, INITIAL, 0, 3);
  }

  /** From a state with everything done and nothing saved. */
  lemma ReplayedAgain(jobs: seq<Job>, q: nat, p: Pool)
    requires |jobs| > 0 && !jobs[0].reach.Unreadable? && 1 <= q
    requires p.rows == map[] && p.base == 0 && p.active == map[] && p.read == {} && !p.resetting
    ensures Leads(jobs, q, p, REPLAYED[10..],
                  p.(next := 1, active := map[0 := 0], read := {0}, clock := Some(jobs[0].timestampMs)))
  {
    var crashed := p.(next := 0, clock := None);
    var started := crashed.(next := 1, active := map[0 := 0]);
    var read := started.(read := {0}, clock := Some(jobs[0].timestampMs));
    CrashForgets(jobs, q, p);
    HandOut(jobs, q, crashed);
    AttemptBegins(jobs, q, started, 0);
    LeadsThen(jobs, q, p, [Restart], crashed, [Start], started);
    LeadsThen(jobs, q, p, [Restart] + [Start], started, [ReadTransactions(0)], read);
    assert [Restart] + [Start] + [ReadTransactions(0)] == REPLAYED[10..];
  }

  lemma ReplayedStates(jobs: seq<Job>, q: nat, o: StoredObject, row: ExpirationRow)
    requires IsExpiring(jobs, o, row) && 1 <= q
    ensures Showing(State(jobs, q, REPLAYED, 10), o, row, 1000)
    ensures Showing(State(jobs, q, REPLAYED, 13), o, row, 0)
  {
    var p := Passed(jobs, INITIAL, 0, 3);
    ReplayedOnce(jobs, q, o, row);
    ReplayedAgain(jobs, q, p);
    LeadsThen(jobs, q, INITIAL, REPLAYED[..10], p, REPLAYED[10..],
              p.(next := 1, active := map[0 := 0], read := {0}, clock := Some(0)));
    assert REPLAYED[..10] + REPLAYED[10..] == REPLAYED[..13];
  }

  lemma OverlappedStates(jobs: seq<Job>, q: nat, o: StoredObject, row: ExpirationRow)
    requires IsExpiring(jobs, o, row) && 2 <= q
    ensures Showing(State(jobs, q, OVERLAPPED, 8), o, row, 1000)
    ensures Showing(State(jobs, q, OVERLAPPED, 9), o, row, 0)
  {
    var p := OthersDone(jobs, 1, 3);
    ExpiringMoves(jobs, o, row);
    ExpiringWork(jobs, o, row);
    OthersFirst(jobs, q, 1, 3);
    OthersArrive(jobs, 1, 3);
    AttemptBegins(jobs, q, p, 1);
    var read := p.(read := p.read + {1}, clock := Some(0));
    LeadsThen(jobs, q, INITIAL, OVERLAPPED[..8], p, [ReadTransactions(1)], read);
    assert OVERLAPPED[..8] + [ReadTransactions(1)] == OVERLAPPED[..9];
  }

  /** An object is served to the return address in one state of a run, and to its owner in a later one. */
  ghost predicate HandsBack(
    jobs: seq<Job>, q: nat, moves: seq<Move>, a: nat, b: nat, o: StoredObject, row: ExpirationRow)
  {
    && a < b <= |moves|
    && ServedTo(State(jobs, q, moves, a), [o.id], o, row.returnAddress)
    && ServedTo(State(jobs, q, moves, b), [o.id], o, row.owner)
  }

  /** One worker hands an expired object back to its owner after a restart. */
  lemma ReplayHandsBack(codec: Codec, packageId: Address, contents: Contents, row: ExpirationRow)
    requires ToExpiration(codec, Output7(contents)) == Success(row) && row.unixTime == 1
    ensures var jobs := Jobs(codec, packageId, Expiring(packageId, contents));
            HandsBack(jobs, 1, REPLAYED, 10, 13, Output7(contents), row)
  {
    var jobs, o := Jobs(codec, packageId, Expiring(packageId, contents)), Output7(contents);
    ExpiringJobs(codec, packageId, contents, row);
    ReplayedStates(jobs, 1, o, row);
    ShowingIsServed(State(jobs, 1, REPLAYED, 10), o, row, 1000);
    ShowingIsServed(State(jobs, 1, REPLAYED, 13), o, row, 0);
  }

  /** Two workers do within the life of one process. */
  lemma OverlapHandsBack(codec: Codec, packageId: Address, contents: Contents, row: ExpirationRow)
    requires ToExpiration(codec, Output7(contents)) == Success(row) && row.unixTime == 1
    ensures var jobs := Jobs(codec, packageId, Expiring(packageId, contents));
            HandsBack(jobs, 2, OVERLAPPED, 8, 9, Output7(contents), row)
            && SameProcess(OVERLAPPED, 0, |OVERLAPPED|)
  {
    var jobs, o := Jobs(codec, packageId, Expiring(packageId, contents)), Output7(contents);
    ExpiringJobs(codec, packageId, contents, row);
    OverlappedStates(jobs, 2, o, row);
    ShowingIsServed(State(jobs, 2, OVERLAPPED, 8), o, row, 1000);
    ShowingIsServed(State(jobs, 2, OVERLAPPED, 9), o, row, 0);
  }
}
