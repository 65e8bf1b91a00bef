/** The clock over whole runs of the machine, and who an expiring object is served to as it moves
    (src/sync/worker.rs, src/rest/routes/v1/mod.rs). */
module Handover {
  import opened MachineInts
  import opened Wrappers
  import opened Models
  import opened Store
  import opened Commits
  import opened Planning
  import opened Query
  import opened Resolution
  import opened Pool
  import opened PoolConvergence

  /** The state after the first `k` moves of a run. */
  function State(jobs: seq<Job>, q: nat, moves: seq<Move>, k: nat): Pool
    requires k <= |moves|
  {
    After(jobs, q, moves[..k])
  }

  lemma StateNext(jobs: seq<Job>, q: nat, moves: seq<Move>, k: nat)
    requires k < |moves|
    ensures State(jobs, q, moves, k + 1) == Take(jobs, q, State(jobs, q, moves, k), moves[k])
  {
    assert moves[..k + 1][..k] == moves[..k];
  }

  /** Move `r` reads the transactions of a checkpoint. */
  predicate Reads(jobs: seq<Job>, q: nat, moves: seq<Move>, r: nat) {
    && r < |moves|
    && moves[r].ReadTransactions?
    && Enabled(jobs, q, State(jobs, q, moves, r), moves[r])
  }

  function TimeRead(jobs: seq<Job>, q: nat, moves: seq<Move>, r: nat): u64
    requires Reads(jobs, q, moves, r)
  {
    jobs[moves[r].i].timestampMs
  }

  predicate EndsProcess(m: Move) {
    m.Restart? || m.ResetObjects?
  }

  /** One process lives through the moves `a` to `b`. */
  predicate SameProcess(moves: seq<Move>, a: nat, b: nat) {
    forall k | a <= k < b && k < |moves| :: !EndsProcess(moves[k])
  }

  /** Move `r` is the last read before state `k`, and the process that made it still lives. */
  ghost predicate IsCurrentRead(jobs: seq<Job>, q: nat, moves: seq<Move>, k: nat, r: nat) {
    && r < k
    && Reads(jobs, q, moves, r)
    && SameProcess(moves, r, k)
    && forall j: nat | r < j < k :: !Reads(jobs, q, moves, j)
  }

  lemma CurrentReadNext(jobs: seq<Job>, q: nat, moves: seq<Move>, k: nat, r: nat)
    requires k < |moves|
    ensures IsCurrentRead(jobs, q, moves, k + 1, r)
       <==> if Reads(jobs, q, moves, k) then r == k
            else IsCurrentRead(jobs, q, moves, k, r) && !EndsProcess(moves[k])
  {
  }

  /** How a move changes the clock. */
  lemma ClockNext(jobs: seq<Job>, q: nat, moves: seq<Move>, k: nat)
    requires k < |moves|
    ensures State(jobs, q, moves, k + 1).clock
         == if Reads(jobs, q, moves, k) then Some(TimeRead(jobs, q, moves, k))
            else if EndsProcess(moves[k]) then None
            else State(jobs, q, moves, k).clock
  {
    StateNext(jobs, q, moves, k);
  }

  /** The clock stands at the checkpoint read last by the process that lives. */
  lemma {:induction false} CurrentReadIsClock(jobs: seq<Job>, q: nat, moves: seq<Move>, k: nat, r: nat)
    requires k <= |moves| && IsCurrentRead(jobs, q, moves, k, r)
    ensures State(jobs, q, moves, k).clock == Some(TimeRead(jobs, q, moves, r))
  {
    if r == k - 1 {
      ClockNext(jobs, q, moves, r);
    } else {
      CurrentReadNext(jobs, q, moves, k - 1, r);
      CurrentReadIsClock(jobs, q, moves, k - 1, r);
      ClockNext(jobs, q, moves, k - 1);
    }
  }

  /** And a clock that is set was set by such a read. */
  lemma {:induction false} ClockIsCurrentRead(jobs: seq<Job>, q: nat, moves: seq<Move>, k: nat) returns (r: nat)
    requires k <= |moves| && State(jobs, q, moves, k).clock.Some?
    ensures IsCurrentRead(jobs, q, moves, k, r)
    ensures State(jobs, q, moves, k).clock == Some(TimeRead(jobs, q, moves, r))
  {
    ClockNext(jobs, q, moves, k - 1);
    if Reads(jobs, q, moves, k - 1) {
      r := k - 1;
    } else {
      r := ClockIsCurrentRead(jobs, q, moves, k - 1);
    }
    CurrentReadNext(jobs, q, moves, k - 1, r);
  }

  /** The clock of a run falls between two of its states. */
  ghost predicate Falls(jobs: seq<Job>, q: nat, moves: seq<Move>, a: nat, b: nat) {
    && a <= b <= |moves|
    && State(jobs, q, moves, a).clock.Some? && State(jobs, q, moves, b).clock.Some?
    && State(jobs, q, moves, b).clock.value < State(jobs, q, moves, a).clock.value
  }

  /** A read of an earlier time comes after a read of a later one. */
  ghost predicate ReadsBack(jobs: seq<Job>, q: nat, moves: seq<Move>, r: nat, s: nat) {
    && r < s
    && Reads(jobs, q, moves, r) && Reads(jobs, q, moves, s)
    && TimeRead(jobs, q, moves, s) < TimeRead(jobs, q, moves, r)
  }

  /** Exactly the runs that read back have a clock that falls. */
  lemma ClockFallsIff(jobs: seq<Job>, q: nat, moves: seq<Move>)
    ensures (exists a: nat, b: nat :: Falls(jobs, q, moves, a, b))
       <==> (exists r: nat, s: nat :: ReadsBack(jobs, q, moves, r, s))
  {
    if a: nat, b: nat :| Falls(jobs, q, moves, a, b) {
      var r := ClockIsCurrentRead(jobs, q, moves, a);
      var s := ClockIsCurrentRead(jobs, q, moves, b);
      assert ReadsBack(jobs, q, moves, r, s);
    }
    if r: nat, s: nat :| ReadsBack(jobs, q, moves, r, s) {
      ClockNext(jobs, q, moves, r);
      ClockNext(jobs, q, moves, s);
      assert Falls(jobs, q, moves, r + 1, s + 1);
    }
  }

  /** Checkpoint timestamps do not decrease along the stream. */
  ghost predicate Sorted(jobs: seq<Job>) {
    forall i, j | 0 <= i < j < |jobs| :: jobs[i].timestampMs <= jobs[j].timestampMs
  }

  ghost predicate SameTime(jobs: seq<Job>) {
    forall i, j | 0 <= i < |jobs| && 0 <= j < |jobs| :: jobs[i].timestampMs == jobs[j].timestampMs
  }

  /** The clock is no later than any checkpoint still to be read. */
  ghost predicate Behind(jobs: seq<Job>, p: Pool) {
    p.clock.Some? ==>
      forall i: nat | i < |jobs| && (i in p.active || p.next <= i) :: p.clock.value <= jobs[i].timestampMs
  }

  lemma StepStaysBehind(jobs: seq<Job>, q: nat, p: Pool, m: Move)
    requires q <= 1 && Sorted(jobs) && WellFormed(jobs, q, p) && Behind(jobs, p)
    ensures Behind(jobs, Take(jobs, q, p, m))
  {
    if m.ReadTransactions? && Enabled(jobs, q, p, m) {
      forall i: nat | i < |jobs| && (i in p.active || p.next <= i)
        ensures jobs[m.i].timestampMs <= jobs[i].timestampMs
      {
        if i in p.active {
          OnlyOneInFlight(jobs, q, p, i, m.i);
        }
      }
    }
  }

  lemma {:induction false} RunStaysBehind(jobs: seq<Job>, q: nat, moves: seq<Move>, k: nat)
    requires q <= 1 && Sorted(jobs) && k <= |moves|
    ensures Behind(jobs, State(jobs, q, moves, k))
  {
    if k == 0 {
    } else {
      RunStaysBehind(jobs, q, moves, k - 1);
      RunIsWellFormed(jobs, q, moves[..k - 1]);
      StateNext(jobs, q, moves, k - 1);
      StepStaysBehind(jobs, q, State(jobs, q, moves, k - 1), moves[k - 1]);
    }
  }

  /** With one worker the clock of a process never falls. */
  lemma {:induction false} OneWorkerKeepsTime(jobs: seq<Job>, q: nat, moves: seq<Move>, a: nat, b: nat)
    requires q <= 1 && Sorted(jobs) && a <= b <= |moves| && SameProcess(moves, a, b)
    requires State(jobs, q, moves, a).clock.Some?
    ensures State(jobs, q, moves, b).clock.Some?
    ensures State(jobs, q, moves, a).clock.value <= State(jobs, q, moves, b).clock.value
    decreases b - a
  {
    if a == b {
    } else {
      OneWorkerKeepsTime(jobs, q, moves, a, b - 1);
      RunStaysBehind(jobs, q, moves, b - 1);
      ClockNext(jobs, q, moves, b - 1);
    }
  }

  ghost predicate FallsInProcess(jobs: seq<Job>, q: nat, moves: seq<Move>, a: nat, b: nat) {
    Falls(jobs, q, moves, a, b) && SameProcess(moves, a, b)
  }

  /** Without workers, or with all checkpoints at one time, no clock ever falls. */
  lemma NoFall(jobs: seq<Job>, q: nat, moves: seq<Move>, a: nat, b: nat)
    requires q == 0 || SameTime(jobs)
    ensures !Falls(jobs, q, moves, a, b)
  {
    if Falls(jobs, q, moves, a, b) {
      var r := ClockIsCurrentRead(jobs, q, moves, a);
      var s := ClockIsCurrentRead(jobs, q, moves, b);
      if q == 0 {
        RunIsWellFormed(jobs, q, moves[..r]);
        assert false;
      }
    }
  }

  ghost predicate SomeFall(jobs: seq<Job>, q: nat) {
    exists moves, a: nat, b: nat :: Falls(jobs, q, moves, a, b)
  }

  ghost predicate SomeFallInProcess(jobs: seq<Job>, q: nat) {
    exists moves, a: nat, b: nat :: FallsInProcess(jobs, q, moves, a, b)
  }

  /** A run that takes `p` to an earlier clock. */
  lemma FallsAcross(jobs: seq<Job>, q: nat, p: Pool, p': Pool, first: seq<Move>, second: seq<Move>)
    requires Leads(jobs, q, INITIAL, first, p) && Leads(jobs, q, p, second, p')
    requires p.clock.Some? && p'.clock.Some? && p'.clock.value < p.clock.value
    ensures Falls(jobs, q, first + second, |first|, |first + second|)
    ensures SomeFall(jobs, q)
  {
    var moves := first + second;
    LeadsThen(jobs, q, INITIAL, first, p, second, p');
    assert moves[..|first|] == first && moves[..|moves|] == moves;
    assert Falls(jobs, q, moves, |first|, |moves|);
  }

  lemma FallsAcrossInProcess(jobs: seq<Job>, q: nat, p: Pool, p': Pool, first: seq<Move>, second: seq<Move>)
    requires Leads(jobs, q, INITIAL, first, p) && Leads(jobs, q, p, second, p')
    requires p.clock.Some? && p'.clock.Some? && p'.clock.value < p.clock.value
    requires forall m <- second :: !EndsProcess(m)
    ensures SomeFallInProcess(jobs, q)
  {
    FallsAcross(jobs, q, p, p', first, second);
    assert SameProcess(first + second, |first|, |first + second|);
    assert FallsInProcess(jobs, q, first + second, |first|, |first + second|);
  }

  lemma {:induction false} ThroughIsOneProcess(jobs: seq<Job>, a: nat, b: nat)
    requires a <= b <= |jobs|
    ensures forall m <- Through(jobs, a, b) :: !EndsProcess(m)
    decreases b - a
  {
    if a == b {
    } else {
      ThroughIsOneProcess(jobs, a, b - 1);
      CommitsAreOneProcess(b - 1, |jobs[b - 1].commits|);
    }
  }

  lemma {:induction false} CommitsAreOneProcess(i: nat, k: nat)
    ensures forall m <- CommitMoves(i, k) :: !EndsProcess(m)
  {
    if k == 0 {
    } else {
      CommitsAreOneProcess(i, k - 1);
    }
  }

  /** A stretch of the stream, in one process. */
  lemma Stretch(jobs: seq<Job>, q: nat, p: Pool, a: nat, b: nat)
    returns (moves: seq<Move>, p': Pool)
    requires AllCanFinish(jobs) && p.next == a < b <= |jobs| && HasRoom(q, p, a)
    ensures Leads(jobs, q, p, moves, p') && Arrived(jobs, p, p', b)
    ensures forall m <- moves :: !EndsProcess(m)
  {
    moves, p' := Through(jobs, a, b), Passed(jobs, p, a, b);
    ThroughRuns(jobs, q, p, a, b);
    ThroughIsOneProcess(jobs, a, b);
  }

  /** A stream that is not sorted turns the clock back by itself. */
  lemma UnsortedTurnsClockBack(jobs: seq<Job>, q: nat, i: nat, j: nat)
    requires AllCanFinish(jobs) && 1 <= q && i < j < |jobs|
    requires jobs[j].timestampMs < jobs[i].timestampMs
    ensures SomeFallInProcess(jobs, q)
  {
    var first, p := Stretch(jobs, q, INITIAL, 0, i + 1);
    var second, p' := Stretch(jobs, q, p, i + 1, j + 1);
    FallsAcrossInProcess(jobs, q, p, p', first, second);
  }

  lemma CrashForgets(jobs: seq<Job>, q: nat, p: Pool)
    requires p.rows == map[] && p.base == 0 && p.active == map[] && p.read == {} && !p.resetting
    ensures Leads(jobs, q, p, [Restart], p.(next := 0, clock := None))
  {
    CrashIsAlwaysPossible(jobs, q, p);
  }

  /** After a crash the stream is replayed from the watermark, which sets the clock again. */
  lemma CrashTurnsClockBack(jobs: seq<Job>, q: nat, i: nat, j: nat)
    requires AllCanFinish(jobs) && 1 <= q && i < |jobs| && j < |jobs|
    requires jobs[i].timestampMs < jobs[j].timestampMs
    ensures SomeFall(jobs, q)
  {
    var first, p := Stretch(jobs, q, INITIAL, 0, j + 1);
    var second, p' := CrashAndReplay(jobs, q, p, i);
    FallsAcross(jobs, q, p, p', first, second);
  }

  lemma CrashAndReplay(jobs: seq<Job>, q: nat, p: Pool, i: nat) returns (moves: seq<Move>, p': Pool)
    requires AllCanFinish(jobs) && 1 <= q && i < |jobs|
    requires p.rows == map[] && p.base == 0 && p.active == map[] && p.read == {} && !p.resetting
    ensures Leads(jobs, q, p, moves, p') && p'.clock == Some(jobs[i].timestampMs)
  {
    var crashed := p.(next := 0, clock := None);
    CrashForgets(jobs, q, p);
    moves, p' := Stretch(jobs, q, crashed, 0, i + 1);
    LeadsThen(jobs, q, p, [Restart], crashed, moves, p');
    moves := [Restart] + moves;
  }

  /** Checkpoint `i` is handed out, but its worker reads it only after checkpoint `j` is done. */
  lemma LateRead(jobs: seq<Job>, q: nat, i: nat, j: nat)
    requires AllCanFinish(jobs) && i < j < |jobs|
    ensures OthersDone(jobs, i, j + 1).clock == Some(jobs[j].timestampMs)
    ensures Enabled(jobs, q, OthersDone(jobs, i, j + 1), ReadTransactions(i))
  {
    OthersArrive(jobs, i, j + 1);
    assert jobs[i] in jobs;
  }

  lemma EarlierReadFalls(jobs: seq<Job>, q: nat, p: Pool, first: seq<Move>, i: nat)
    requires Leads(jobs, q, INITIAL, first, p) && Enabled(jobs, q, p, ReadTransactions(i))
    requires p.clock.Some? && jobs[i].timestampMs < p.clock.value
    ensures SomeFallInProcess(jobs, q)
  {
    AttemptBegins(jobs, q, p, i);
    var p' := p.(read := p.read + {i}, clock := Some(jobs[i].timestampMs));
    FallsAcrossInProcess(jobs, q, p, p', first, [ReadTransactions(i)]);
  }

  /** A second worker turns it back too, when the first is slow. */
  lemma LateWorkerTurnsClockBack(jobs: seq<Job>, q: nat, i: nat, j: nat)
    requires AllCanFinish(jobs) && 2 <= q && i < j < |jobs|
    requires jobs[i].timestampMs < jobs[j].timestampMs
    ensures SomeFallInProcess(jobs, q)
  {
    OthersFirst(jobs, q, i, j + 1);
    LateRead(jobs, q, i, j);
    EarlierReadFalls(jobs, q, OthersDone(jobs, i, j + 1), LateRunWaits(jobs, i, j + 1), i);
  }

  /** Within the life of a process the clock can fall, on some run of the stream, exactly when there are
      two workers and two different times, or one worker and a stream whose times are not in order. */
  lemma ClockFallsInProcessIff(jobs: seq<Job>, q: nat)
    requires AllCanFinish(jobs)
    ensures SomeFallInProcess(jobs, q) <==> (2 <= q && !SameTime(jobs)) || (q == 1 && !Sorted(jobs))
  {
    if moves, a: nat, b: nat :| FallsInProcess(jobs, q, moves, a, b) {
      if q == 0 || SameTime(jobs) {
        NoFall(jobs, q, moves, a, b);
      } else if q == 1 && Sorted(jobs) {
        OneWorkerKeepsTime(jobs, q, moves, a, b);
      }
    }
    if 1 <= q && !Sorted(jobs) {
      var i, j :| 0 <= i < j < |jobs| && jobs[j].timestampMs < jobs[i].timestampMs;
      UnsortedTurnsClockBack(jobs, q, i, j);
    } else if 2 <= q && !SameTime(jobs) {
      var i, j :| 0 <= i < |jobs| && 0 <= j < |jobs| && jobs[i].timestampMs < jobs[j].timestampMs;
      LateWorkerTurnsClockBack(jobs, q, i, j);
    }
  }

  /** Over crashes and restarts it can exactly when there is a worker and there are two different times. */
  lemma ClockFallsOnSomeRunIff(jobs: seq<Job>, q: nat)
    requires AllCanFinish(jobs)
    ensures SomeFall(jobs, q) <==> 1 <= q && !SameTime(jobs)
  {
    if moves, a: nat, b: nat :| Falls(jobs, q, moves, a, b) {
      if q == 0 || SameTime(jobs) {
        NoFall(jobs, q, moves, a, b);
      }
    }
    if 1 <= q && !SameTime(jobs) {
      var i, j :| 0 <= i < |jobs| && 0 <= j < |jobs| && jobs[i].timestampMs < jobs[j].timestampMs;
      CrashTurnsClockBack(jobs, q, i, j);
    }
  }

  ghost predicate Holds(t: Tables, o: StoredObject, row: ExpirationRow) {
    && o.id in t.objects && t.objects[o.id] == o
    && o.id in t.expirations && t.expirations[o.id] == row
  }

  /** The resolved query of address `a`, asked in state `p`, returns `o`. */
  ghost predicate ServedTo(p: Pool, scan: seq<Address>, o: StoredObject, a: Address) {
    && p.clock.Some? && IsScan(p.tables, scan)
    && o in Matching(p.tables, scan, p.clock, a, o.objectType, true)
  }

  /** The clock has reached the expiration. */
  predicate Expired(p: Pool, row: ExpirationRow) {
    p.clock.Some? && row.unixTime * 1000 <= p.clock.value
  }

  ghost predicate TimesFit(jobs: seq<Job>) {
    forall job <- jobs :: job.timestampMs < TWO_TO_THE_63
  }

  /** Where a stored object is served, in any state whose clock is set. */
  lemma ServedByClock(
    codec: Codec, jobs: seq<Job>, q: nat, moves: seq<Move>, k: nat,
    scan: seq<Address>, o: StoredObject, row: ExpirationRow, a: Address)
    requires k <= |moves| && State(jobs, q, moves, k).clock.Some?
    requires TimesFit(jobs) && forall job <- jobs :: Faithful(codec, job.commits)
    requires Holds(State(jobs, q, moves, k).tables, o, row) && IsScan(State(jobs, q, moves, k).tables, scan)
    ensures var p := State(jobs, q, moves, k);
            ServedTo(p, scan, o, a) <==> a == if Expired(p, row) then row.returnAddress else row.owner
  {
    var p := State(jobs, q, moves, k);
    EveryStateAgrees(codec, jobs, q, moves[..k]);
    var r := ClockIsCurrentRead(jobs, q, moves, k);
    assert jobs[moves[r].i] in jobs;
    EveryRowHasOneHolder(codec, p.tables, scan, scan, o.objectType, p.clock.value, o.id);
  }

  /** The first state from `k` on whose clock has reached the expiration, or the end of the run. */
  ghost function Turn(jobs: seq<Job>, q: nat, moves: seq<Move>, k: nat, row: ExpirationRow): (turn: nat)
    requires k <= |moves| + 1
    ensures k <= turn <= |moves| + 1
    ensures forall j | k <= j < turn :: !Expired(State(jobs, q, moves, j), row)
    ensures turn <= |moves| ==> Expired(State(jobs, q, moves, turn), row)
    decreases |moves| + 1 - k
  {
    if k > |moves| || Expired(State(jobs, q, moves, k), row) then k else Turn(jobs, q, moves, k + 1, row)
  }

  lemma ExpiredFromTurnOn(jobs: seq<Job>, q: nat, moves: seq<Move>, from: nat, k: nat, row: ExpirationRow)
    requires q <= 1 && Sorted(jobs) && from <= k <= |moves| && SameProcess(moves, from, |moves|)
    requires State(jobs, q, moves, from).clock.Some?
    ensures State(jobs, q, moves, k).clock.Some?
    ensures Expired(State(jobs, q, moves, k), row) <==> Turn(jobs, q, moves, from, row) <= k
  {
    var turn := Turn(jobs, q, moves, from, row);
    OneWorkerKeepsTime(jobs, q, moves, from, k);
    if turn <= k {
      OneWorkerKeepsTime(jobs, q, moves, turn, k);
    }
  }

  /** What turns the clock past an expiration is the read of a checkpoint that has reached it. */
  lemma TurnIsARead(jobs: seq<Job>, q: nat, moves: seq<Move>, from: nat, row: ExpirationRow)
    requires from <= |moves| && from < Turn(jobs, q, moves, from, row) <= |moves|
    ensures var r := Turn(jobs, q, moves, from, row) - 1;
            Reads(jobs, q, moves, r) && row.unixTime * 1000 <= TimeRead(jobs, q, moves, r)
  {
    var r := Turn(jobs, q, moves, from, row) - 1;
    assert !Expired(State(jobs, q, moves, r), row);
    ClockNext(jobs, q, moves, r);
  }

  /** With one worker, as long as the process lives, an object is served to its owner up to the turn and
      to the return address from there on. */
  lemma HandoverIsOneWay(
    codec: Codec, jobs: seq<Job>, q: nat, moves: seq<Move>, from: nat, k: nat,
    scan: seq<Address>, o: StoredObject, row: ExpirationRow, a: Address)
    requires q <= 1 && Sorted(jobs) && TimesFit(jobs)
    requires forall job <- jobs :: Faithful(codec, job.commits)
    requires from <= k <= |moves| && SameProcess(moves, from, |moves|)
    requires State(jobs, q, moves, from).clock.Some?
    requires Holds(State(jobs, q, moves, k).tables, o, row) && IsScan(State(jobs, q, moves, k).tables, scan)
    ensures ServedTo(State(jobs, q, moves, k), scan, o, a)
       <==> a == if k < Turn(jobs, q, moves, from, row) then row.owner else row.returnAddress
  {
    ExpiredFromTurnOn(jobs, q, moves, from, k, row);
    ServedByClock(codec, jobs, q, moves, k, scan, o, row, a);
  }

  /** Whatever the number of workers and through any crashes, an object that was served to the return
      address is later served to its owner exactly when the checkpoint read last was from before the
      expiration and the one read last at the earlier moment was not. With one worker that takes a
      crash or a reset in between. */
  lemma HandoverTurnsBackIff(
    codec: Codec, jobs: seq<Job>, q: nat, moves: seq<Move>, a: nat, b: nat, r: nat, s: nat,
    scanA: seq<Address>, scanB: seq<Address>, o: StoredObject, row: ExpirationRow)
    requires TimesFit(jobs) && forall job <- jobs :: Faithful(codec, job.commits)
    requires a <= b <= |moves| && IsCurrentRead(jobs, q, moves, a, r) && IsCurrentRead(jobs, q, moves, b, s)
    requires Holds(State(jobs, q, moves, a).tables, o, row) && IsScan(State(jobs, q, moves, a).tables, scanA)
    requires Holds(State(jobs, q, moves, b).tables, o, row) && IsScan(State(jobs, q, moves, b).tables, scanB)
    requires row.owner != row.returnAddress
    ensures var back := ServedTo(State(jobs, q, moves, a), scanA, o, row.returnAddress)
                        && ServedTo(State(jobs, q, moves, b), scanB, o, row.owner);
            && (back <==> TimeRead(jobs, q, moves, s) < row.unixTime * 1000 <= TimeRead(jobs, q, moves, r))
            && (back && q <= 1 && Sorted(jobs) ==> !SameProcess(moves, a, b))
  {
    CurrentReadIsClock(jobs, q, moves, a, r);
    CurrentReadIsClock(jobs, q, moves, b, s);
    ServedByClock(codec, jobs, q, moves, a, scanA, o, row, row.returnAddress);
    ServedByClock(codec, jobs, q, moves, b, scanB, o, row, row.owner);
    if q <= 1 && Sorted(jobs) && SameProcess(moves, a, b) {
      OneWorkerKeepsTime(jobs, q, moves, a, b);
    }
  }
}
