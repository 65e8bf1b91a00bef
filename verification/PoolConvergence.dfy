/** When the worker pool, with all its failures, crashes and interleavings, ends where processing the
    checkpoints in order would. */
module PoolConvergence {
  import opened MachineInts
  import opened Wrappers
  import opened Models
  import opened Store
  import opened Commits
  import opened Planning
  import opened ProgressStore
  import opened Sequential
  import opened Interleaving
  import opened Pool

  /** The current attempt of an unfinished checkpoint has a touch of `x` still to come. */
  ghost predicate Pending(jobs: seq<Job>, p: Pool, x: Address) {
    || (exists i <- p.active :: i < |jobs| && p.active[i] <= |jobs[i].commits|
                             && TouchedBy(jobs[i].commits[p.active[i]..], x))
    || (exists i :: p.next <= i < |jobs| && TouchedBy(jobs[i].commits, x))
  }

  /** `x` has the value of an uninterrupted run from `base` on, or a touch still to come. */
  ghost predicate FinalOrPending(jobs: seq<Job>, p: Pool, x: Address)
    requires p.base <= |jobs|
  {
    CellOf(p.tables, x) == CellOf(Run(EMPTY, Work(jobs[p.base..])), x) || Pending(jobs, p, x)
  }

  ghost predicate OnTheWay(jobs: seq<Job>, p: Pool)
    requires p.base <= |jobs|
  {
    forall x :: FinalOrPending(jobs, p, x)
  }

  /** Among order-free jobs, what one leaves at an id is what all of them leave. */
  lemma TouchedIsFinal(jobs: seq<Job>, b: nat, i: nat, x: Address)
    requires OrderFree(jobs) && b <= i < |jobs| && TouchedBy(jobs[i].commits, x)
    ensures CellOf(Run(EMPTY, Work(jobs[b..])), x) == CellOf(Run(EMPTY, jobs[i].commits), x)
  {
    assert jobs[b..][i - b] == jobs[i] && jobs[i] in jobs && jobs[i] in jobs[b..];
    assert forall job <- jobs[b..] :: job in jobs;
    WorkCell(jobs[b..], EMPTY, x);
  }

  /** Commit `k` is the last touch of `x`, or a later one is. */
  lemma NextTouch(cs: seq<Commit>, k: nat, x: Address)
    requires k < |cs|
    ensures TouchedBy(cs[k..], x) <==> Touches(cs[k], x) || TouchedBy(cs[k + 1..], x)
    ensures Touches(cs[k], x) ==> TouchedBy(cs, x)
    ensures Touches(cs[k], x) && !TouchedBy(cs[k + 1..], x) ==> CellOf(Run(EMPTY, cs), x) == Effect(cs[k])
  {
    assert cs[k..] == [cs[k]] + cs[k + 1..];
    TailCell(cs[k], cs[k + 1..], x);
    assert cs == cs[..k] + cs[k..];
    ConcatCell(EMPTY, cs[..k], cs[k..], x);
    TouchedByConcat(cs[..k], cs[k..], x);
  }

  /** A commit of an unfinished checkpoint other than `i` is still to come after one of `i`. */
  lemma OthersStayPending(jobs: seq<Job>, q: nat, p: Pool, i: nat, x: Address)
    requires WellFormed(jobs, q, p) && Enabled(jobs, q, p, MakeCommit(i)) && Pending(jobs, p, x)
    requires !Touches(jobs[i].commits[p.active[i]], x)
    ensures Pending(jobs, Take(jobs, q, p, MakeCommit(i)), x)
  {
    var p' := Take(jobs, q, p, MakeCommit(i));
    NextTouch(jobs[i].commits, p.active[i], x);
    if j :| j in p.active && TouchedBy(jobs[j].commits[p.active[j]..], x) {
      assert j in p'.active;
    }
  }

  lemma CommitIsPendingOrFinal(jobs: seq<Job>, q: nat, p: Pool, i: nat, x: Address)
    requires OrderFree(jobs) && WellFormed(jobs, q, p) && Enabled(jobs, q, p, MakeCommit(i))
    requires FinalOrPending(jobs, p, x)
    ensures FinalOrPending(jobs, Take(jobs, q, p, MakeCommit(i)), x)
  {
    var p' := Take(jobs, q, p, MakeCommit(i));
    var cs, k := jobs[i].commits, p.active[i];
    ApplyCell(p.tables, cs[k], x);
    NextTouch(cs, k, x);
    if !Touches(cs[k], x) {
      if Pending(jobs, p, x) {
        OthersStayPending(jobs, q, p, i, x);
      }
    } else if TouchedBy(cs[k + 1..], x) {
      assert i in p'.active;
    } else {
      TouchedIsFinal(jobs, p.base, i, x);
    }
  }

  /** Empty tables with nothing in flight. */
  lemma EmptyIsOnTheWay(jobs: seq<Job>, p: Pool, x: Address)
    requires p.tables == EMPTY && p.base == p.next <= |jobs|
    ensures FinalOrPending(jobs, p, x)
  {
    WorkCell(jobs[p.base..], EMPTY, x);
    if JobsTouch(jobs[p.base..], x) {
      var job :| job in jobs[p.base..] && TouchedBy(job.commits, x);
      var i :| p.base <= i < |jobs| && jobs[i] == job;
    }
  }

  lemma PendingIsReplayed(jobs: seq<Job>, q: nat, p: Pool, x: Address)
    requires WellFormed(jobs, q, p) && Pending(jobs, p, x)
    ensures JobsTouch(jobs[p.Watermark()..], x)
  {
    assert forall i | p.Watermark() <= i < |jobs| :: jobs[i] in jobs[p.Watermark()..];
    if i :| i in p.active && TouchedBy(jobs[i].commits[p.active[i]..], x) {
      assert forall c <- jobs[i].commits[p.active[i]..] :: c in jobs[i].commits;
      assert TouchedBy(jobs[i].commits, x);
    }
  }

  lemma UntouchedFrom(jobs: seq<Job>, b: nat, w: nat, x: Address)
    requires b <= |jobs| && w <= |jobs| && !JobsTouch(jobs[w..], x)
    ensures var o := if b <= w then b else w;
            CellOf(Run(EMPTY, Work(jobs[b..])), x) == CellOf(Run(EMPTY, Work(jobs[o..w])), x)
  {
    assert jobs[b..|jobs|] == jobs[b..];
    UntouchedAbove(jobs, b, |jobs|, w, x);
  }

  lemma StillToComeIsPending(jobs: seq<Job>, p: Pool, x: Address)
    requires p.next <= |jobs| && JobsTouch(jobs[p.next..], x)
    ensures Pending(jobs, p, x)
  {
    var job :| job in jobs[p.next..] && TouchedBy(job.commits, x);
    var i :| p.next <= i < |jobs| && jobs[i] == job;
  }

  /** What the tables hold of an id that nothing from the watermark on touches. */
  lemma UntouchedIsFinal(jobs: seq<Job>, q: nat, p: Pool, x: Address)
    requires WellFormed(jobs, q, p) && FinalOrPending(jobs, p, x)
    requires !JobsTouch(jobs[p.Watermark()..], x)
    ensures CellOf(p.tables, x) == CellOf(Run(EMPTY, Work(jobs[p.Origin()..p.Watermark()])), x)
  {
    if Pending(jobs, p, x) {
      PendingIsReplayed(jobs, q, p, x);
    }
    UntouchedFrom(jobs, p.base, p.Watermark(), x);
  }

  /** A stop puts no pending touch out of reach: everything unfinished is at or after the watermark. */
  lemma StopStaysOnTheWay(jobs: seq<Job>, q: nat, p: Pool, p': Pool, x: Address)
    requires WellFormed(jobs, q, p) && FinalOrPending(jobs, p, x)
    requires p'.tables == p.tables && p'.next == p.Watermark() && p'.base == p.Origin()
    ensures FinalOrPending(jobs, p', x)
  {
    if JobsTouch(jobs[p'.next..], x) {
      StillToComeIsPending(jobs, p', x);
    } else {
      UntouchedIsFinal(jobs, q, p, x);
      UntouchedFrom(jobs, p'.base, p'.next, x);
    }
  }

  lemma RestartStaysOnTheWay(jobs: seq<Job>, q: nat, p: Pool, x: Address)
    requires WellFormed(jobs, q, p) && FinalOrPending(jobs, p, x)
    ensures FinalOrPending(jobs, Take(jobs, q, p, Restart), x)
  {
    StopStaysOnTheWay(jobs, q, p, Take(jobs, q, p, Restart), x);
  }

  /** A move that commits nothing and stops nothing keeps pending touches pending. */
  lemma QuietMoveKeepsPending(jobs: seq<Job>, q: nat, p: Pool, m: Move, x: Address)
    requires WellFormed(jobs, q, p) && Enabled(jobs, q, p, m) && Pending(jobs, p, x)
    requires m.Start? || m.ReadTransactions? || m.Retry? || m.Finish? || m.SaveWatermark?
    ensures Pending(jobs, Take(jobs, q, p, m), x)
  {
    var p' := Take(jobs, q, p, m);
    if i :| i in p.active && TouchedBy(jobs[i].commits[p.active[i]..], x) {
      var c :| c in jobs[i].commits[p.active[i]..] && Touches(c, x);
      assert c in jobs[i].commits && TouchedBy(jobs[i].commits, x);
      assert jobs[i].commits[0..] == jobs[i].commits;
      if i in p'.active {
        assert p'.active[i] == p.active[i] || p'.active[i] == 0;
      }
    } else {
      var i :| p.next <= i < |jobs| && TouchedBy(jobs[i].commits, x);
      assert jobs[i].commits[0..] == jobs[i].commits;
      if m.Start? && i == p.next {
        assert i in p'.active;
      }
    }
  }

  lemma MoveStaysOnTheWay(jobs: seq<Job>, q: nat, p: Pool, m: Move, x: Address)
    requires OrderFree(jobs) && WellFormed(jobs, q, p) && Enabled(jobs, q, p, m) && FinalOrPending(jobs, p, x)
    ensures Take(jobs, q, p, m).base <= |jobs| && FinalOrPending(jobs, Take(jobs, q, p, m), x)
  {
    match m {
      case MakeCommit(i) => CommitIsPendingOrFinal(jobs, q, p, i, x);
      case Restart => RestartStaysOnTheWay(jobs, q, p, x);
      case ResetObjects => EmptyIsOnTheWay(jobs, Take(jobs, q, p, m), x);
      case ResetProgress => EmptyIsOnTheWay(jobs, Take(jobs, q, p, m), x);
      case _ =>
        if Pending(jobs, p, x) {
          QuietMoveKeepsPending(jobs, q, p, m, x);
        }
    }
  }

  lemma StepStaysOnTheWay(jobs: seq<Job>, q: nat, p: Pool, m: Move)
    requires OrderFree(jobs) && WellFormed(jobs, q, p) && OnTheWay(jobs, p)
    ensures WellFormed(jobs, q, Take(jobs, q, p, m)) && OnTheWay(jobs, Take(jobs, q, p, m))
  {
    StepKeepsWellFormed(jobs, q, p, m);
    if Enabled(jobs, q, p, m) {
      forall x ensures FinalOrPending(jobs, Take(jobs, q, p, m), x) {
        assert FinalOrPending(jobs, p, x);
        MoveStaysOnTheWay(jobs, q, p, m, x);
      }
    }
  }

  lemma {:induction false} RunStaysOnTheWay(jobs: seq<Job>, q: nat, moves: seq<Move>)
    requires OrderFree(jobs)
    ensures WellFormed(jobs, q, After(jobs, q, moves)) && OnTheWay(jobs, After(jobs, q, moves))
  {
    if moves == [] {
      forall x {
        EmptyIsOnTheWay(jobs, INITIAL, x);
      }
    } else {
      var init := moves[..|moves| - 1];
      RunStaysOnTheWay(jobs, q, init);
      StepStaysOnTheWay(jobs, q, After(jobs, q, init), moves[|moves| - 1]);
    }
  }

  lemma WayEnds(jobs: seq<Job>, p: Pool)
    requires p.base <= |jobs| && OnTheWay(jobs, p) && AllDone(jobs, p)
    ensures p.tables == Run(EMPTY, Work(jobs[p.base..]))
  {
    var final := Run(EMPTY, Work(jobs[p.base..]));
    forall x ensures CellOf(p.tables, x) == CellOf(final, x) {
      assert FinalOrPending(jobs, p, x) && !Pending(jobs, p, x);
    }
    SameCells(p.tables, final);
  }

  /** Order-free jobs converge in a pool of any size, whatever happens on the way. */
  lemma OrderFreeJobsConverge(jobs: seq<Job>, q: nat, moves: seq<Move>)
    requires OrderFree(jobs) && AllDone(jobs, After(jobs, q, moves))
    ensures var p := After(jobs, q, moves);
            && p.base <= |jobs|
            && p.tables == Run(EMPTY, Work(jobs[p.base..]))
            && (p.tables == Run(EMPTY, Work(jobs)) <==> RestoredAbove(jobs, p.base))
  {
    RunStaysOnTheWay(jobs, q, moves);
    WayEnds(jobs, After(jobs, q, moves));
    SuffixIsWholeIff(jobs, After(jobs, q, moves).base);
  }

  /** For order-free jobs too no work is skipped across the two databases. */
  lemma OrderFreeSkipsNoWork(jobs: seq<Job>, q: nat, moves: seq<Move>, x: Address)
    requires OrderFree(jobs)
    ensures var p := After(jobs, q, moves);
            && p.Watermark() <= |jobs|
            && (!JobsTouch(jobs[p.Watermark()..], x) ==>
                  CellOf(p.tables, x) == CellOf(Run(EMPTY, Work(jobs[p.Origin()..p.Watermark()])), x))
  {
    RunStaysOnTheWay(jobs, q, moves);
    var p := After(jobs, q, moves);
    assert FinalOrPending(jobs, p, x);
    if !JobsTouch(jobs[p.Watermark()..], x) {
      UntouchedIsFinal(jobs, q, p, x);
    }
  }

  /** So replaying from the watermark, over the tables as any crash left them, converges. */
  lemma OrderFreeReplayConverges(jobs: seq<Job>, q: nat, moves: seq<Move>)
    requires OrderFree(jobs)
    ensures Replays(jobs, After(jobs, q, moves))
  {
    RunStaysOnTheWay(jobs, q, moves);
    forall x | !JobsTouch(jobs[After(jobs, q, moves).Watermark()..], x) {
      OrderFreeSkipsNoWork(jobs, q, moves, x);
    }
    UntouchedReplays(jobs, After(jobs, q, moves));
  }

  ghost predicate AllCanFinish(jobs: seq<Job>) {
    forall job <- jobs :: job.reach.Complete?
  }

  function CommitMoves(i: nat, k: nat): (moves: seq<Move>)
    ensures |moves| == k
  {
    if k == 0 then [] else CommitMoves(i, k - 1) + [MakeCommit(i)]
  }

  /** The moves of a worker that takes checkpoint `i`, already handed out, to its end. */
  function Attempt(jobs: seq<Job>, i: nat): seq<Move>
    requires i < |jobs|
  {
    [ReadTransactions(i)] + CommitMoves(i, |jobs[i].commits|) + [Finish(i)]
  }

  /** Checkpoints `a` to `b`, one after the other. */
  function Through(jobs: seq<Job>, a: nat, b: nat): seq<Move>
    requires a <= b <= |jobs|
    decreases b - a
  {
    if a == b then [] else Through(jobs, a, b - 1) + ([Start] + Attempt(jobs, b - 1))
  }

  /** Checkpoint `l` is handed out in its turn, and the others below `n` are done while its worker waits. */
  function LateRunWaits(jobs: seq<Job>, l: nat, n: nat): seq<Move>
    requires l < n <= |jobs|
  {
    Through(jobs, 0, l) + [Start] + Through(jobs, l + 1, n)
  }

  /** Then it reads its transactions and runs to its end. */
  function LateRun(jobs: seq<Job>, l: nat, n: nat): seq<Move>
    requires l < n <= |jobs|
  {
    LateRunWaits(jobs, l, n) + Attempt(jobs, l)
  }

  /** A commit of an attempt that has made `k - 1` of them already. */
  lemma CommitRuns(jobs: seq<Job>, q: nat, p: Pool, i: nat, k: nat)
    requires !p.resetting && i in p.active && i in p.read && i < |jobs| && 0 < k <= |jobs[i].commits|
    ensures var before := p.(tables := Run(p.tables, jobs[i].commits[..k - 1]), active := p.active[i := k - 1]);
            var after := p.(tables := Run(p.tables, jobs[i].commits[..k]), active := p.active[i := k]);
            Leads(jobs, q, before, [MakeCommit(i)], after)
  {
    var before := p.(tables := Run(p.tables, jobs[i].commits[..k - 1]), active := p.active[i := k - 1]);
    LeadsOne(jobs, q, before, MakeCommit(i));
    assert jobs[i].commits[..k][..k - 1] == jobs[i].commits[..k - 1];
    assert p.active[i := k - 1][i := k] == p.active[i := k];
  }

  /** An attempt that makes its first `k` commits. */
  lemma {:induction false} AttemptIsMoves(jobs: seq<Job>, q: nat, p: Pool, i: nat, k: nat)
    requires !p.resetting && i in p.active && p.active[i] == 0 && i in p.read
    requires i < |jobs| && k <= |jobs[i].commits|
    ensures Leads(jobs, q, p, CommitMoves(i, k),
                  p.(tables := Run(p.tables, jobs[i].commits[..k]), active := p.active[i := k]))
  {
    if k == 0 {
      assert p.active[i := 0] == p.active;
    } else {
      AttemptIsMoves(jobs, q, p, i, k - 1);
      CommitRuns(jobs, q, p, i, k);
      var before := p.(tables := Run(p.tables, jobs[i].commits[..k - 1]), active := p.active[i := k - 1]);
      var after := p.(tables := Run(p.tables, jobs[i].commits[..k]), active := p.active[i := k]);
      LeadsThen(jobs, q, p, CommitMoves(i, k - 1), before, [MakeCommit(i)], after);
    }
  }

  lemma HandOut(jobs: seq<Job>, q: nat, p: Pool)
    requires Enabled(jobs, q, p, Start)
    ensures Leads(jobs, q, p, [Start], p.(next := p.next + 1, active := p.active[p.next := 0]))
  {
    LeadsOne(jobs, q, p, Start);
  }

  lemma AttemptBegins(jobs: seq<Job>, q: nat, p: Pool, i: nat)
    requires Enabled(jobs, q, p, ReadTransactions(i))
    ensures Leads(jobs, q, p, [ReadTransactions(i)],
                  p.(read := p.read + {i}, clock := Some(jobs[i].timestampMs)))
  {
    LeadsOne(jobs, q, p, ReadTransactions(i));
  }

  lemma AttemptEnds(jobs: seq<Job>, q: nat, p: Pool, i: nat)
    requires Enabled(jobs, q, p, Finish(i))
    ensures Leads(jobs, q, p, [Finish(i)], p.(active := p.active - {i}, read := p.read - {i}))
  {
    LeadsOne(jobs, q, p, Finish(i));
  }

  /** At any moment the process can die: the databases stay as they are, and the memory is gone. */
  lemma CrashIsAlwaysPossible(jobs: seq<Job>, q: nat, p: Pool)
    ensures Leads(jobs, q, p, [Restart],
                  Pool(p.tables, p.rows, p.Watermark(), map[], {}, None, p.Origin(), false))
  {
    LeadsOne(jobs, q, p, Restart);
  }

  function Saved(p: Pool, w: u64): (saved: Pool)
    ensures saved.Watermark() == w
  {
    p.(rows := SaveTo(p.rows, TASK, w))
  }

  /** Outside a reset, any number that is not past what is handed out nor past a checkpoint in flight can
      be saved, and is then the watermark. */
  lemma SaveIsPossible(jobs: seq<Job>, q: nat, p: Pool, w: u64)
    requires !p.resetting && w <= p.next && forall i <- p.active :: w <= i
    ensures Leads(jobs, q, p, [SaveWatermark(w)], Saved(p, w)) && Saved(p, w).Watermark() == w
  {
    LeadsOne(jobs, q, p, SaveWatermark(w));
  }

  /** The first `n` checkpoints, nothing read and nothing committed. */
  function NothingCommitted(n: nat): (active: map<nat, nat>)
    ensures |active| == n
    ensures forall i: nat :: (i in active <==> i < n) && (i in active ==> active[i] == 0)
  {
    if n == 0 then map[] else NothingCommitted(n - 1)[n - 1 := 0]
  }

  /** As many checkpoints can be in flight together as there are workers. */
  lemma {:induction false} QueueFills(jobs: seq<Job>, q: nat, n: nat) returns (moves: seq<Move>)
    requires n <= q && n <= |jobs|
    ensures Leads(jobs, q, INITIAL, moves, INITIAL.(next := n, active := NothingCommitted(n)))
  {
    if n == 0 {
      moves := [];
    } else {
      var before := INITIAL.(next := n - 1, active := NothingCommitted(n - 1));
      var init := QueueFills(jobs, q, n - 1);
      HandOut(jobs, q, before);
      moves := init + [Start];
      LeadsThen(jobs, q, INITIAL, init, before, [Start], INITIAL.(next := n, active := NothingCommitted(n)));
    }
  }

  /** The state once checkpoint `i` is done. */
  function AttemptDone(jobs: seq<Job>, p: Pool, i: nat): Pool
    requires i < |jobs|
  {
    p.(tables := Run(p.tables, jobs[i].commits), active := p.active - {i}, clock := Some(jobs[i].timestampMs))
  }

  lemma AttemptRuns(jobs: seq<Job>, q: nat, p: Pool, i: nat)
    requires !p.resetting && i in p.active && p.active[i] == 0 && i !in p.read
    requires i < |jobs| && jobs[i].reach.Complete?
    ensures Leads(jobs, q, p, Attempt(jobs, i), AttemptDone(jobs, p, i))
  {
    var n := |jobs[i].commits|;
    var reading := p.(read := p.read + {i}, clock := Some(jobs[i].timestampMs));
    var written := reading.(tables := Run(p.tables, jobs[i].commits), active := p.active[i := n]);
    AttemptBegins(jobs, q, p, i);
    AttemptIsMoves(jobs, q, reading, i, n);
    assert jobs[i].commits[..n] == jobs[i].commits;
    AttemptEnds(jobs, q, written, i);
    assert p.active[i := n] - {i} == p.active - {i} && p.read + {i} - {i} == p.read;
    LeadsThen(jobs, q, p, [ReadTransactions(i)], reading, CommitMoves(i, n), written);
    LeadsThen(jobs, q, p, [ReadTransactions(i)] + CommitMoves(i, n), written, [Finish(i)], AttemptDone(jobs, p, i));
  }

  /** The state after checkpoints `a` to `b`, none of those in flight before among them. */
  function Passed(jobs: seq<Job>, p: Pool, a: nat, b: nat): Pool
    requires a <= b <= |jobs|
  {
    p.(tables := Run(p.tables, Work(jobs[a..b])), next := b,
       clock := if a == b then p.clock else Some(jobs[b - 1].timestampMs))
  }

  lemma NothingPassed(jobs: seq<Job>, q: nat, p: Pool, a: nat, b: nat)
    requires p.next == a == b <= |jobs|
    ensures Leads(jobs, q, p, Through(jobs, a, b), Passed(jobs, p, a, b))
  {
    assert jobs[a..b] == [];
  }

  lemma PassedNext(jobs: seq<Job>, p: Pool, a: nat, b: nat)
    requires a <= b < |jobs|
    ensures var before := Passed(jobs, p, a, b);
            Passed(jobs, p, a, b + 1)
            == before.(tables := Run(before.tables, jobs[b].commits), next := b + 1,
                       clock := Some(jobs[b].timestampMs))
  {
    assert jobs[a..b + 1][..b - a] == jobs[a..b];
    RunConcat(p.tables, Work(jobs[a..b]), jobs[b].commits);
  }

  /** A worker is free, and what is in flight comes before checkpoint `a`. */
  predicate HasRoom(q: nat, p: Pool, a: nat) {
    !p.resetting && |p.active| < q && p.read <= p.active.Keys && forall i <- p.active :: i < a
  }

  /** One checkpoint more. */
  lemma NextRuns(jobs: seq<Job>, q: nat, p: Pool)
    requires AllCanFinish(jobs) && p.next < |jobs| && HasRoom(q, p, p.next)
    ensures var i := p.next;
            Leads(jobs, q, p, [Start] + Attempt(jobs, i),
                  p.(tables := Run(p.tables, jobs[i].commits), next := i + 1,
                     clock := Some(jobs[i].timestampMs)))
  {
    var i := p.next;
    var out := p.(next := i + 1, active := p.active[i := 0]);
    HandOut(jobs, q, p);
    assert jobs[i] in jobs;
    AttemptRuns(jobs, q, out, i);
    assert p.active[i := 0] - {i} == p.active;
    LeadsThen(jobs, q, p, [Start], out, Attempt(jobs, i), AttemptDone(jobs, out, i));
  }

  lemma NextPasses(jobs: seq<Job>, q: nat, p: Pool, a: nat, b: nat)
    requires AllCanFinish(jobs) && a <= b < |jobs| && HasRoom(q, p, a)
    ensures Leads(jobs, q, Passed(jobs, p, a, b), [Start] + Attempt(jobs, b), Passed(jobs, p, a, b + 1))
  {
    NextRuns(jobs, q, Passed(jobs, p, a, b));
    PassedNext(jobs, p, a, b);
  }

  lemma ThroughGrows(jobs: seq<Job>, q: nat, p: Pool, a: nat, b: nat, c: nat)
    requires AllCanFinish(jobs) && a <= b < |jobs| && c == b + 1 && HasRoom(q, p, a)
    requires Leads(jobs, q, p, Through(jobs, a, b), Passed(jobs, p, a, b))
    ensures Leads(jobs, q, p, Through(jobs, a, c), Passed(jobs, p, a, c))
  {
    NextPasses(jobs, q, p, a, b);
    LeadsThen(jobs, q, p, Through(jobs, a, b), Passed(jobs, p, a, b),
              [Start] + Attempt(jobs, b), Passed(jobs, p, a, c));
  }

  lemma {:induction false} ThroughRuns(jobs: seq<Job>, q: nat, p: Pool, a: nat, b: nat)
    requires AllCanFinish(jobs) && p.next == a <= b <= |jobs| && HasRoom(q, p, a)
    ensures Leads(jobs, q, p, Through(jobs, a, b), Passed(jobs, p, a, b))
    decreases b - a
  {
    if a == b {
      NothingPassed(jobs, q, p, a, b);
    } else {
      ThroughRuns(jobs, q, p, a, b - 1);
      ThroughGrows(jobs, q, p, a, b - 1, b);
    }
  }

  /** Where a run through some checkpoints ends, its tables aside. */
  predicate Arrived(jobs: seq<Job>, p: Pool, p': Pool, b: nat)
    requires 0 < b <= |jobs|
  {
    && p'.next == b && p'.active == p.active && p'.read == p.read && p'.rows == p.rows
    && p'.base == p.base && p'.resetting == p.resetting
    && p'.clock == Some(jobs[b - 1].timestampMs)
  }

  /** The state in which checkpoint `l` waits and the others below `n` are done. */
  function OthersDone(jobs: seq<Job>, l: nat, n: nat): Pool
    requires l < n <= |jobs|
  {
    Passed(jobs, Passed(jobs, INITIAL, 0, l).(next := l + 1, active := map[l := 0]), l + 1, n)
  }

  lemma OthersArrive(jobs: seq<Job>, l: nat, n: nat)
    requires l + 1 < n <= |jobs|
    ensures Arrived(jobs, INITIAL.(active := map[l := 0]), OthersDone(jobs, l, n), n)
  {
  }

  lemma OthersFirst(jobs: seq<Job>, q: nat, l: nat, n: nat)
    requires AllCanFinish(jobs) && l < n <= |jobs| && 2 <= q
    ensures Leads(jobs, q, INITIAL, LateRunWaits(jobs, l, n), OthersDone(jobs, l, n))
  {
    var early := Passed(jobs, INITIAL, 0, l);
    var out := early.(next := l + 1, active := map[l := 0]);
    ThroughRuns(jobs, q, INITIAL, 0, l);
    HandOut(jobs, q, early);
    ThroughRuns(jobs, q, out, l + 1, n);
    LeadsThen(jobs, q, INITIAL, Through(jobs, 0, l), early, [Start], out);
    LeadsThen(jobs, q, INITIAL, Through(jobs, 0, l) + [Start], out, Through(jobs, l + 1, n), OthersDone(jobs, l, n));
  }

  /** The late checkpoint has the last word. */
  function LateDone(jobs: seq<Job>, l: nat, n: nat): Pool
    requires l < n <= |jobs|
  {
    INITIAL.(tables := Run(EMPTY, Work(jobs[..l]) + Work(jobs[l + 1..n]) + jobs[l].commits), next := n,
             clock := Some(jobs[l].timestampMs))
  }

  lemma LateDoneIsDone(jobs: seq<Job>, l: nat, n: nat)
    requires l < n <= |jobs|
    ensures AttemptDone(jobs, OthersDone(jobs, l, n), l) == LateDone(jobs, l, n)
  {
    assert jobs[0..l] == jobs[..l];
    RunConcat(EMPTY, Work(jobs[..l]), Work(jobs[l + 1..n]));
    RunConcat(EMPTY, Work(jobs[..l]) + Work(jobs[l + 1..n]), jobs[l].commits);
    assert map[l := 0] - {l} == map[];
  }

  lemma LateRunEnds(jobs: seq<Job>, q: nat, l: nat, n: nat)
    requires AllCanFinish(jobs) && l < n <= |jobs| && 2 <= q
    ensures Leads(jobs, q, INITIAL, LateRun(jobs, l, n), LateDone(jobs, l, n))
  {
    OthersFirst(jobs, q, l, n);
    assert jobs[l] in jobs;
    AttemptRuns(jobs, q, OthersDone(jobs, l, n), l);
    LateDoneIsDone(jobs, l, n);
    LeadsThen(jobs, q, INITIAL, LateRunWaits(jobs, l, n), OthersDone(jobs, l, n),
              Attempt(jobs, l), LateDone(jobs, l, n));
  }

  lemma LateRunIsDone(jobs: seq<Job>, q: nat, l: nat)
    requires AllCanFinish(jobs) && l < |jobs| && 2 <= q
    ensures After(jobs, q, LateRun(jobs, l, |jobs|)) == LateDone(jobs, l, |jobs|)
    ensures AllDone(jobs, After(jobs, q, LateRun(jobs, l, |jobs|)))
  {
    LateRunEnds(jobs, q, l, |jobs|);
  }

  /** If the run in which checkpoint `l` comes late ends in the in-order tables, `l` leaves at its ids
      what in-order processing leaves there. */
  lemma LateRunDecides(jobs: seq<Job>, l: nat, x: Address)
    requires l < |jobs| && TouchedBy(jobs[l].commits, x)
    requires LateDone(jobs, l, |jobs|).tables == Run(EMPTY, Work(jobs))
    ensures CellOf(Run(EMPTY, Work(jobs)), x) == CellOf(Run(EMPTY, jobs[l].commits), x)
  {
    ConcatCell(EMPTY, Work(jobs[..l]) + Work(jobs[l + 1..|jobs|]), jobs[l].commits, x);
  }

  ghost predicate LateRunsConverge(jobs: seq<Job>) {
    forall l | 0 <= l < |jobs| :: LateDone(jobs, l, |jobs|).tables == Run(EMPTY, Work(jobs))
  }

  lemma LateRunsDecide(jobs: seq<Job>)
    requires LateRunsConverge(jobs)
    ensures OrderFree(jobs)
  {
    forall a, b, x | a in jobs && b in jobs && TouchedBy(a.commits, x) && TouchedBy(b.commits, x)
      ensures CellOf(Run(EMPTY, a.commits), x) == CellOf(Run(EMPTY, b.commits), x)
    {
      var i :| 0 <= i < |jobs| && jobs[i] == a;
      var j :| 0 <= j < |jobs| && jobs[j] == b;
      LateRunDecides(jobs, i, x);
      LateRunDecides(jobs, j, x);
    }
  }

  /** Whenever everything is done, the tables are those of an uninterrupted run from `base` on. */
  ghost predicate AlwaysConverges(jobs: seq<Job>, q: nat) {
    forall moves | AllDone(jobs, After(jobs, q, moves)) ::
      var p := After(jobs, q, moves);
      p.base <= |jobs| && p.tables == Run(EMPTY, Work(jobs[p.base..]))
  }

  /** A stream that can be completed converges on every run exactly when there is a single worker or the
      checkpoints are order free. Nothing in the code makes them so. */
  lemma PoolConvergesIff(jobs: seq<Job>, q: nat)
    ensures AlwaysConverges(jobs, q) <==> q <= 1 || OrderFree(jobs) || !AllCanFinish(jobs)
  {
    forall moves | AllDone(jobs, After(jobs, q, moves)) && (q <= 1 || OrderFree(jobs) || !AllCanFinish(jobs))
      ensures var p := After(jobs, q, moves); p.base <= |jobs| && p.tables == Run(EMPTY, Work(jobs[p.base..]))
    {
      if q <= 1 {
        OneAtATimeIsDisjoint(jobs, q, moves);
        FinishedRunConverges(jobs, q, moves);
      } else if OrderFree(jobs) {
        OrderFreeJobsConverge(jobs, q, moves);
      } else {
        var i :| 0 <= i < |jobs| && !jobs[i].reach.Complete?;
        IncompleteStaysInFlight(jobs, q, moves, i);
        assert false;
      }
    }
    if AlwaysConverges(jobs, q) && 1 < q && AllCanFinish(jobs) {
      assert jobs[0..] == jobs;
      forall l | 0 <= l < |jobs| ensures LateDone(jobs, l, |jobs|).tables == Run(EMPTY, Work(jobs)) {
        LateRunIsDone(jobs, q, l);
      }
      LateRunsDecide(jobs);
    }
  }

  ghost predicate AlwaysReplays(jobs: seq<Job>, q: nat) {
    forall moves :: Replays(jobs, After(jobs, q, moves))
  }

  /** So does replaying from the watermark in every reachable state. Checkpoint numbers are u64. */
  lemma ReplayConvergesIff(jobs: seq<Job>, q: nat)
    requires AllCanFinish(jobs) && |jobs| < TWO_TO_THE_64
    ensures AlwaysReplays(jobs, q) <==> q <= 1 || OrderFree(jobs)
  {
    if q <= 1 {
      forall moves ensures Replays(jobs, After(jobs, q, moves)) {
        OneAtATimeIsDisjoint(jobs, q, moves);
        ReplayConverges(jobs, q, moves);
      }
    } else if OrderFree(jobs) {
      forall moves ensures Replays(jobs, After(jobs, q, moves)) {
        OrderFreeReplayConverges(jobs, q, moves);
      }
    } else if AlwaysReplays(jobs, q) {
      forall l | 0 <= l < |jobs| ensures LateDone(jobs, l, |jobs|).tables == Run(EMPTY, Work(jobs)) {
        var saved := Saved(LateDone(jobs, l, |jobs|), |jobs|);
        SavedLateRunEnds(jobs, q, l);
        LedStateReplays(jobs, q, LateRun(jobs, l, |jobs|) + [SaveWatermark(|jobs|)], saved);
        NothingToReplay(jobs, saved);
      }
      LateRunsDecide(jobs);
    }
  }

  /** With everything saved there is nothing left to replay. */
  lemma NothingToReplay(jobs: seq<Job>, p: Pool)
    requires Replays(jobs, p) && p.Watermark() == |jobs| && p.base == 0
    ensures p.tables == Run(EMPTY, Work(jobs))
  {
    assert jobs[|jobs|..] == [] && jobs[0..] == jobs;
  }

  lemma SavedLateRunEnds(jobs: seq<Job>, q: nat, l: nat)
    requires AllCanFinish(jobs) && l < |jobs| < TWO_TO_THE_64 && 2 <= q
    ensures Leads(jobs, q, INITIAL, LateRun(jobs, l, |jobs|) + [SaveWatermark(|jobs|)],
                  Saved(LateDone(jobs, l, |jobs|), |jobs|))
  {
    var p := LateDone(jobs, l, |jobs|);
    LateRunEnds(jobs, q, l, |jobs|);
    SaveIsPossible(jobs, q, p, |jobs|);
    LeadsThen(jobs, q, INITIAL, LateRun(jobs, l, |jobs|), p, [SaveWatermark(|jobs|)], Saved(p, |jobs|));
  }

  lemma LedStateReplays(jobs: seq<Job>, q: nat, moves: seq<Move>, p: Pool)
    requires AlwaysReplays(jobs, q) && Leads(jobs, q, INITIAL, moves, p)
    ensures Replays(jobs, p)
  {
    assert p == After(jobs, q, moves);
  }

  /** A completed reset is a fresh start. */
  lemma ResetIsFreshStart(jobs: seq<Job>, q: nat, p: Pool)
    ensures Leads(jobs, q, p, [ResetObjects, ResetProgress], INITIAL)
  {
    var cleared := Take(jobs, q, p, ResetObjects);
    LeadsOne(jobs, q, p, ResetObjects);
    LeadsOne(jobs, q, cleared, ResetProgress);
    LeadsThen(jobs, q, p, [ResetObjects], cleared, [ResetProgress], INITIAL);
    assert [ResetObjects] + [ResetProgress] == [ResetObjects, ResetProgress];
  }
}
