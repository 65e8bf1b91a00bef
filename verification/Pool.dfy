/** The whole indexer as a machine over its two databases and its clock: checkpoints in flight, commits
    one by one, failures and retries, saves, crashes and restarts, and the two halves of a reset
    (src/sync/handler.rs, src/sync/worker.rs, src/sync/progress_store.rs, src/main.rs). */
module Pool {
  import opened MachineInts
  import opened Wrappers
  import opened Models
  import opened Store
  import opened Commits
  import opened Planning
  import opened ProgressStore
  import opened Sequential
  import opened Sets

  const TASK := "primary"

  /** `next` is the next checkpoint to hand out; `active` maps each checkpoint in flight to the
      number of commits its current attempt has made, and `read` holds those whose attempt has read
      its transactions. Those below `next` and not in flight are done. `base` only records history:
      it is the first checkpoint whose work the tables are built from. */
  datatype Pool = Pool(
    tables: Tables,
    rows: Rows,
    next: nat,
    active: map<nat, nat>,
    read: set<nat>,
    clock: Option<u64>,
    base: nat,
    resetting: bool)
  {
    function Watermark(): u64 {
      LoadFrom(rows, TASK)
    }

    /** Where the tables will be built from after a replay from the watermark. */
    function Origin(): nat {
      if base <= Watermark() then base else Watermark()
    }

    /** The process is gone, and its memory with it; the next one resumes at the watermark. */
    function Stopped(): Pool {
      this.(next := Watermark(), active := map[], read := {}, clock := None)
    }
  }

  const INITIAL := Pool(EMPTY, map[], 0, map[], {}, None, 0, false)

  datatype Move =
    | Start                     // hand the next checkpoint to a free worker
    | ReadTransactions(i: nat)  // the attempt at checkpoint i read them all and set the clock
    | MakeCommit(i: nat)        // one database transaction of checkpoint i
    | Retry(i: nat)             // the attempt failed; it starts over
    | Finish(i: nat)            // the worker returned Ok
    | SaveWatermark(w: u64)
    | Restart                   // crash or shutdown, at any point, then start without reset
    | ResetObjects              // first half of a start with reset
    | ResetProgress             // second half

  predicate Enabled(jobs: seq<Job>, q: nat, p: Pool, m: Move) {
    match m
    case Start => !p.resetting && p.next < |jobs| && |p.active| < q
    case ReadTransactions(i) => !p.resetting && i in p.active && i !in p.read && i < |jobs|
                                && !jobs[i].reach.Unreadable?
    case MakeCommit(i) => !p.resetting && i in p.active && i in p.read && i < |jobs| && p.active[i] < |jobs[i].commits|
    case Retry(i) => !p.resetting && i in p.active
    case Finish(i) => !p.resetting && i in p.active && i in p.read && i < |jobs| && jobs[i].reach.Complete?
                      && p.active[i] == |jobs[i].commits|
    case SaveWatermark(w) => !p.resetting && w <= p.next && forall i <- p.active :: w <= i
    case Restart => true
    case ResetObjects => true
    case ResetProgress => p.resetting
  }

  /** A move that is not enabled changes nothing. */
  function Take(jobs: seq<Job>, q: nat, p: Pool, m: Move): Pool {
    if !Enabled(jobs, q, p, m) then p
    else
      match m
      case Start => p.(next := p.next + 1, active := p.active[p.next := 0])
      case ReadTransactions(i) => p.(read := p.read + {i}, clock := Some(jobs[i].timestampMs))
      case MakeCommit(i) =>
        p.(tables := Apply(p.tables, jobs[i].commits[p.active[i]]), active := p.active[i := p.active[i] + 1])
      case Retry(i) => p.(active := p.active[i := 0], read := p.read - {i})
      case Finish(i) => p.(active := p.active - {i}, read := p.read - {i})
      case SaveWatermark(w) => p.(rows := SaveTo(p.rows, TASK, w))
      case Restart => p.Stopped().(base := p.Origin(), resetting := false)
      case ResetObjects => p.Stopped().(tables := EMPTY, base := p.Watermark(), resetting := true)
      case ResetProgress => p.(rows := map[], next := 0, base := 0, resetting := false)
  }

  function Play(jobs: seq<Job>, q: nat, p: Pool, moves: seq<Move>): Pool {
    if moves == [] then p
    else Take(jobs, q, Play(jobs, q, p, moves[..|moves| - 1]), moves[|moves| - 1])
  }

  /** The state after any sequence of moves from a fresh installation. */
  function After(jobs: seq<Job>, q: nat, moves: seq<Move>): Pool {
    Play(jobs, q, INITIAL, moves)
  }

  lemma {:induction false} PlayConcat(jobs: seq<Job>, q: nat, p: Pool, a: seq<Move>, b: seq<Move>)
    ensures Play(jobs, q, p, a + b) == Play(jobs, q, Play(jobs, q, p, a), b)
  {
    if b == [] {
      assert a + b == a;
    } else {
      var n := |b| - 1;
      assert (a + b)[..|a + b| - 1] == a + b[..n];
      PlayConcat(jobs, q, p, a, b[..n]);
    }
  }

  /** The moves take `p` to `p'`. */
  predicate Leads(jobs: seq<Job>, q: nat, p: Pool, moves: seq<Move>, p': Pool) {
    Play(jobs, q, p, moves) == p'
  }

  lemma LeadsOne(jobs: seq<Job>, q: nat, p: Pool, m: Move)
    ensures Leads(jobs, q, p, [m], Take(jobs, q, p, m))
  {
    assert [m][..0] == [] && Play(jobs, q, p, [m][..0]) == p;
  }

  lemma LeadsThen(jobs: seq<Job>, q: nat, p: Pool, a: seq<Move>, p': Pool, b: seq<Move>, p'': Pool)
    requires Leads(jobs, q, p, a, p') && Leads(jobs, q, p', b, p'')
    ensures Leads(jobs, q, p, a + b, p'')
  {
    PlayConcat(jobs, q, p, a, b);
  }

  ghost predicate Touching(jobs: seq<Job>, i: nat, x: Address) {
    i < |jobs| && TouchedBy(jobs[i].commits, x)
  }

  /** Two checkpoints of the stream share no id. */
  ghost predicate Disjoint(jobs: seq<Job>, i: nat, j: nat) {
    forall x :: !(Touching(jobs, i, x) && Touching(jobs, j, x))
  }

  /** The condition on a run: checkpoints in flight together share no id. */
  ghost predicate InFlightDisjoint(jobs: seq<Job>, p: Pool) {
    forall i <- p.active, j <- p.active | i != j :: Disjoint(jobs, i, j)
  }

  ghost predicate AlwaysDisjoint(jobs: seq<Job>, q: nat, moves: seq<Move>) {
    forall k | 0 <= k <= |moves| :: InFlightDisjoint(jobs, After(jobs, q, moves[..k]))
  }

  ghost predicate WellFormed(jobs: seq<Job>, q: nat, p: Pool) {
    && p.base <= p.next <= |jobs|
    && p.Watermark() <= p.next
    && |p.active| <= q
    && p.read <= p.active.Keys
    && (forall i <- p.active ::
          p.base <= i < p.next && p.Watermark() <= i && p.active[i] <= |jobs[i].commits|)
    && (p.resetting ==>
          p.tables == EMPTY && p.active == map[] && p.clock == None && p.base == p.next == p.Watermark())
  }

  /** No checkpoint in flight or still to come touches `x`. */
  ghost predicate Quiet(jobs: seq<Job>, p: Pool, x: Address)
    requires p.next <= |jobs|
  {
    (forall i <- p.active :: !Touching(jobs, i, x)) && !JobsTouch(jobs[p.next..], x)
  }

  /** The checkpoints the tables were given, in order. */
  ghost function HandedOut(jobs: seq<Job>, p: Pool): seq<Job>
    requires p.base <= p.next <= |jobs|
  {
    jobs[p.base..p.next]
  }

  /** Quiet ids hold what in-order processing of everything handed out gives them. */
  ghost predicate Settled(jobs: seq<Job>, p: Pool)
    requires p.base <= p.next <= |jobs|
  {
    forall x | Quiet(jobs, p, x) :: CellOf(p.tables, x) == CellOf(Run(EMPTY, Work(HandedOut(jobs, p))), x)
  }

  /** What an attempt has committed so far is still there. */
  ghost predicate Standing(jobs: seq<Job>, p: Pool)
    requires forall i <- p.active :: i < |jobs| && p.active[i] <= |jobs[i].commits|
  {
    forall i <- p.active, x | TouchedBy(jobs[i].commits[..p.active[i]], x) ::
      CellOf(p.tables, x) == CellOf(Run(EMPTY, jobs[i].commits[..p.active[i]]), x)
  }

  /** A checkpoint that finished ahead of one in flight shares no id with it. */
  ghost predicate Ordered(jobs: seq<Job>, p: Pool) {
    forall i <- p.active, j | i < j < p.next && j !in p.active :: Disjoint(jobs, i, j)
  }

  ghost predicate Invariant(jobs: seq<Job>, q: nat, p: Pool) {
    WellFormed(jobs, q, p) && Settled(jobs, p) && Standing(jobs, p) && Ordered(jobs, p)
  }

  /** One checkpoint in flight fewer. */
  lemma FinishKeepsWellFormed(jobs: seq<Job>, q: nat, p: Pool, i: nat)
    requires WellFormed(jobs, q, p) && Enabled(jobs, q, p, Finish(i))
    ensures WellFormed(jobs, q, Take(jobs, q, p, Finish(i)))
  {
    assert p.active.Keys == (p.active - {i}).Keys + {i};
    assert |(p.active - {i}).Keys| < |p.active.Keys|;
  }

  /** The same checkpoints in flight. */
  lemma AttemptKeepsWellFormed(jobs: seq<Job>, q: nat, p: Pool, m: Move)
    requires WellFormed(jobs, q, p) && Enabled(jobs, q, p, m)
    requires m.ReadTransactions? || m.MakeCommit? || m.Retry? || m.SaveWatermark?
    ensures WellFormed(jobs, q, Take(jobs, q, p, m))
  {
    assert Take(jobs, q, p, m).active.Keys == p.active.Keys;
  }

  lemma StepKeepsWellFormed(jobs: seq<Job>, q: nat, p: Pool, m: Move)
    requires WellFormed(jobs, q, p)
    ensures WellFormed(jobs, q, Take(jobs, q, p, m))
  {
    if Enabled(jobs, q, p, m) {
      if m.Finish? {
        FinishKeepsWellFormed(jobs, q, p, m.i);
      } else if m.ReadTransactions? || m.MakeCommit? || m.Retry? || m.SaveWatermark? {
        AttemptKeepsWellFormed(jobs, q, p, m);
      }
    }
  }

  /** Handing out a checkpoint that does not touch `x` changes nothing there. */
  lemma HandedOutWithoutTouch(jobs: seq<Job>, b: nat, n: nat, x: Address)
    requires b <= n < |jobs| && !Touching(jobs, n, x)
    ensures CellOf(Run(EMPTY, Work(jobs[b..n + 1])), x) == CellOf(Run(EMPTY, Work(jobs[b..n])), x)
  {
    assert jobs[b..n + 1][..n - b] == jobs[b..n];
    ConcatCell(EMPTY, Work(jobs[b..n]), jobs[n].commits, x);
  }

  /** An id that is quiet once checkpoint `p.next` is in flight was quiet before. */
  lemma QuietBeforeStart(jobs: seq<Job>, p: Pool, p': Pool, x: Address)
    requires p.next < |jobs| && p'.next == p.next + 1 && p'.active == p.active[p.next := 0]
    requires Quiet(jobs, p', x)
    ensures Quiet(jobs, p, x) && !Touching(jobs, p.next, x)
  {
    assert p.next in p'.active && forall i <- p.active :: i in p'.active;
    assert jobs[p.next..] == [jobs[p.next]] + jobs[p.next + 1..];
  }

  lemma StartSettles(jobs: seq<Job>, p: Pool, p': Pool)
    requires p.base <= p.next < |jobs| && Settled(jobs, p)
    requires p' == p.(next := p.next + 1, active := p.active[p.next := 0])
    ensures Settled(jobs, p')
  {
    forall x | Quiet(jobs, p', x)
      ensures CellOf(p'.tables, x) == CellOf(Run(EMPTY, Work(HandedOut(jobs, p'))), x)
    {
      QuietBeforeStart(jobs, p, p', x);
      HandedOutWithoutTouch(jobs, p.base, p.next, x);
    }
  }

  lemma StartKeepsInvariant(jobs: seq<Job>, q: nat, p: Pool)
    requires Invariant(jobs, q, p) && Enabled(jobs, q, p, Start)
    ensures Invariant(jobs, q, Take(jobs, q, p, Start))
  {
    var p' := Take(jobs, q, p, Start);
    StepKeepsWellFormed(jobs, q, p, Start);
    assert jobs[p.next].commits[..0] == [];
    StartSettles(jobs, p, p');
  }

  /** One more commit of an attempt stands like the ones before it. */
  lemma CommitStands(t: Tables, cs: seq<Commit>, k: nat, x: Address)
    requires k < |cs| && TouchedBy(cs[..k + 1], x)
    requires TouchedBy(cs[..k], x) ==> CellOf(t, x) == CellOf(Run(EMPTY, cs[..k]), x)
    ensures CellOf(Apply(t, cs[k]), x) == CellOf(Run(EMPTY, cs[..k + 1]), x)
  {
    assert cs[..k + 1] == cs[..k] + [cs[k]] && cs[..k + 1][..k] == cs[..k];
    ApplyCell(t, cs[k], x);
    ApplyCell(Run(EMPTY, cs[..k]), cs[k], x);
  }

  lemma CommitKeepsInvariant(jobs: seq<Job>, q: nat, p: Pool, i: nat)
    requires Invariant(jobs, q, p) && Enabled(jobs, q, p, MakeCommit(i))
    requires InFlightDisjoint(jobs, p)
    ensures Invariant(jobs, q, Take(jobs, q, p, MakeCommit(i)))
  {
    var p' := Take(jobs, q, p, MakeCommit(i));
    var cs, k := jobs[i].commits, p.active[i];
    StepKeepsWellFormed(jobs, q, p, MakeCommit(i));
    forall x | !Touching(jobs, i, x)
      ensures CellOf(p'.tables, x) == CellOf(p.tables, x)
    {
      assert cs[k] in cs;
      ApplyCell(p.tables, cs[k], x);
    }
    forall j, x | j in p'.active && TouchedBy(jobs[j].commits[..p'.active[j]], x)
      ensures CellOf(p'.tables, x) == CellOf(Run(EMPTY, jobs[j].commits[..p'.active[j]]), x)
    {
      if j == i {
        CommitStands(p.tables, cs, k, x);
      } else {
        assert forall c <- jobs[j].commits[..p'.active[j]] :: c in jobs[j].commits;
        assert Touching(jobs, j, x) && Disjoint(jobs, i, j);
      }
    }
    assert Settled(jobs, p') by {
      assert forall x | Quiet(jobs, p', x) :: Quiet(jobs, p, x) && !Touching(jobs, i, x);
    }
  }

  lemma LastJobDecides(jobs: seq<Job>, x: Address)
    requires jobs != [] && TouchedBy(jobs[|jobs| - 1].commits, x)
    ensures CellOf(Run(EMPTY, Work(jobs)), x) == CellOf(Run(EMPTY, jobs[|jobs| - 1].commits), x)
  {
    ConcatCell(EMPTY, Work(jobs[..|jobs| - 1]), jobs[|jobs| - 1].commits, x);
  }

  lemma LastToucherDecides(jobs: seq<Job>, k: nat, x: Address)
    requires k < |jobs| && TouchedBy(jobs[k].commits, x) && !JobsTouch(jobs[k + 1..], x)
    ensures CellOf(Run(EMPTY, Work(jobs)), x) == CellOf(Run(EMPTY, jobs[k].commits), x)
  {
    SplitUntouched(jobs, k + 1, x);
    LastJobDecides(jobs[..k + 1], x);
  }

  /** A stretch that does not touch `x` makes no difference there. */
  lemma SplitUntouched(jobs: seq<Job>, w: nat, x: Address)
    requires w <= |jobs| && !JobsTouch(jobs[w..], x)
    ensures CellOf(Run(EMPTY, Work(jobs)), x) == CellOf(Run(EMPTY, Work(jobs[..w])), x)
  {
    WorkSplit(jobs, w);
    WorkTouches(jobs[w..], x);
    ConcatCell(EMPTY, Work(jobs[..w]), Work(jobs[w..]), x);
  }

  /** The last toucher of an id among the checkpoints handed out is the one that just finished. */
  lemma FinishedLast(jobs: seq<Job>, p: Pool, i: nat, x: Address)
    requires p.base <= i < p.next <= |jobs| && i in p.active && Ordered(jobs, p)
    requires Touching(jobs, i, x)
    requires forall j <- p.active | j != i :: !Touching(jobs, j, x)
    ensures CellOf(Run(EMPTY, Work(HandedOut(jobs, p))), x) == CellOf(Run(EMPTY, jobs[i].commits), x)
  {
    var out, k := HandedOut(jobs, p), i - p.base;
    forall job | job in out[k + 1..] ensures !TouchedBy(job.commits, x) {
      var j :| i < j < p.next && jobs[j] == job;
      assert j !in p.active ==> Disjoint(jobs, i, j);
    }
    LastToucherDecides(out, k, x);
  }

  lemma FinishKeepsInvariant(jobs: seq<Job>, q: nat, p: Pool, i: nat)
    requires Invariant(jobs, q, p) && Enabled(jobs, q, p, Finish(i))
    requires InFlightDisjoint(jobs, p)
    ensures Invariant(jobs, q, Take(jobs, q, p, Finish(i)))
  {
    var p' := Take(jobs, q, p, Finish(i));
    StepKeepsWellFormed(jobs, q, p, Finish(i));
    assert jobs[i].commits[..p.active[i]] == jobs[i].commits;
    forall x | Quiet(jobs, p', x)
      ensures CellOf(p'.tables, x) == CellOf(Run(EMPTY, Work(HandedOut(jobs, p'))), x)
    {
      assert forall j <- p.active | j != i :: j in p'.active;
      if Touching(jobs, i, x) {
        FinishedLast(jobs, p, i, x);
      } else {
        assert Quiet(jobs, p, x);
      }
    }
  }

  lemma RestartKeepsInvariant(jobs: seq<Job>, q: nat, p: Pool)
    requires Invariant(jobs, q, p)
    ensures Invariant(jobs, q, Take(jobs, q, p, Restart))
  {
    var p' := Take(jobs, q, p, Restart);
    assert HandedOut(jobs, p') == jobs[p.Origin()..p.Watermark()];
    forall x | Quiet(jobs, p', x)
      ensures CellOf(p'.tables, x) == CellOf(Run(EMPTY, Work(HandedOut(jobs, p'))), x)
    {
      UntouchedSinceWatermark(jobs, q, p, x);
    }
  }

  /** An id untouched at or after the watermark is quiet, and has its value from before it. */
  lemma UntouchedSinceWatermark(jobs: seq<Job>, q: nat, p: Pool, x: Address)
    requires Invariant(jobs, q, p)
    requires !JobsTouch(jobs[p.Watermark()..], x)
    ensures CellOf(p.tables, x) == CellOf(Run(EMPTY, Work(jobs[p.Origin()..p.Watermark()])), x)
  {
    QuietAboveWatermark(jobs, q, p, x);
    UntouchedAbove(jobs, p.base, p.next, p.Watermark(), x);
  }

  lemma QuietAboveWatermark(jobs: seq<Job>, q: nat, p: Pool, x: Address)
    requires WellFormed(jobs, q, p) && !JobsTouch(jobs[p.Watermark()..], x)
    ensures Quiet(jobs, p, x)
  {
    var w := p.Watermark();
    assert forall i :: w <= i < |jobs| ==> jobs[i] in jobs[w..];
    assert forall job :: job in jobs[p.next..] ==> job in jobs[w..];
  }

  /** What checkpoints `b` to `n` leave at an id that nothing from `w` on touches. */
  lemma UntouchedAbove(jobs: seq<Job>, b: nat, n: nat, w: nat, x: Address)
    requires b <= n <= |jobs| && w <= n && !JobsTouch(jobs[w..], x)
    ensures var o := if b <= w then b else w;
            CellOf(Run(EMPTY, Work(jobs[b..n])), x) == CellOf(Run(EMPTY, Work(jobs[o..w])), x)
  {
    var out, k := jobs[b..n], if b <= w then w - b else 0;
    assert forall job <- out[k..] :: job in jobs[w..];
    assert out[..k] == jobs[if b <= w then b else w..w];
    SplitUntouched(out, k, x);
  }

  lemma StepKeepsInvariant(jobs: seq<Job>, q: nat, p: Pool, m: Move)
    requires Invariant(jobs, q, p) && InFlightDisjoint(jobs, p)
    ensures Invariant(jobs, q, Take(jobs, q, p, m))
  {
    if Enabled(jobs, q, p, m) {
      match m {
        case Start => StartKeepsInvariant(jobs, q, p);
        case MakeCommit(i) => CommitKeepsInvariant(jobs, q, p, i);
        case Finish(i) => FinishKeepsInvariant(jobs, q, p, i);
        case Restart => RestartKeepsInvariant(jobs, q, p);
        case ResetObjects => EmptyKeepsInvariant(jobs, q, Take(jobs, q, p, m));
        case ResetProgress => EmptyKeepsInvariant(jobs, q, Take(jobs, q, p, m));
        case ReadTransactions(_) => QuietStepKeepsInvariant(jobs, q, p, m);
        case Retry(_) => QuietStepKeepsInvariant(jobs, q, p, m);
        case SaveWatermark(_) => QuietStepKeepsInvariant(jobs, q, p, m);
      }
    }
  }

  /** Empty tables with nothing handed out. */
  lemma EmptyKeepsInvariant(jobs: seq<Job>, q: nat, p: Pool)
    requires p.tables == EMPTY && p.active == map[] && p.read == {} && p.clock == None
    requires p.base == p.next == p.Watermark() <= |jobs|
    ensures Invariant(jobs, q, p)
  {
    assert HandedOut(jobs, p) == [];
  }

  lemma QuietStepKeepsInvariant(jobs: seq<Job>, q: nat, p: Pool, m: Move)
    requires Invariant(jobs, q, p) && Enabled(jobs, q, p, m)
    requires m.ReadTransactions? || m.Retry? || m.SaveWatermark?
    ensures Invariant(jobs, q, Take(jobs, q, p, m))
  {
    var p' := Take(jobs, q, p, m);
    StepKeepsWellFormed(jobs, q, p, m);
    assert p'.active.Keys == p.active.Keys;
    assert m.Retry? ==> jobs[m.i].commits[..0] == [];
    assert forall x :: Quiet(jobs, p', x) ==> Quiet(jobs, p, x);
  }

  /** Every run whose checkpoints in flight share no id keeps the invariant. */
  lemma {:induction false} RunKeepsInvariant(jobs: seq<Job>, q: nat, moves: seq<Move>)
    requires AlwaysDisjoint(jobs, q, moves)
    ensures Invariant(jobs, q, After(jobs, q, moves))
  {
    if moves == [] {
      EmptyKeepsInvariant(jobs, q, INITIAL);
    } else {
      var init := moves[..|moves| - 1];
      assert forall k | 0 <= k <= |init| :: init[..k] == moves[..k];
      RunKeepsInvariant(jobs, q, init);
      assert init[..|init|] == init;
      StepKeepsInvariant(jobs, q, After(jobs, q, init), moves[|moves| - 1]);
    }
  }

  /** No work is skipped across the two databases. */
  lemma NoSkippedWork(jobs: seq<Job>, q: nat, moves: seq<Move>, x: Address)
    requires AlwaysDisjoint(jobs, q, moves)
    ensures var p := After(jobs, q, moves);
            && p.Watermark() <= |jobs|
            && (!JobsTouch(jobs[p.Watermark()..], x) ==>
                  CellOf(p.tables, x) == CellOf(Run(EMPTY, Work(jobs[p.Origin()..p.Watermark()])), x))
  {
    RunKeepsInvariant(jobs, q, moves);
    var p := After(jobs, q, moves);
    if !JobsTouch(jobs[p.Watermark()..], x) {
      UntouchedSinceWatermark(jobs, q, p, x);
    }
  }

  /** Replaying everything at or after the watermark, over the tables as they are, gives the tables of
      one uninterrupted run from the origin on. */
  ghost predicate Replays(jobs: seq<Job>, p: Pool) {
    && p.Watermark() <= |jobs|
    && Run(p.tables, Work(jobs[p.Watermark()..])) == Run(EMPTY, Work(jobs[p.Origin()..]))
  }

  /** Every reachable state replays, between the halves of a reset too. */
  lemma ReplayConverges(jobs: seq<Job>, q: nat, moves: seq<Move>)
    requires AlwaysDisjoint(jobs, q, moves)
    ensures Replays(jobs, After(jobs, q, moves))
  {
    RunKeepsInvariant(jobs, q, moves);
    var p := After(jobs, q, moves);
    forall x | !JobsTouch(jobs[p.Watermark()..], x) {
      UntouchedSinceWatermark(jobs, q, p, x);
    }
    UntouchedReplays(jobs, p);
  }

  lemma UntouchedReplays(jobs: seq<Job>, p: Pool)
    requires p.Watermark() <= |jobs|
    requires forall x | !JobsTouch(jobs[p.Watermark()..], x) ::
               CellOf(p.tables, x) == CellOf(Run(EMPTY, Work(jobs[p.Origin()..p.Watermark()])), x)
    ensures Replays(jobs, p)
  {
    var w, o := p.Watermark(), p.Origin();
    var rest, all := Work(jobs[w..]), Work(jobs[o..]);
    WorkSplit(jobs[o..], w - o);
    assert jobs[o..][..w - o] == jobs[o..w] && jobs[o..][w - o..] == jobs[w..];
    forall x ensures CellOf(Run(p.tables, rest), x) == CellOf(Run(EMPTY, all), x) {
      ConcatCell(EMPTY, Work(jobs[o..w]), rest, x);
      WorkTouches(jobs[w..], x);
      if TouchedBy(rest, x) {
        TouchedForgetsStart(p.tables, EMPTY, rest, x);
      } else {
        RunIsLastTouch(p.tables, rest, x);
      }
    }
    SameCells(Run(p.tables, rest), Run(EMPTY, all));
  }

  /** Everything handed out, everything done. */
  ghost predicate AllDone(jobs: seq<Job>, p: Pool) {
    !p.resetting && p.next == |jobs| && p.active == map[]
  }

  lemma DoneIsFinal(jobs: seq<Job>, q: nat, p: Pool)
    requires Invariant(jobs, q, p) && AllDone(jobs, p)
    ensures p.tables == Run(EMPTY, Work(jobs[p.base..]))
  {
    assert HandedOut(jobs, p) == jobs[p.base..] && jobs[p.next..] == [];
    assert forall x :: Quiet(jobs, p, x);
    SameCells(p.tables, Run(EMPTY, Work(jobs[p.base..])));
  }

  /** Every row stored below checkpoint `b` is touched again at or after it. */
  ghost predicate RestoredAbove(jobs: seq<Job>, b: nat) {
    b <= |jobs| &&
    forall x | CellOf(Run(EMPTY, Work(jobs[..b])), x) != ABSENT :: JobsTouch(jobs[b..], x)
  }

  /** The tables built from checkpoint `b` on are those of the whole stream exactly when nothing stored
      below `b` would have outlived it. */
  lemma SuffixIsWholeIff(jobs: seq<Job>, b: nat)
    requires b <= |jobs|
    ensures Run(EMPTY, Work(jobs[b..])) == Run(EMPTY, Work(jobs)) <==> RestoredAbove(jobs, b)
  {
    var kept, all := Run(EMPTY, Work(jobs[b..])), Run(EMPTY, Work(jobs));
    WorkSplit(jobs, b);
    forall x
      ensures CellOf(kept, x) == CellOf(all, x)
         <==> (CellOf(Run(EMPTY, Work(jobs[..b])), x) != ABSENT ==> JobsTouch(jobs[b..], x))
    {
      WorkTouches(jobs[b..], x);
      ConcatCell(EMPTY, Work(jobs[..b]), Work(jobs[b..]), x);
      RunIsLastTouch(EMPTY, Work(jobs[b..]), x);
    }
    if RestoredAbove(jobs, b) {
      SameCells(kept, all);
    }
  }

  /** Once the last checkpoint is done and none is in flight, the tables are those of one uninterrupted
      run from `base` on, whatever failed, crashed, restarted or was reset, in whole or by half, on the
      way; and those of the whole stream exactly when nothing below `base` would have outlived it. */
  lemma FinishedRunConverges(jobs: seq<Job>, q: nat, moves: seq<Move>)
    requires AlwaysDisjoint(jobs, q, moves) && AllDone(jobs, After(jobs, q, moves))
    ensures var p := After(jobs, q, moves);
            && p.base <= |jobs|
            && p.tables == Run(EMPTY, Work(jobs[p.base..]))
            && (p.tables == Run(EMPTY, Work(jobs)) <==> RestoredAbove(jobs, p.base))
  {
    RunKeepsInvariant(jobs, q, moves);
    DoneIsFinal(jobs, q, After(jobs, q, moves));
    SuffixIsWholeIff(jobs, After(jobs, q, moves).base);
  }

  /** No start without the reset flag comes between the two halves of a reset. */
  ghost predicate ResetsComplete(jobs: seq<Job>, q: nat, moves: seq<Move>) {
    forall k | 0 <= k < |moves| :: moves[k].Restart? ==> !After(jobs, q, moves[..k]).resetting
  }

  /** Then the tables are built from the very first checkpoint on. */
  lemma {:induction false} CompleteResetsKeepBase(jobs: seq<Job>, q: nat, moves: seq<Move>)
    requires ResetsComplete(jobs, q, moves)
    ensures var p := After(jobs, q, moves); p.resetting || p.base == 0
  {
    if moves == [] {
    } else {
      var init := moves[..|moves| - 1];
      assert forall k | 0 <= k <= |init| :: init[..k] == moves[..k];
      CompleteResetsKeepBase(jobs, q, init);
    }
  }

  lemma {:induction false} RunIsWellFormed(jobs: seq<Job>, q: nat, moves: seq<Move>)
    ensures WellFormed(jobs, q, After(jobs, q, moves))
  {
    if moves == [] {
    } else {
      var init := moves[..|moves| - 1];
      RunIsWellFormed(jobs, q, init);
      StepKeepsWellFormed(jobs, q, After(jobs, q, init), moves[|moves| - 1]);
    }
  }

  lemma OnlyOneInFlight(jobs: seq<Job>, q: nat, p: Pool, i: nat, j: nat)
    requires q <= 1 && WellFormed(jobs, q, p) && i in p.active && j in p.active
    ensures i == j
  {
    if i != j {
      assert {i, j} <= p.active.Keys && |{i, j}| == 2;
      SubsetSize({i, j}, p.active.Keys);
      assert false;
    }
  }

  /** With one checkpoint in flight at a time nothing need be assumed about the ids. */
  lemma OneAtATimeIsDisjoint(jobs: seq<Job>, q: nat, moves: seq<Move>)
    requires q <= 1
    ensures AlwaysDisjoint(jobs, q, moves)
  {
    forall k | 0 <= k <= |moves| ensures InFlightDisjoint(jobs, After(jobs, q, moves[..k])) {
      RunIsWellFormed(jobs, q, moves[..k]);
      var p := After(jobs, q, moves[..k]);
      forall i, j | i in p.active && j in p.active ensures i == j {
        OnlyOneInFlight(jobs, q, p, i, j);
      }
    }
  }

  /** Sequential processing converges through any crashes, retries, restarts and completed resets, with
      no assumption on the ids. */
  lemma CrashAndReplayConverge(jobs: seq<Job>, q: nat, moves: seq<Move>)
    requires q <= 1 && AllDone(jobs, After(jobs, q, moves))
    requires ResetsComplete(jobs, q, moves)
    ensures After(jobs, q, moves).tables == Run(EMPTY, Work(jobs))
  {
    OneAtATimeIsDisjoint(jobs, q, moves);
    FinishedRunConverges(jobs, q, moves);
    CompleteResetsKeepBase(jobs, q, moves);
    assert jobs[0..] == jobs;
  }

  /** Nothing has got past checkpoint `i`. */
  predicate HeldUpAt(q: nat, p: Pool, i: nat) {
    p.Watermark() <= i && (p.next <= i || i in p.active) && (q <= 1 ==> p.next <= i + 1)
  }

  lemma StepStaysHeldUp(jobs: seq<Job>, q: nat, p: Pool, m: Move, i: nat)
    requires i < |jobs| && !jobs[i].reach.Complete? && HeldUpAt(q, p, i)
    ensures HeldUpAt(q, Take(jobs, q, p, m), i)
  {
    if m == Start && i in p.active {
      assert |p.active| > 0;
    } else if m.SaveWatermark? && Enabled(jobs, q, p, m) {
      assert Take(jobs, q, p, m).Watermark() == m.w;
    }
  }

  /** A checkpoint that cannot be completed is never passed: the watermark stays at or below it, and
      with one worker nothing after it is ever handed out. */
  lemma {:induction false} IncompleteStaysInFlight(jobs: seq<Job>, q: nat, moves: seq<Move>, i: nat)
    requires i < |jobs| && !jobs[i].reach.Complete?
    ensures var p := After(jobs, q, moves);
            && p.Watermark() <= i
            && (p.next <= i || i in p.active)
            && (q <= 1 ==> p.next <= i + 1)
            && !AllDone(jobs, p)
  {
    if moves == [] {
    } else {
      var init := moves[..|moves| - 1];
      IncompleteStaysInFlight(jobs, q, init, i);
      StepStaysHeldUp(jobs, q, After(jobs, q, init), moves[|moves| - 1], i);
    }
  }

  /** In every reachable state, with or without shared ids, the derived table agrees. */
  lemma {:induction false} EveryStateAgrees(codec: Codec, jobs: seq<Job>, q: nat, moves: seq<Move>)
    requires forall job <- jobs :: Faithful(codec, job.commits)
    ensures Agreement(codec, After(jobs, q, moves).tables)
  {
    if moves == [] {
    } else {
      var init, m := moves[..|moves| - 1], moves[|moves| - 1];
      EveryStateAgrees(codec, jobs, q, init);
      var p := After(jobs, q, init);
      if Enabled(jobs, q, p, m) && m.MakeCommit? {
        var c := jobs[m.i].commits[p.active[m.i]];
        assert jobs[m.i] in jobs && c in jobs[m.i].commits;
        ApplyKeepsAgreement(codec, p.tables, c);
      }
    }
  }
}
