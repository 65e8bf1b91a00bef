/** Several checkpoints in flight: any interleaving of their commits against processing them in order
    (src/sync/handler.rs). */
module Interleaving {
  import opened Models
  import opened Store
  import opened Commits
  import opened Planning
  import opened Sequential

  /** The remaining work after job `p` makes its next commit. */
  function Advance(jobs: seq<Job>, p: nat): seq<Job>
    requires p < |jobs| && jobs[p].commits != []
  {
    jobs[p := jobs[p].(commits := jobs[p].commits[1..])]
  }

  /** `picks` names, step by step, the job that commits next, until no job has work left. */
  predicate IsSchedule(jobs: seq<Job>, picks: seq<nat>)
    decreases |picks|
  {
    if picks == [] then forall job <- jobs :: job.commits == []
    else
      && picks[0] < |jobs|
      && jobs[picks[0]].commits != []
      && IsSchedule(Advance(jobs, picks[0]), picks[1..])
  }

  function Weave(jobs: seq<Job>, picks: seq<nat>): seq<Commit>
    requires IsSchedule(jobs, picks)
    decreases |picks|
  {
    if picks == [] then []
    else [jobs[picks[0]].commits[0]] + Weave(Advance(jobs, picks[0]), picks[1..])
  }

  /** Any two jobs that touch the same id leave the same there. */
  ghost predicate OrderFree(jobs: seq<Job>) {
    forall a <- jobs, b <- jobs, x | TouchedBy(a.commits, x) && TouchedBy(b.commits, x) ::
      CellOf(Run(EMPTY, a.commits), x) == CellOf(Run(EMPTY, b.commits), x)
  }

  /** What `cell` is, when some job's work on `x` is what remains. */
  ghost predicate LeftBySome(jobs: seq<Job>, x: Address, cell: Cell) {
    exists job <- jobs :: TouchedBy(job.commits, x) && cell == CellOf(Run(EMPTY, job.commits), x)
  }

  lemma TailCell(c: Commit, cs: seq<Commit>, x: Address)
    ensures TouchedBy([c] + cs, x) <==> Touches(c, x) || TouchedBy(cs, x)
    ensures TouchedBy(cs, x) ==> CellOf(Run(EMPTY, [c] + cs), x) == CellOf(Run(EMPTY, cs), x)
    ensures !TouchedBy(cs, x) && Touches(c, x) ==> CellOf(Run(EMPTY, [c] + cs), x) == Effect(c)
  {
    TouchedByConcat([c], cs, x);
    ConcatCell(EMPTY, [c], cs, x);
    assert [c][..0] == [] && Run(EMPTY, [c]) == Apply(Run(EMPTY, []), c);
    ApplyCell(EMPTY, c, x);
    assert c in [c];
  }

  /** Job `p`'s next commit matters at `x` only if no later work touches `x`. */
  lemma AdvanceCell(jobs: seq<Job>, p: nat, x: Address, cell: Cell)
    requires p < |jobs| && jobs[p].commits != []
    ensures LeftBySome(Advance(jobs, p), x, cell) ==> LeftBySome(jobs, x, cell)
    ensures var c := jobs[p].commits[0];
            && (JobsTouch(jobs, x) <==> Touches(c, x) || JobsTouch(Advance(jobs, p), x))
            && (!JobsTouch(Advance(jobs, p), x) && Touches(c, x) ==> LeftBySome(jobs, x, Effect(c)))
  {
    var c, cs := jobs[p].commits[0], jobs[p].commits[1..];
    var rest := Advance(jobs, p);
    assert jobs[p].commits == [c] + cs && jobs[p] in jobs && rest[p] in rest;
    TailCell(c, cs, x);
    assert forall i | 0 <= i < |jobs| && i != p :: rest[i] == jobs[i] && rest[i] in rest;
    if job :| job in rest && TouchedBy(job.commits, x) && cell == CellOf(Run(EMPTY, job.commits), x) {
      assert job in jobs || job == rest[p];
    }
  }

  /** An interleaving leaves at each id what one of the jobs that touch it leaves. */
  lemma {:induction false} WeaveCell(jobs: seq<Job>, picks: seq<nat>, t: Tables, x: Address)
    requires IsSchedule(jobs, picks)
    ensures var cell := CellOf(Run(t, Weave(jobs, picks)), x);
            if JobsTouch(jobs, x) then LeftBySome(jobs, x, cell) else cell == CellOf(t, x)
    decreases |picks|
  {
    if picks == [] {
      assert Weave(jobs, picks) == [];
    } else {
      var p := picks[0];
      var c, rest := jobs[p].commits[0], Advance(jobs, p);
      RunCons(t, c, Weave(rest, picks[1..]));
      WeaveCell(rest, picks[1..], Apply(t, c), x);
      ApplyCell(t, c, x);
      AdvanceCell(jobs, p, x, CellOf(Run(t, Weave(jobs, picks)), x));
    }
  }

  /** So does processing them in order. */
  lemma {:induction false} WorkCell(jobs: seq<Job>, t: Tables, x: Address)
    ensures var cell := CellOf(Run(t, Work(jobs)), x);
            if JobsTouch(jobs, x) then LeftBySome(jobs, x, cell) else cell == CellOf(t, x)
  {
    if jobs == [] {
    } else {
      var n := |jobs| - 1;
      WorkCell(jobs[..n], t, x);
      ConcatCell(t, Work(jobs[..n]), jobs[n].commits, x);
      assert forall job :: job in jobs <==> job in jobs[..n] || job == jobs[n];
    }
  }

  /** The number of commits left. */
  function Left(jobs: seq<Job>): nat {
    if jobs == [] then 0 else Left(jobs[..|jobs| - 1]) + |jobs[|jobs| - 1].commits|
  }

  lemma {:induction false} AdvanceLeft(jobs: seq<Job>, p: nat)
    requires p < |jobs| && jobs[p].commits != []
    ensures Left(Advance(jobs, p)) == Left(jobs) - 1
  {
    var n := |jobs| - 1;
    if p < n {
      AdvanceLeft(jobs[..n], p);
      assert Advance(jobs, p)[..n] == Advance(jobs[..n], p);
    } else {
      assert Advance(jobs, p)[..n] == jobs[..n];
    }
  }

  /** A schedule that keeps job `last` for the end. */
  lemma {:induction false} ScheduleEndingWith(jobs: seq<Job>, last: nat) returns (picks: seq<nat>)
    requires last < |jobs|
    ensures IsSchedule(jobs, picks)
    ensures forall t, x | TouchedBy(jobs[last].commits, x) ::
              CellOf(Run(t, Weave(jobs, picks)), x) == CellOf(Run(EMPTY, jobs[last].commits), x)
    decreases Left(jobs)
  {
    if p: nat :| p < |jobs| && p != last && jobs[p].commits != [] {
      AdvanceLeft(jobs, p);
      var rest := ScheduleEndingWith(Advance(jobs, p), last);
      picks := [p] + rest;
      assert picks[1..] == rest;
      forall t, x | TouchedBy(jobs[last].commits, x)
        ensures CellOf(Run(t, Weave(jobs, picks)), x) == CellOf(Run(EMPTY, jobs[last].commits), x)
      {
        assert Advance(jobs, p)[last] == jobs[last];
        assert Weave(jobs, picks) == [jobs[p].commits[0]] + Weave(Advance(jobs, p), rest);
        RunCons(t, jobs[p].commits[0], Weave(Advance(jobs, p), rest));
      }
    } else {
      picks := OnlyJob(jobs, last);
      forall t, x | TouchedBy(jobs[last].commits, x)
        ensures CellOf(Run(t, Weave(jobs, picks)), x) == CellOf(Run(EMPTY, jobs[last].commits), x)
      {
        TouchedForgetsStart(t, EMPTY, jobs[last].commits, x);
      }
    }
  }

  lemma {:induction false} OnlyJob(jobs: seq<Job>, p: nat) returns (picks: seq<nat>)
    requires p < |jobs| && forall i | 0 <= i < |jobs| && i != p :: jobs[i].commits == []
    ensures IsSchedule(jobs, picks) && Weave(jobs, picks) == jobs[p].commits
    decreases |jobs[p].commits|
  {
    if jobs[p].commits == [] {
      picks := [];
    } else {
      var rest := OnlyJob(Advance(jobs, p), p);
      picks := [p] + rest;
      assert picks[1..] == rest;
      assert jobs[p].commits == [jobs[p].commits[0]] + jobs[p].commits[1..];
    }
  }

  /** Jobs on pairwise disjoint ids are order free. */
  lemma DisjointJobsAreOrderFree(jobs: seq<Job>)
    requires forall i, j, x | 0 <= i < j < |jobs| ::
               !(TouchedBy(jobs[i].commits, x) && TouchedBy(jobs[j].commits, x))
    ensures OrderFree(jobs)
  {
  }

  ghost predicate EveryScheduleIsSequential(jobs: seq<Job>, t: Tables) {
    forall picks | IsSchedule(jobs, picks) :: Run(t, Weave(jobs, picks)) == Run(t, Work(jobs))
  }

  /** Every interleaving ends in the tables of in-order processing exactly when the jobs are
      order free, whatever the tables were before. */
  lemma InterleavingEqualsSequentialIff(jobs: seq<Job>, t: Tables)
    ensures EveryScheduleIsSequential(jobs, t) <==> OrderFree(jobs)
  {
    if OrderFree(jobs) {
      forall picks | IsSchedule(jobs, picks)
        ensures Run(t, Weave(jobs, picks)) == Run(t, Work(jobs))
      {
        forall x
          ensures CellOf(Run(t, Weave(jobs, picks)), x) == CellOf(Run(t, Work(jobs)), x)
        {
          WeaveCell(jobs, picks, t, x);
          WorkCell(jobs, t, x);
        }
        SameCells(Run(t, Weave(jobs, picks)), Run(t, Work(jobs)));
      }
    }
    if EveryScheduleIsSequential(jobs, t) {
      forall a, b, x | a in jobs && b in jobs && TouchedBy(a.commits, x) && TouchedBy(b.commits, x)
        ensures CellOf(Run(EMPTY, a.commits), x) == CellOf(Run(EMPTY, b.commits), x)
      {
        SequentialLeavesEachJob(jobs, t, a, x);
        SequentialLeavesEachJob(jobs, t, b, x);
      }
    }
  }

  /** If order does not matter, any job that touches an id might as well have come last. */
  lemma SequentialLeavesEachJob(jobs: seq<Job>, t: Tables, job: Job, x: Address)
    requires EveryScheduleIsSequential(jobs, t) && job in jobs && TouchedBy(job.commits, x)
    ensures CellOf(Run(t, Work(jobs)), x) == CellOf(Run(EMPTY, job.commits), x)
  {
    var i :| 0 <= i < |jobs| && jobs[i] == job;
    var picks := ScheduleEndingWith(jobs, i);
    assert Run(t, Weave(jobs, picks)) == Run(t, Work(jobs));
  }
}
