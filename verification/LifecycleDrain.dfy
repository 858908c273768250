/** How often jobs can be claimed when no report comes in. */
module LifecycleDrain {
  import Groups
  import opened Lifecycle
  import opened LifecycleJobs

  /** Sum of a weight over all jobs. */
  ghost function Total(jobs: map<nat, Job>, weight: Job -> nat): nat {
    if jobs == map[] then 0
    else
      var j :| j in jobs;
      weight(jobs[j]) + Total(jobs - {j}, weight)
  }

  lemma {:induction false} TotalAt(jobs: map<nat, Job>, weight: Job -> nat, j: nat)
    requires j in jobs
    ensures Total(jobs, weight) == weight(jobs[j]) + Total(jobs - {j}, weight)
    decreases |jobs|
  {
    var k :| k in jobs && Total(jobs, weight) == weight(jobs[k]) + Total(jobs - {k}, weight);
    if k != j {
      TotalAt(jobs - {k}, weight, j);
      TotalAt(jobs - {j}, weight, k);
      assert jobs - {k} - {j} == jobs - {j} - {k};
    }
  }

  lemma TotalUpdate(jobs: map<nat, Job>, weight: Job -> nat, j: nat, row: Job)
    requires j in jobs
    ensures Total(jobs[j := row], weight) + weight(jobs[j]) == Total(jobs, weight) + weight(row)
  {
    TotalAt(jobs, weight, j);
    TotalAt(jobs[j := row], weight, j);
    assert jobs[j := row] - {j} == jobs - {j};
  }

  /** Claims that a job can still take: it may yet go back to pending while it is running. */
  function Credit(j: Job): nat {
    if (j.state == Pending || j.state == Running) && j.attempts < MAX_ATTEMPTS then MAX_ATTEMPTS - j.attempts else 0
  }

  ghost predicate Claims(s: State, a: Action) { a.Claim? && Pc(s, a.w).Idle? && AnyPending(s.t.jobs) }

  /** Claims that found a job, over a run. */
  ghost function ClaimCount(s: State, run: seq<Action>): nat {
    if run == [] then 0
    else
      var before := run[..|run| - 1];
      ClaimCount(s, before) + if Claims(Run(s, before), run[|run| - 1]) then 1 else 0
  }

  /** A step that changes at most one job row, to one with no more credit. */
  ghost predicate Spends(jobs: map<nat, Job>, after: map<nat, Job>, cost: nat) {
    || (after == jobs && cost == 0)
    || exists j, row :: j in jobs && after == jobs[j := row] && Credit(row) + cost <= Credit(jobs[j])
  }

  lemma SpendsRow(jobs: map<nat, Job>, j: nat, row: Job, cost: nat)
    requires j in jobs && Credit(row) + cost <= Credit(jobs[j])
    ensures Spends(jobs, jobs[j := row], cost)
  {
  }

  lemma SpendsTotal(jobs: map<nat, Job>, after: map<nat, Job>, cost: nat)
    requires Spends(jobs, after, cost)
    ensures Total(after, Credit) + cost <= Total(jobs, Credit)
  {
    hide Credit;
    if !(after == jobs && cost == 0) {
      var j, row :| j in jobs && after == jobs[j := row] && Credit(row) + cost <= Credit(jobs[j]);
      TotalUpdate(jobs, Credit, j, row);
    }
  }

  lemma ClaimSpends(s: State, w: nat)
    requires JobsInv(s)
    ensures Spends(s.t.jobs, ClaimStep(s, w).t.jobs, if Claims(s, Claim(w)) then 1 else 0)
  {
    if Claims(s, Claim(w)) {
      var j := Next(s.t.jobs);
      hide OneJobPerReport, Held, Exclusive, Enqueuing;
      var row := s.t.jobs[j].(state := Running, attempts := s.t.jobs[j].attempts + 1);
      SpendsRow(s.t.jobs, j, row, 1);
    }
  }

  lemma FinishSpends(s: State, w: nat, ok: bool)
    ensures Spends(s.t.jobs, FinishStep(s, w, ok).t.jobs, 0)
  {
    var pc := Pc(s, w);
    if pc.Finishing? && ok && pc.job.id in s.t.jobs {
      SpendsRow(s.t.jobs, pc.job.id, s.t.jobs[pc.job.id].(state := Done), 0);
    }
  }

  lemma FailJobSpends(s: State, w: nat, ok: bool)
    requires Held(s)
    ensures Spends(s.t.jobs, FailJobStep(s, w, ok).t.jobs, 0)
  {
    var pc := Pc(s, w);
    if pc.Failing? && ok {
      assert HoldsJob(s.t, pc);
      var to := if pc.job.attempts >= MAX_ATTEMPTS then GivenUp else Pending;
      SpendsRow(s.t.jobs, pc.job.id, s.t.jobs[pc.job.id].(state := to), 0);
    }
  }

  /** The other steps leave the job rows alone. */
  lemma OthersSpendNothing(s: State, a: Action)
    requires !a.Claim? && !a.FinishJob? && !a.FailJob? && !a.PostEnqueue?
    ensures Step(s, a).t.jobs == s.t.jobs
  {
    hide EntryOf, Groups.CanUpsert, Groups.Upsert, WriteFile, Collectable, SettleId;
  }

  lemma StepSpends(s: State, a: Action)
    requires JobsInv(s) && !a.PostEnqueue?
    ensures Spends(s.t.jobs, Step(s, a).t.jobs, if Claims(s, a) then 1 else 0)
  {
    hide Spends, JobRows, OneJobPerReport, Held, Exclusive, Enqueuing, ClaimStep, FinishStep, FailJobStep, AnyPending;
    match a
    case Claim(w) => ClaimSpends(s, w);
    case FinishJob(w, ok) => FinishSpends(s, w, ok);
    case FailJob(w, ok) => FailJobSpends(s, w, ok);
    case _ =>
      hide Step;
      OthersSpendNothing(s, a);
      SpendsNothing(s.t.jobs);
  }

  lemma SpendsNothing(jobs: map<nat, Job>)
    ensures Spends(jobs, jobs, 0)
  {
  }

  /** From any reachable state, as long as nothing is enqueued, all workers together claim jobs at most
      as often as the pending and running jobs have attempts left, whatever fails or dies. */
  lemma {:induction false} ClaimsBounded(history: seq<Action>, run: seq<Action>)
    requires forall i :: 0 <= i < |run| ==> !run[i].PostEnqueue?
    ensures var s := Run(INIT, history);
      ClaimCount(s, run) + Total(Run(s, run).t.jobs, Credit) <= Total(s.t.jobs, Credit)
    ensures JobsInv(Run(Run(INIT, history), run))
  {
    hide JobsInv, Step, Total, Credit, Claims;
    JobsSafe(history);
    if run != [] {
      var s, before, a := Run(INIT, history), run[..|run| - 1], run[|run| - 1];
      ClaimsBounded(history, before);
      StepSpends(Run(s, before), a);
      SpendsTotal(Run(s, before).t.jobs, Step(Run(s, before), a).t.jobs, if Claims(Run(s, before), a) then 1 else 0);
      StepKeepsJobs(Run(s, before), a);
    }
  }
}
