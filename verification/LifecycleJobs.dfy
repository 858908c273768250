/** Jobs: bounded retries, exclusive claims, one job per report. */
module LifecycleJobs {
  import opened Wrappers
  import Groups
  import opened Lifecycle

  /** Attempts that go with a job's state. */
  predicate RowOk(j: Job) {
    match j.state
    case Pending => j.attempts < MAX_ATTEMPTS
    case Running => 1 <= j.attempts <= MAX_ATTEMPTS
    case Done => 1 <= j.attempts <= MAX_ATTEMPTS
    case GivenUp => j.attempts == MAX_ATTEMPTS
  }

  ghost predicate JobRows(t: Tables) {
    forall j :: j in t.jobs ==> RowOk(t.jobs[j]) && t.jobs[j].report in t.reports
  }

  ghost predicate OneJobPerReport(t: Tables) {
    forall j, k :: j in t.jobs && k in t.jobs && t.jobs[j].report == t.jobs[k].report ==> j == k
  }

  /** A busy worker's job row is as the worker left it. */
  predicate HoldsJob(t: Tables, pc: Worker) {
    pc.Idle? ||
    (&& pc.job.id in t.jobs
     && t.jobs[pc.job.id].report == pc.job.report && t.jobs[pc.job.id].attempts == pc.job.attempts
     && if pc.FailingReport? then t.jobs[pc.job.id].state in {Running, GivenUp} && pc.job.attempts == MAX_ATTEMPTS
        else t.jobs[pc.job.id].state == Running)
  }

  ghost predicate Held(s: State) { forall w :: w in s.workers ==> HoldsJob(s.t, s.workers[w]) }

  /** No two workers hold the same job. */
  ghost predicate Exclusive(s: State) {
    forall v, w :: v in s.workers && w in s.workers && v != w && !s.workers[v].Idle? && !s.workers[w].Idle?
      ==> s.workers[v].job.id != s.workers[w].job.id
  }

  /** A post that inserted a row is the only one to add a job for it. */
  ghost predicate Enqueuing(s: State) {
    && (forall p :: p in s.posts && s.posts[p].RowInserted? ==>
          && s.posts[p].id in s.t.reports && s.t.reports[s.posts[p].id].state == Received
          && forall j :: j in s.t.jobs ==> s.t.jobs[j].report != s.posts[p].id)
    && forall p, q :: p in s.posts && q in s.posts && p != q && s.posts[p].RowInserted? && s.posts[q].RowInserted?
         ==> s.posts[p].id != s.posts[q].id
  }

  ghost predicate JobsInv(s: State) {
    JobRows(s.t) && OneJobPerReport(s.t) && Held(s) && Exclusive(s) && Enqueuing(s)
  }

  // ----- kept by every step -----

  lemma BusyHolds(s: State, w: nat)
    requires JobsInv(s) && w in s.workers
    ensures HoldsJob(s.t, s.workers[w])
  {
    hide JobRows, OneJobPerReport, Exclusive, Enqueuing, HoldsJob;
  }

  lemma ClaimKeepsRows(s: State, w: nat)
    requires JobsInv(s)
    ensures var s' := ClaimStep(s, w); JobRows(s'.t) && OneJobPerReport(s'.t) && Enqueuing(s')
  {
  }

  lemma ClaimKeepsHolds(s: State, w: nat)
    requires JobsInv(s)
    ensures var s' := ClaimStep(s, w); Held(s') && Exclusive(s')
  {
    hide JobRows, OneJobPerReport, Enqueuing;
  }

  /** A worker goes on with its job, or lets go of it. */
  lemma MoveKeepsJobs(s: State, w: nat, s': State)
    requires JobsInv(s) && w in s'.workers && s'.workers == s.workers[w := s'.workers[w]] && s'.posts == s.posts
    requires s'.t.jobs == s.t.jobs && s'.t.reports == s.t.reports
    requires var pc := s'.workers[w]; !pc.Idle? ==>
      !Pc(s, w).Idle? && pc.job == Pc(s, w).job && !pc.FailingReport? && !Pc(s, w).FailingReport?
    ensures JobsInv(s')
  {
  }

  lemma ReadingKeepsJobs(s: State, w: nat, ok: bool, text: Option<string>, how: WriteResult)
    requires JobsInv(s)
    ensures JobsInv(LoadStep(s, w, ok)) && JobsInv(ReadStep(s, w, ok, text)) && JobsInv(WriteStep(s, w, how))
  {
    hide JobsInv, WriteFile;
    if Pc(s, w).Claimed? { MoveKeepsJobs(s, w, LoadStep(s, w, ok)); }
    if Pc(s, w).Loaded? { MoveKeepsJobs(s, w, ReadStep(s, w, ok, text)); }
    if Pc(s, w).Texted? { MoveKeepsJobs(s, w, WriteStep(s, w, how)); }
  }

  lemma StoringKeepsJobs(s: State, w: nat, ok: bool, at: int, newId: nat)
    requires JobsInv(s)
    ensures JobsInv(ClockStep(s, w, at)) && JobsInv(UpsertStep(s, w, ok, newId)) && JobsInv(RemoveStep(s, w, ok)) && JobsInv(DieStep(s, w))
  {
    hide JobsInv, Groups.CanUpsert, Groups.Upsert, EntryOf;
    if Pc(s, w).Written? { MoveKeepsJobs(s, w, ClockStep(s, w, at)); }
    if Pc(s, w).Timed? { MoveKeepsJobs(s, w, UpsertStep(s, w, ok, newId)); }
    if Pc(s, w).Marked? { MoveKeepsJobs(s, w, RemoveStep(s, w, ok)); }
    MoveKeepsJobs(s, w, DieStep(s, w));
  }

  lemma MarkKeepsJobs(s: State, w: nat, ok: bool)
    requires JobsInv(s)
    ensures JobsInv(MarkStep(s, w, ok))
  {
  }

  lemma FinishKeepsJobs(s: State, w: nat, ok: bool)
    requires JobsInv(s)
    ensures JobsInv(FinishStep(s, w, ok))
  {
  }

  lemma FailJobKeepsJobs(s: State, w: nat, ok: bool)
    requires JobsInv(s)
    ensures JobsInv(FailJobStep(s, w, ok))
  {
  }

  lemma FailReportKeepsJobs(s: State, w: nat, ok: bool)
    requires JobsInv(s)
    ensures JobsInv(FailReportStep(s, w, ok))
  {
  }

  lemma WorkerKeepsJobs(s: State, a: Action)
    requires JobsInv(s)
    ensures JobsInv(WorkerStep(s, a))
  {
    hide JobsInv, ClaimStep, LoadStep, ReadStep, WriteStep, ClockStep, UpsertStep, MarkStep, RemoveStep, FinishStep,
      FailJobStep, FailReportStep, DieStep;
    match a
    case Claim(w) => ClaimKeepsJobs(s, w);
    case Load(w, ok) => ReadingKeepsJobs(s, w, ok, None, Untouched);
    case ReadRaw(w, ok, text) => ReadingKeepsJobs(s, w, ok, text, Untouched);
    case WriteDecoded(w, how) => ReadingKeepsJobs(s, w, true, None, how);
    case ReadClock(w, at) => StoringKeepsJobs(s, w, true, at, 0);
    case UpsertGroup(w, ok, newId) => StoringKeepsJobs(s, w, ok, 0, newId);
    case MarkDecoded(w, ok) => MarkKeepsJobs(s, w, ok);
    case RemoveRaw(w, ok) => StoringKeepsJobs(s, w, ok, 0, 0);
    case FinishJob(w, ok) => FinishKeepsJobs(s, w, ok);
    case FailJob(w, ok) => FailJobKeepsJobs(s, w, ok);
    case FailReport(w, ok) => FailReportKeepsJobs(s, w, ok);
    case WorkerDies(w) => StoringKeepsJobs(s, w, true, 0, 0);
    case _ =>
  }

  lemma ClaimKeepsJobs(s: State, w: nat)
    requires JobsInv(s)
    ensures JobsInv(ClaimStep(s, w))
  {
    hide ClaimStep;
    ClaimKeepsRows(s, w);
    ClaimKeepsHolds(s, w);
  }

  lemma GcKeepsJobs(s: State, a: Action)
    requires JobsInv(s)
    ensures JobsInv(GcStep(s, a))
  {
    hide Collectable;
  }

  lemma PostKeepsRows(s: State, a: Action)
    requires JobsInv(s)
    ensures var s' := PostStep(s, a); JobRows(s'.t) && OneJobPerReport(s'.t) && Held(s') && Exclusive(s')
  {
    hide WriteFile, SettleId;
  }

  lemma PostKeepsEnqueuing(s: State, a: Action)
    requires JobsInv(s)
    ensures Enqueuing(PostStep(s, a))
  {
    hide WriteFile, SettleId, Held, Exclusive, OneJobPerReport;
  }

  lemma StepKeepsJobs(s: State, a: Action)
    requires JobsInv(s)
    ensures JobsInv(Step(s, a))
  {
    hide WorkerStep, GcStep, PostStep;
    if IsGcAction(a) {
      GcKeepsJobs(s, a);
    } else if IsPostAction(a) {
      PostKeepsRows(s, a);
      PostKeepsEnqueuing(s, a);
    } else {
      WorkerKeepsJobs(s, a);
    }
  }

  /** In every reachable state pending jobs have at most two attempts behind them, running ones one to
      three and failed ones exactly three; every job belongs to a report and no report has two; no
      two workers hold the same job. */
  lemma {:induction false} JobsSafe(run: seq<Action>)
    ensures JobsInv(Run(INIT, run))
  {
    hide Step;
    if run != [] {
      JobsSafe(run[..|run| - 1]);
      StepKeepsJobs(Run(INIT, run[..|run| - 1]), run[|run| - 1]);
    }
  }

  /** In numbers: at most two attempts lie behind a pending job, three at most behind any, and exactly three
      behind one that was given up. */
  lemma ThreeAttempts(run: seq<Action>, j: nat)
    requires j in Run(INIT, run).t.jobs
    ensures var job := Run(INIT, run).t.jobs[j];
      && job.attempts <= 3 && (job.state == Pending ==> job.attempts <= 2) && (job.state == GivenUp ==> job.attempts == 3)
      && (job.state == Running || job.state == Done ==> 1 <= job.attempts)
  {
    hide Run, OneJobPerReport, Held, Exclusive, Enqueuing;
    JobsSafe(run);
  }
}
