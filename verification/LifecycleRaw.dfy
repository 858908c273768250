/** Raw payloads: never deleted before they are used for the last time. */
module LifecycleRaw {
  import opened Wrappers
  import Groups
  import opened Lifecycle
  import opened LifecycleJobs

  /** A worker that may still read the raw file, now or in a later attempt. */
  predicate NeedsRaw(pc: Worker) { !pc.Idle? && !pc.Finishing? && !pc.FailingReport? }

  ghost predicate PendingHasRaw(t: Tables) {
    forall j :: j in t.jobs && t.jobs[j].state == Pending ==> t.jobs[j].report in t.raw
  }

  ghost predicate BusyHasRaw(s: State) {
    forall w :: w in s.workers && NeedsRaw(s.workers[w]) ==> s.workers[w].job.report in s.t.raw
  }

  ghost predicate ReceivedHasRaw(t: Tables) {
    forall r :: r in t.reports && t.reports[r].state == Received ==> r in t.raw
  }

  /** A failed report is done with: nothing will decode it again. */
  ghost predicate FailedIsOver(s: State) {
    && (forall j :: j in s.t.jobs && s.t.jobs[j].state == Pending ==> NotFailed(s.t, s.t.jobs[j].report))
    && forall w :: w in s.workers && !s.workers[w].Idle? && !s.workers[w].FailingReport? ==>
         NotFailed(s.t, s.workers[w].job.report)
  }

  predicate NotFailed(t: Tables, r: string) { r in t.reports ==> t.reports[r].state != Failed }

  ghost predicate GcSelectsFailed(s: State) {
    forall g, r :: g in s.gcs && r in s.gcs[g].queue ==> r in s.t.reports && s.t.reports[r].state == Failed
  }

  ghost predicate PostedRaw(s: State) {
    forall p :: p in s.posts && s.posts[p].RawWritten? ==> s.posts[p].id in s.t.reports || s.posts[p].id in s.t.raw
  }

  ghost predicate MarkedIsDecoded(s: State) {
    forall w :: w in s.workers && (s.workers[w].Marked? || s.workers[w].Finishing?) ==>
      s.workers[w].job.report in s.t.reports && s.t.reports[s.workers[w].job.report].state == Decoded
  }

  /** Which raw files are there. */
  ghost predicate RawFiles(s: State) {
    PendingHasRaw(s.t) && BusyHasRaw(s) && ReceivedHasRaw(s.t) && PostedRaw(s)
  }

  /** Why those that are not there are not needed. */
  ghost predicate RawStates(s: State) { FailedIsOver(s) && GcSelectsFailed(s) && MarkedIsDecoded(s) }

  ghost predicate RawInv(s: State) { RawFiles(s) && RawStates(s) }

  /** Nobody else is concerned with the report of a busy worker. */
  lemma Alone(s: State, w: nat)
    requires JobsInv(s) && w in s.workers && !s.workers[w].Idle?
    ensures var job := s.workers[w].job;
      && job.report in s.t.reports
      && (forall v :: v in s.workers && v != w && !s.workers[v].Idle? ==> s.workers[v].job.report != job.report)
      && (forall j :: j in s.t.jobs && s.t.jobs[j].state == Pending ==> s.t.jobs[j].report != job.report)
      && (forall p :: p in s.posts && s.posts[p].RowInserted? ==> s.posts[p].id != job.report)
  {
    var job := s.workers[w].job;
    assert HoldsJob(s.t, s.workers[w]);
    forall v | v in s.workers && v != w && !s.workers[v].Idle? ensures s.workers[v].job.report != job.report {
      assert HoldsJob(s.t, s.workers[v]);
    }
  }

  // ----- kept by every step -----

  lemma ClaimKeepsRaw(s: State, w: nat)
    requires JobsInv(s) && RawInv(s)
    ensures RawInv(ClaimStep(s, w))
  {
    hide OneJobPerReport, Held, Exclusive, Enqueuing;
  }

  /** A worker moves on without touching rows or raw files. */
  lemma MoveKeepsRaw(s: State, w: nat, s': State)
    requires RawInv(s) && w in s'.workers && s'.workers == s.workers[w := s'.workers[w]]
    requires s'.posts == s.posts && s'.gcs == s.gcs
    requires s'.t.jobs == s.t.jobs && s'.t.reports == s.t.reports && s'.t.raw == s.t.raw
    requires var pc := s'.workers[w]; !pc.Idle? ==>
      NeedsRaw(Pc(s, w)) && pc.job == Pc(s, w).job && !pc.Marked? && !pc.Finishing?
    ensures RawInv(s')
  {
  }

  lemma ReadingKeepsRaw(s: State, w: nat, ok: bool, text: Option<string>, how: WriteResult)
    requires RawInv(s)
    ensures RawInv(LoadStep(s, w, ok)) && RawInv(ReadStep(s, w, ok, text)) && RawInv(WriteStep(s, w, how))
  {
    hide RawInv, WriteFile;
    if Pc(s, w).Claimed? { MoveKeepsRaw(s, w, LoadStep(s, w, ok)); }
    if Pc(s, w).Loaded? { MoveKeepsRaw(s, w, ReadStep(s, w, ok, text)); }
    if Pc(s, w).Texted? { MoveKeepsRaw(s, w, WriteStep(s, w, how)); }
  }

  lemma UpsertKeepsRaw(s: State, w: nat, ok: bool, at: int, newId: nat)
    requires RawInv(s)
    ensures RawInv(ClockStep(s, w, at)) && RawInv(UpsertStep(s, w, ok, newId)) && RawInv(DieStep(s, w))
  {
    hide RawInv, Groups.CanUpsert, Groups.Upsert, EntryOf;
    if Pc(s, w).Written? { MoveKeepsRaw(s, w, ClockStep(s, w, at)); }
    if Pc(s, w).Timed? { MoveKeepsRaw(s, w, UpsertStep(s, w, ok, newId)); }
    MoveKeepsRaw(s, w, DieStep(s, w));
  }

  lemma MarkKeepsRaw(s: State, w: nat, ok: bool)
    requires JobsInv(s) && RawInv(s)
    ensures RawInv(MarkStep(s, w, ok))
  {
    if w in s.workers && s.workers[w].Upserted? {
      Alone(s, w);
      hide JobsInv;
      MarkKeepsFiles(s, w, ok);
      MarkKeepsStates(s, w, ok);
    }
  }

  lemma MarkKeepsFiles(s: State, w: nat, ok: bool)
    requires RawFiles(s)
    ensures RawFiles(MarkStep(s, w, ok))
  {
  }

  lemma MarkKeepsStates(s: State, w: nat, ok: bool)
    requires RawStates(s) && w in s.workers && s.workers[w].Upserted? && s.workers[w].job.report in s.t.reports
    ensures RawStates(MarkStep(s, w, ok))
  {
    assert NotFailed(s.t, s.workers[w].job.report);
    MarkKeepsOver(s, w, ok);
    MarkKeepsMarked(s, w, ok);
  }

  lemma MarkKeepsOver(s: State, w: nat, ok: bool)
    requires FailedIsOver(s)
    ensures FailedIsOver(MarkStep(s, w, ok))
  {
  }

  lemma MarkKeepsMarked(s: State, w: nat, ok: bool)
    requires MarkedIsDecoded(s) && w in s.workers && s.workers[w].Upserted? && s.workers[w].job.report in s.t.reports
    ensures MarkedIsDecoded(MarkStep(s, w, ok))
  {
  }

  /** The deletion: the job is this worker's alone and the report is already decoded. */
  lemma RemoveKeepsRaw(s: State, w: nat, ok: bool)
    requires JobsInv(s) && RawInv(s)
    ensures RawInv(RemoveStep(s, w, ok))
  {
    if w in s.workers && s.workers[w].Marked? {
      Alone(s, w);
      hide JobsInv, RawFiles, RawStates, RemoveStep;
      RemoveKeepsFiles(s, w, ok);
      RemoveKeepsStates(s, w, ok);
    }
  }

  lemma RemoveKeepsFiles(s: State, w: nat, ok: bool)
    requires RawInv(s) && w in s.workers && s.workers[w].Marked?
    requires var r := s.workers[w].job.report;
      && (forall v :: v in s.workers && v != w && !s.workers[v].Idle? ==> s.workers[v].job.report != r)
      && (forall j :: j in s.t.jobs && s.t.jobs[j].state == Pending ==> s.t.jobs[j].report != r)
    ensures RawFiles(RemoveStep(s, w, ok))
  {
    hide FailedIsOver, GcSelectsFailed;
  }

  lemma RemoveKeepsStates(s: State, w: nat, ok: bool)
    requires RawStates(s)
    ensures RawStates(RemoveStep(s, w, ok))
  {
  }

  lemma FinishKeepsRaw(s: State, w: nat, ok: bool)
    requires RawInv(s)
    ensures RawInv(FinishStep(s, w, ok))
  {
  }

  lemma FailJobKeepsRaw(s: State, w: nat, ok: bool)
    requires JobsInv(s) && RawInv(s)
    ensures RawInv(FailJobStep(s, w, ok))
  {
    if w in s.workers && s.workers[w].Failing? {
      assert HoldsJob(s.t, s.workers[w]);
      hide JobsInv, RawFiles, RawStates, FailJobStep;
      FailJobKeepsFiles(s, w, ok);
      FailJobKeepsStates(s, w, ok);
    }
  }

  lemma FailJobKeepsFiles(s: State, w: nat, ok: bool)
    requires RawFiles(s) && w in s.workers && s.workers[w].Failing? && HoldsJob(s.t, s.workers[w])
    ensures RawFiles(FailJobStep(s, w, ok))
  {
  }

  lemma FailJobKeepsStates(s: State, w: nat, ok: bool)
    requires RawStates(s) && w in s.workers && s.workers[w].Failing? && HoldsJob(s.t, s.workers[w])
    ensures RawStates(FailJobStep(s, w, ok))
  {
  }

  lemma FailReportKeepsRaw(s: State, w: nat, ok: bool)
    requires JobsInv(s) && RawInv(s)
    ensures RawInv(FailReportStep(s, w, ok))
  {
    if w in s.workers && s.workers[w].FailingReport? {
      FailReportKeepsFiles(s, w, ok);
      FailReportKeepsStates(s, w, ok);
    }
  }

  lemma FailReportKeepsFiles(s: State, w: nat, ok: bool)
    requires RawFiles(s)
    ensures RawFiles(FailReportStep(s, w, ok))
  {
  }

  lemma FailReportKeepsStates(s: State, w: nat, ok: bool)
    requires JobsInv(s) && RawStates(s) && w in s.workers && s.workers[w].FailingReport?
    ensures RawStates(FailReportStep(s, w, ok))
  {
    Alone(s, w);
    hide JobsInv, FailReportStep;
    FailReportKeepsOver(s, w, ok);
    FailReportKeepsMarked(s, w, ok);
  }

  lemma FailReportKeepsOver(s: State, w: nat, ok: bool)
    requires FailedIsOver(s) && GcSelectsFailed(s) && w in s.workers && s.workers[w].FailingReport?
    requires var r := s.workers[w].job.report;
      && (forall v :: v in s.workers && v != w && !s.workers[v].Idle? ==> s.workers[v].job.report != r)
      && (forall j :: j in s.t.jobs && s.t.jobs[j].state == Pending ==> s.t.jobs[j].report != r)
    ensures FailedIsOver(FailReportStep(s, w, ok)) && GcSelectsFailed(FailReportStep(s, w, ok))
  {
  }

  lemma FailReportKeepsMarked(s: State, w: nat, ok: bool)
    requires MarkedIsDecoded(s) && w in s.workers && s.workers[w].FailingReport?
    requires forall v :: v in s.workers && v != w && !s.workers[v].Idle? ==>
      s.workers[v].job.report != s.workers[w].job.report
    ensures MarkedIsDecoded(FailReportStep(s, w, ok))
  {
  }

  lemma WorkerKeepsRaw(s: State, a: Action)
    requires JobsInv(s) && RawInv(s)
    ensures RawInv(WorkerStep(s, a))
  {
    hide JobsInv, RawInv, ClaimStep, LoadStep, ReadStep, WriteStep, ClockStep, UpsertStep, MarkStep, RemoveStep, FinishStep,
      FailJobStep, FailReportStep, DieStep;
    match a
    case Claim(w) => ClaimKeepsRaw(s, w);
    case Load(w, ok) => ReadingKeepsRaw(s, w, ok, None, Untouched);
    case ReadRaw(w, ok, text) => ReadingKeepsRaw(s, w, ok, text, Untouched);
    case WriteDecoded(w, how) => ReadingKeepsRaw(s, w, true, None, how);
    case ReadClock(w, at) => UpsertKeepsRaw(s, w, true, at, 0);
    case UpsertGroup(w, ok, newId) => UpsertKeepsRaw(s, w, ok, 0, newId);
    case MarkDecoded(w, ok) => MarkKeepsRaw(s, w, ok);
    case RemoveRaw(w, ok) => RemoveKeepsRaw(s, w, ok);
    case FinishJob(w, ok) => FinishKeepsRaw(s, w, ok);
    case FailJob(w, ok) => FailJobKeepsRaw(s, w, ok);
    case FailReport(w, ok) => FailReportKeepsRaw(s, w, ok);
    case WorkerDies(w) => UpsertKeepsRaw(s, w, true, 0, 0);
    case _ =>
  }

  lemma GcRemoveKeepsRaw(s: State, g: nat, ok: bool)
    requires RawInv(s)
    ensures RawInv(GcStep(s, GcRemove(g, ok)))
  {
  }

  lemma GcKeepsRaw(s: State, a: Action)
    requires RawInv(s) && !a.GcRemove?
    ensures RawFiles(GcStep(s, a)) && RawStates(GcStep(s, a))
  {
  }

  lemma PostKeepsFiles(s: State, a: Action)
    requires Enqueuing(s) && RawFiles(s)
    ensures RawFiles(PostStep(s, a))
  {
    hide SettleId;
  }

  lemma PostKeepsStates(s: State, a: Action)
    requires Enqueuing(s) && RawStates(s)
    ensures RawStates(PostStep(s, a))
  {
    hide SettleId, WriteFile;
  }

  lemma Both(s: State)
    requires RawFiles(s) && RawStates(s)
    ensures RawInv(s)
  {
  }

  lemma Parts(s: State)
    requires JobsInv(s) && RawInv(s)
    ensures Enqueuing(s) && RawFiles(s) && RawStates(s)
  {
  }

  lemma StepKeepsRaw(s: State, a: Action)
    requires JobsInv(s) && RawInv(s)
    ensures RawInv(Step(s, a))
  {
    hide JobsInv, RawInv, WorkerStep, GcStep, PostStep;
    if a.GcRemove? {
      GcRemoveKeepsRaw(s, a.g, a.ok);
    } else if IsGcAction(a) {
      GcKeepsRaw(s, a);
      Both(GcStep(s, a));
    } else if IsPostAction(a) {
      Parts(s);
      PostKeepsFiles(s, a);
      PostKeepsStates(s, a);
      Both(PostStep(s, a));
    } else {
      WorkerKeepsRaw(s, a);
    }
  }

  lemma {:induction false} RawInvariant(run: seq<Action>)
    ensures RawInv(Run(INIT, run))
  {
    hide Step, JobsInv;
    if run != [] {
      RawInvariant(run[..|run| - 1]);
      JobsSafe(run[..|run| - 1]);
      StepKeepsRaw(Run(INIT, run[..|run| - 1]), run[|run| - 1]);
    }
  }

  /** After any run, whatever failed or died: a worker about to read a raw file finds it, every pending
      job still has its raw file, and a report without one is decoded or failed. */
  lemma RawPayloadsSafe(run: seq<Action>)
    ensures var s := Run(INIT, run);
      && (forall w :: w in s.workers && s.workers[w].Loaded? ==> s.workers[w].job.report in s.t.raw)
      && (forall j :: j in s.t.jobs && s.t.jobs[j].state == Pending ==> s.t.jobs[j].report in s.t.raw)
      && (forall r :: r in s.t.reports && r !in s.t.raw ==>
            s.t.reports[r].state == Decoded || s.t.reports[r].state == Failed)
  {
    hide Run;
    RawInvariant(run);
  }
}
