/** Given-up jobs and failed reports. */
module LifecycleFailed {
  import opened Wrappers
  import Groups
  import opened Lifecycle
  import opened LifecycleJobs

  predicate Marking(pc: Worker, j: nat) { pc.FailingReport? && pc.job.id == j }

  predicate IsGivenUp(t: Tables, j: nat) { j in t.jobs && t.jobs[j].state == GivenUp && t.jobs[j].report in t.reports }

  predicate ReportFailed(t: Tables, j: nat)
    requires IsGivenUp(t, j)
  {
    t.reports[t.jobs[j].report].state == Failed
  }

  /** A job was given up, and its report is not failed, nor is any worker about to mark it so. */
  ghost predicate Unmarked(s: State, j: nat) {
    IsGivenUp(s.t, j) && !ReportFailed(s.t, j) && forall w :: w in s.workers ==> !Marking(s.workers[w], j)
  }

  /** The worker that gave the job up dies before it marks the report, or its UPDATE fails. */
  ghost predicate LosesMark(s: State, a: Action, j: nat) {
    && IsGivenUp(s.t, j) && !ReportFailed(s.t, j)
    && exists w :: w in s.workers && Marking(s.workers[w], j) && (a == WorkerDies(w) || a == FailReport(w, false))
  }

  /** Nothing changes about this job as far as it matters here. */
  ghost predicate Beside(s: State, s': State, j: nat) {
    && (IsGivenUp(s.t, j) <==> IsGivenUp(s'.t, j))
    && (IsGivenUp(s.t, j) ==> (ReportFailed(s.t, j) <==> ReportFailed(s'.t, j)))
    && (forall w :: w in s.workers && Marking(s.workers[w], j) ==> w in s'.workers && Marking(s'.workers[w], j))
    && forall w :: w in s'.workers && Marking(s'.workers[w], j) ==> w in s.workers && Marking(s.workers[w], j)
  }

  lemma BesideSame(s: State, s': State, j: nat)
    requires Beside(s, s', j)
    ensures Unmarked(s', j) <==> Unmarked(s, j)
  {
    hide IsGivenUp;
  }

  /** A worker that is not marking moves on, without touching the rows. */
  lemma QuietBeside(s: State, w: nat, s': State, j: nat)
    requires s'.t.reports == s.t.reports && s'.t.jobs == s.t.jobs
    requires w in s'.workers && s'.workers == s.workers[w := s'.workers[w]]
    requires !Pc(s, w).FailingReport? && !s'.workers[w].FailingReport?
    ensures Beside(s, s', j)
  {
  }

  lemma ReadBeside(s: State, w: nat, ok: bool, text: Option<string>, how: WriteResult, at: int, j: nat)
    ensures Beside(s, LoadStep(s, w, ok), j) && Beside(s, ReadStep(s, w, ok, text), j) && Beside(s, WriteStep(s, w, how), j)
    ensures Beside(s, ClockStep(s, w, at), j) && Beside(s, RemoveStep(s, w, ok), j)
  {
    hide Beside, WriteFile;
    SelfBeside(s, j);
    if Pc(s, w).Claimed? { QuietBeside(s, w, LoadStep(s, w, ok), j); }
    if Pc(s, w).Loaded? { QuietBeside(s, w, ReadStep(s, w, ok, text), j); }
    if Pc(s, w).Texted? { QuietBeside(s, w, WriteStep(s, w, how), j); }
    if Pc(s, w).Written? { QuietBeside(s, w, ClockStep(s, w, at), j); }
    if Pc(s, w).Marked? { QuietBeside(s, w, RemoveStep(s, w, ok), j); }
  }

  lemma SelfBeside(s: State, j: nat)
    ensures Beside(s, s, j)
  {
  }

  lemma UpsertBeside(s: State, w: nat, ok: bool, newId: nat, j: nat)
    ensures Beside(s, UpsertStep(s, w, ok, newId), j)
  {
    hide Beside, EntryOf, Groups.CanUpsert, Groups.Upsert;
    SelfBeside(s, j);
    if Pc(s, w).Timed? { QuietBeside(s, w, UpsertStep(s, w, ok, newId), j); }
  }

  lemma ClaimBeside(s: State, w: nat, j: nat)
    ensures Beside(s, ClaimStep(s, w), j)
  {
  }

  lemma MarkBeside(s: State, w: nat, ok: bool, j: nat)
    requires JobsInv(s)
    ensures Beside(s, MarkStep(s, w, ok), j)
  {
    hide JobRows, Held, Exclusive, Enqueuing;
    if w in s.workers { BusyHolds(s, w); }
  }

  lemma FinishBeside(s: State, w: nat, ok: bool, j: nat)
    requires JobsInv(s)
    ensures Beside(s, FinishStep(s, w, ok), j)
  {
    hide JobsInv;
    if w in s.workers { BusyHolds(s, w); }
  }

  lemma GcBeside(s: State, a: Action, j: nat)
    ensures Beside(s, GcStep(s, a), j)
  {
    hide Collectable;
  }

  lemma PostBeside(s: State, a: Action, j: nat)
    requires JobRows(s.t)
    ensures Beside(s, PostStep(s, a), j)
  {
    hide SettleId, WriteFile;
  }

  lemma GivesUpOwn(s: State, w: nat, ok: bool)
    requires w in s.workers && s.workers[w].Failing? && HoldsJob(s.t, s.workers[w])
    ensures var j := s.workers[w].job.id; !Unmarked(FailJobStep(s, w, ok), j) && !Unmarked(s, j)
  {
    var s', j := FailJobStep(s, w, ok), s.workers[w].job.id;
    assert !IsGivenUp(s.t, j);
    assert IsGivenUp(s'.t, j) ==> Marking(s'.workers[w], j);
  }

  lemma GivesUpOther(s: State, w: nat, ok: bool, j: nat)
    requires w in s.workers && s.workers[w].Failing? && j != s.workers[w].job.id
    ensures Beside(s, FailJobStep(s, w, ok), j)
  {
  }

  /** Giving up: the worker is marking from then on. */
  lemma GivingUp(s: State, w: nat, ok: bool, j: nat)
    requires JobsInv(s)
    ensures Unmarked(FailJobStep(s, w, ok), j) <==> Unmarked(s, j)
  {
    hide JobsInv, Beside, Unmarked, HoldsJob;
    if w in s.workers && s.workers[w].Failing? {
      BusyHolds(s, w);
      if j == s.workers[w].job.id {
        GivesUpOwn(s, w, ok);
      } else {
        GivesUpOther(s, w, ok, j);
        BesideSame(s, FailJobStep(s, w, ok), j);
      }
    }
  }

  lemma MarksOwn(s: State, w: nat, ok: bool)
    requires JobsInv(s) && w in s.workers && s.workers[w].FailingReport?
    ensures var j := s.workers[w].job.id; Unmarked(FailReportStep(s, w, ok), j) <==> LosesMark(s, FailReport(w, ok), j)
  {
    hide JobsInv;
    BusyHolds(s, w);
    OnlyMarker(s, w);
    var s', j := FailReportStep(s, w, ok), s.workers[w].job.id;
    assert Marking(s.workers[w], j);
  }

  lemma MarksOther(s: State, w: nat, ok: bool, j: nat)
    requires OneJobPerReport(s.t) && w in s.workers && s.workers[w].FailingReport? && HoldsJob(s.t, s.workers[w])
    requires j != s.workers[w].job.id
    ensures Beside(s, FailReportStep(s, w, ok), j) && !LosesMark(s, FailReport(w, ok), j)
  {
  }

  lemma NotMarking(s: State, w: nat, ok: bool, j: nat)
    requires !Pc(s, w).FailingReport?
    ensures FailReportStep(s, w, ok) == s && !LosesMark(s, FailReport(w, ok), j) && !LosesMark(s, WorkerDies(w), j)
  {
  }

  lemma Marks(s: State, w: nat, ok: bool, j: nat)
    requires JobsInv(s)
    ensures Unmarked(FailReportStep(s, w, ok), j) <==> Unmarked(s, j) || LosesMark(s, FailReport(w, ok), j)
  {
    hide Unmarked, LosesMark, Beside, JobRows, OneJobPerReport, Held, Exclusive, Enqueuing, HoldsJob, FailReportStep;
    if !Pc(s, w).FailingReport? {
      NotMarking(s, w, ok, j);
    } else if j == s.workers[w].job.id {
      MarksOwn(s, w, ok);
      StillMarking(s, w);
    } else {
      BusyHolds(s, w);
      MarksOther(s, w, ok, j);
      BesideSame(s, FailReportStep(s, w, ok), j);
    }
  }

  lemma StillMarking(s: State, w: nat)
    requires w in s.workers && s.workers[w].FailingReport?
    ensures !Unmarked(s, s.workers[w].job.id)
  {
    assert Marking(s.workers[w], s.workers[w].job.id);
  }

  lemma OnlyMarker(s: State, w: nat)
    requires JobsInv(s) && w in s.workers && s.workers[w].FailingReport?
    ensures forall v :: v in s.workers && v != w ==> !Marking(s.workers[v], s.workers[w].job.id)
  {
    hide JobRows, Held, Enqueuing;
  }

  lemma DiesOwn(s: State, w: nat)
    requires JobsInv(s) && w in s.workers && s.workers[w].FailingReport?
    ensures var j := s.workers[w].job.id; Unmarked(DieStep(s, w), j) <==> LosesMark(s, WorkerDies(w), j)
  {
    hide JobsInv;
    OnlyMarker(s, w);
    assert Marking(s.workers[w], s.workers[w].job.id);
  }

  lemma DiesOther(s: State, w: nat, j: nat)
    requires !Marking(Pc(s, w), j)
    ensures Beside(s, DieStep(s, w), j) && !LosesMark(s, WorkerDies(w), j)
  {
  }

  lemma Dies(s: State, w: nat, j: nat)
    requires JobsInv(s)
    ensures Unmarked(DieStep(s, w), j) <==> Unmarked(s, j) || LosesMark(s, WorkerDies(w), j)
  {
    hide Unmarked, LosesMark, Beside, JobsInv, DieStep;
    if Marking(Pc(s, w), j) {
      DiesOwn(s, w);
      StillMarking(s, w);
    } else {
      DiesOther(s, w, j);
      BesideSame(s, DieStep(s, w), j);
    }
  }

  lemma OthersLoseNothing(s: State, a: Action, j: nat)
    requires !a.FailReport? && !a.WorkerDies?
    ensures !LosesMark(s, a, j)
  {
  }

  lemma StepUnmarked(s: State, a: Action, j: nat)
    requires JobsInv(s)
    ensures Unmarked(Step(s, a), j) <==> Unmarked(s, j) || LosesMark(s, a, j)
  {
    hide JobsInv, Beside, Unmarked, LosesMark, GcStep, PostStep, ClaimStep, LoadStep, ReadStep, WriteStep, ClockStep,
      UpsertStep, MarkStep, RemoveStep, FinishStep, FailJobStep, FailReportStep, DieStep;
    if !a.FailReport? && !a.WorkerDies? { OthersLoseNothing(s, a, j); }
    match a
    case Claim(w) => ClaimBeside(s, w, j); BesideSame(s, ClaimStep(s, w), j);
    case Load(w, ok) => ReadBeside(s, w, ok, None, Untouched, 0, j); BesideSame(s, LoadStep(s, w, ok), j);
    case ReadRaw(w, ok, text) => ReadBeside(s, w, ok, text, Untouched, 0, j); BesideSame(s, ReadStep(s, w, ok, text), j);
    case WriteDecoded(w, how) => ReadBeside(s, w, true, None, how, 0, j); BesideSame(s, WriteStep(s, w, how), j);
    case ReadClock(w, at) => ReadBeside(s, w, true, None, Untouched, at, j); BesideSame(s, ClockStep(s, w, at), j);
    case UpsertGroup(w, ok, newId) => UpsertBeside(s, w, ok, newId, j); BesideSame(s, UpsertStep(s, w, ok, newId), j);
    case MarkDecoded(w, ok) => MarkBeside(s, w, ok, j); BesideSame(s, MarkStep(s, w, ok), j);
    case RemoveRaw(w, ok) => ReadBeside(s, w, ok, None, Untouched, 0, j); BesideSame(s, RemoveStep(s, w, ok), j);
    case FinishJob(w, ok) => FinishBeside(s, w, ok, j); BesideSame(s, FinishStep(s, w, ok), j);
    case FailJob(w, ok) => GivingUp(s, w, ok, j);
    case FailReport(w, ok) => Marks(s, w, ok, j);
    case WorkerDies(w) => Dies(s, w, j);
    case _ =>
      Rows(s);
      GcBeside(s, a, j);
      PostBeside(s, a, j);
      BesideSame(s, GcStep(s, a), j);
      BesideSame(s, PostStep(s, a), j);
  }

  lemma Rows(s: State)
    requires JobsInv(s)
    ensures JobRows(s.t)
  {
    hide JobRows, OneJobPerReport, Held, Exclusive, Enqueuing;
  }

  ghost predicate LostAt(run: seq<Action>, i: nat, j: nat)
    requires i < |run|
  {
    LosesMark(Run(INIT, run[..i]), run[i], j)
  }

  lemma LostIn(run: seq<Action>, j: nat)
    requires run != []
    ensures var n := |run| - 1;
      && (forall i :: 0 <= i < n ==> (LostAt(run, i, j) <==> LostAt(run[..n], i, j)))
      && (LostAt(run, n, j) <==> LosesMark(Run(INIT, run[..n]), run[n], j))
  {
    hide LosesMark, Run;
    var n := |run| - 1;
    forall i | 0 <= i < n ensures LostAt(run, i, j) <==> LostAt(run[..n], i, j) {
      assert run[..n][..i] == run[..i];
    }
  }

  /** After any run the report of a given-up job is failed, or its worker is just about to mark it, unless some
      action of the run lost the mark: exactly then it is not. */
  lemma {:induction false} UnmarkedIff(run: seq<Action>, j: nat)
    ensures Unmarked(Run(INIT, run), j) <==> exists i :: 0 <= i < |run| && LostAt(run, i, j)
  {
    hide Step, Unmarked, LosesMark, LostAt, JobsInv;
    if run == [] {
      NothingGivenUp(j);
    } else {
      var before := run[..|run| - 1];
      UnmarkedIff(before, j);
      JobsSafe(before);
      StepUnmarked(Run(INIT, before), run[|run| - 1], j);
      LostIn(run, j);
    }
  }

  lemma NothingGivenUp(j: nat)
    ensures !Unmarked(INIT, j)
  {
  }
}
