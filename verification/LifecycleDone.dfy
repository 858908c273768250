/** Which reports are in the group of the key of their stored text. */
module LifecycleDone {
  import opened Wrappers
  import Groups
  import Transparency
  import opened Lifecycle
  import opened LifecycleJobs
  import LifecycleRaw
  import LifecycleGroups

  /** The key of a decoded text. */
  function KeyOf(kind: Kind, text: string): string { Transparency.Classified(KindText(kind), text).input }

  /** The group of a text. */
  predicate InGroup(g: Groups.Table, kind: Kind, text: string, id: nat) {
    KeyOf(kind, text) in g && g[KeyOf(kind, text)].id == id
  }

  /** A report whose row names the group of its stored text. */
  predicate Matched(t: Tables, r: string) {
    && r in t.reports && r in t.decoded && t.reports[r].groupId.Some?
    && InGroup(t.groups, t.reports[r].kind, t.decoded[r], t.reports[r].groupId.value)
  }

  predicate Grouped(t: Tables, r: string) { r in t.reports && t.reports[r].groupId.Some? }

  predicate Stored(t: Tables, r: string, text: string) { r in t.decoded && t.decoded[r] == text }

  // ----- texts written after the group -----

  /** The reports whose text was written after their row was last marked as decoded, with the last text. */
  ghost function Tracked(rw: map<string, string>, s: State, a: Action): map<string, string> {
    match a
    case WriteDecoded(w, how) =>
      (match Pc(s, w)
       case Texted(job, _, _, text) => WriteFile(rw, job.report, text, how)
       case _ => rw)
    case MarkDecoded(w, ok) =>
      (match Pc(s, w)
       case Upserted(job, _, _) => if ok then rw - {job.report} else rw
       case _ => rw)
    case _ => rw
  }

  ghost function Rewritten(run: seq<Action>): map<string, string> {
    if run == [] then map[]
    else Tracked(Rewritten(run[..|run| - 1]), Run(INIT, run[..|run| - 1]), run[|run| - 1])
  }

  // ----- the invariant -----

  predicate ReportOk(t: Tables, rw: map<string, string>, r: string) {
    if r in rw then Stored(t, r, rw[r]) else Grouped(t, r) ==> Matched(t, r)
  }

  predicate Settled(t: Tables, rw: map<string, string>, r: string) { Grouped(t, r) && r !in rw }

  /** What a worker knows about its report. */
  predicate WorkerOk(t: Tables, rw: map<string, string>, pc: Worker) {
    match pc
    case Written(job, _, _, text) => Stored(t, job.report, text)
    case Timed(job, _, _, text, _) => Stored(t, job.report, text)
    case Upserted(job, id, _) =>
      job.report in t.reports && job.report in t.decoded && InGroup(t.groups, t.reports[job.report].kind, t.decoded[job.report], id)
    case Marked(job) => Settled(t, rw, job.report)
    case Finishing(job) => Settled(t, rw, job.report)
    case _ => true
  }

  ghost predicate DoneInv(s: State, rw: map<string, string>) {
    && (forall r :: ReportOk(s.t, rw, r))
    && (forall w :: w in s.workers ==> WorkerOk(s.t, rw, s.workers[w]))
    && forall j :: j in s.t.jobs && s.t.jobs[j].state == Done ==> Settled(s.t, rw, s.t.jobs[j].report)
  }

  // ----- what a step leaves alone -----

  /** Nothing changes about a report, its text and what is tracked of it. */
  predicate SameReport(t: Tables, rw: map<string, string>, t': Tables, rw': map<string, string>, r: string) {
    && (r in t.reports ==> r in t'.reports && t'.reports[r].groupId == t.reports[r].groupId && t'.reports[r].kind == t.reports[r].kind)
    && (r in t'.reports && r !in t.reports ==> t'.reports[r].groupId == None)
    && (r in t.decoded ==> r in t'.decoded && t'.decoded[r] == t.decoded[r])
    && (r in rw <==> r in rw') && (r in rw ==> rw'[r] == rw[r])
  }

  ghost predicate GroupsStay(g: Groups.Table, g': Groups.Table) {
    forall sig :: sig in g ==> sig in g' && g'[sig].id == g[sig].id
  }

  lemma StaysOk(t: Tables, rw: map<string, string>, t': Tables, rw': map<string, string>, r: string)
    requires SameReport(t, rw, t', rw', r) && GroupsStay(t.groups, t'.groups)
    ensures ReportOk(t, rw, r) ==> ReportOk(t', rw', r)
    ensures Settled(t, rw, r) ==> Settled(t', rw', r)
    ensures forall pc: Worker :: !pc.Idle? && pc.job.report == r && WorkerOk(t, rw, pc) ==> WorkerOk(t', rw', pc)
  {
    hide KeyOf;
  }

  /** A step about the reports in `own`: the others stay, and so do the workers and finished jobs of others. */
  ghost predicate Frame(s: State, rw: map<string, string>, s': State, rw': map<string, string>, own: set<string>) {
    && GroupsStay(s.t.groups, s'.t.groups)
    && (forall r :: r !in own ==> SameReport(s.t, rw, s'.t, rw', r))
    && (forall r :: r in own ==> ReportOk(s'.t, rw', r))
    && (forall w :: w in s'.workers ==>
          || WorkerOk(s'.t, rw', s'.workers[w])
          || (w in s.workers && s'.workers[w] == s.workers[w] && !s.workers[w].Idle? && s.workers[w].job.report !in own))
    && forall j :: j in s'.t.jobs && s'.t.jobs[j].state == Done ==>
         || Settled(s'.t, rw', s'.t.jobs[j].report)
         || (j in s.t.jobs && s.t.jobs[j] == s'.t.jobs[j] && s.t.jobs[j].report !in own)
  }

  lemma FrameKeeps(s: State, rw: map<string, string>, s': State, rw': map<string, string>, own: set<string>)
    requires DoneInv(s, rw) && Frame(s, rw, s', rw', own)
    ensures DoneInv(s', rw')
  {
    hide ReportOk, Settled, WorkerOk, SameReport, GroupsStay;
    forall r ensures ReportOk(s'.t, rw', r) {
      if r !in own { StaysOk(s.t, rw, s'.t, rw', r); }
    }
    forall w | w in s'.workers ensures WorkerOk(s'.t, rw', s'.workers[w]) {
      if !WorkerOk(s'.t, rw', s'.workers[w]) { StaysOk(s.t, rw, s'.t, rw', s.workers[w].job.report); }
    }
    forall j | j in s'.t.jobs && s'.t.jobs[j].state == Done ensures Settled(s'.t, rw', s'.t.jobs[j].report) {
      if !Settled(s'.t, rw', s'.t.jobs[j].report) { StaysOk(s.t, rw, s'.t, rw', s.t.jobs[j].report); }
    }
  }

  /** The report of a busy worker is no other worker's and has no finished job. */
  ghost predicate Sole(s: State, w: nat) {
    && w in s.workers && !s.workers[w].Idle?
    && (forall v :: v in s.workers && v != w && !s.workers[v].Idle? ==> s.workers[v].job.report != s.workers[w].job.report)
    && forall j :: j in s.t.jobs && s.t.jobs[j].state == Done ==> s.t.jobs[j].report != s.workers[w].job.report
  }

  lemma BusySole(s: State, w: nat)
    requires JobsInv(s) && !Pc(s, w).Idle?
    ensures Sole(s, w)
  {
    LifecycleRaw.Alone(s, w);
    assert HoldsJob(s.t, s.workers[w]);
    hide JobRows, Held, Exclusive, Enqueuing;
  }

  /** A step of a worker about its own report that leaves the job rows alone. */
  lemma OwnKeeps(s: State, rw: map<string, string>, w: nat, s': State, rw': map<string, string>)
    requires DoneInv(s, rw) && Sole(s, w) && GroupsStay(s.t.groups, s'.t.groups)
    requires w in s'.workers && s'.workers == s.workers[w := s'.workers[w]] && s'.t.jobs == s.t.jobs
    requires forall r :: r != s.workers[w].job.report ==> SameReport(s.t, rw, s'.t, rw', r)
    requires ReportOk(s'.t, rw', s.workers[w].job.report) && WorkerOk(s'.t, rw', s'.workers[w])
    ensures DoneInv(s', rw')
  {
    hide ReportOk, SameReport, GroupsStay, Settled;
    FrameKeeps(s, rw, s', rw', {s.workers[w].job.report});
  }

  /** A worker moves on and touches neither reports nor texts nor groups. */
  lemma QuietKeeps(s: State, rw: map<string, string>, w: nat, s': State)
    requires DoneInv(s, rw)
    requires s'.t.reports == s.t.reports && s'.t.decoded == s.t.decoded && s'.t.groups == s.t.groups
    requires w in s'.workers && s'.workers == s.workers[w := s'.workers[w]] && WorkerOk(s.t, rw, s'.workers[w])
    requires forall j :: j in s'.t.jobs && s'.t.jobs[j].state == Done ==>
      (j in s.t.jobs && s.t.jobs[j] == s'.t.jobs[j]) || Settled(s.t, rw, s'.t.jobs[j].report)
    ensures DoneInv(s', rw)
  {
    hide KeyOf;
    FrameKeeps(s, rw, s', rw, {});
  }

  // ----- every step -----

  lemma WorkerIsOk(s: State, rw: map<string, string>, w: nat)
    requires DoneInv(s, rw)
    ensures WorkerOk(s.t, rw, Pc(s, w))
  {
    hide ReportOk, Settled;
  }

  /** What every worker may become. */
  lemma Harmless(s: State, rw: map<string, string>, job: JobRef, kind: Kind, version: string, text: string)
    ensures WorkerOk(s.t, rw, Idle) && WorkerOk(s.t, rw, Failing(job)) && WorkerOk(s.t, rw, FailingReport(job))
    ensures WorkerOk(s.t, rw, Claimed(job)) && WorkerOk(s.t, rw, Loaded(job, kind, version))
    ensures WorkerOk(s.t, rw, Texted(job, kind, version, text))
  {
  }

  /** What a worker knows, it goes on knowing. */
  lemma GoesOn(s: State, rw: map<string, string>, w: nat, at: int)
    requires WorkerOk(s.t, rw, Pc(s, w))
    ensures Pc(s, w).Written? ==> WorkerOk(s.t, rw, Timed(Pc(s, w).job, Pc(s, w).kind, Pc(s, w).version, Pc(s, w).text, at))
    ensures Pc(s, w).Marked? ==> WorkerOk(s.t, rw, Finishing(Pc(s, w).job))
    ensures Pc(s, w).Finishing? ==> Settled(s.t, rw, Pc(s, w).job.report)
  {
    hide Settled;
  }

  lemma ReadSteps(s: State, rw: map<string, string>, w: nat, ok: bool, text: Option<string>)
    requires DoneInv(s, rw)
    ensures DoneInv(LoadStep(s, w, ok), rw) && DoneInv(ReadStep(s, w, ok, text), rw)
  {
    hide DoneInv, WorkerOk, Settled;
    var pc := Pc(s, w);
    if !pc.Idle? { Harmless(s, rw, pc.job, KernelOops, "", ""); }
    if pc.Claimed? {
      if pc.job.report in s.t.reports { Harmless(s, rw, pc.job, s.t.reports[pc.job.report].kind, s.t.reports[pc.job.report].version, ""); }
      QuietKeeps(s, rw, w, LoadStep(s, w, ok));
    }
    if pc.Loaded? {
      if text.Some? { Harmless(s, rw, pc.job, pc.kind, pc.version, text.value); }
      QuietKeeps(s, rw, w, ReadStep(s, w, ok, text));
    }
  }

  lemma DieKeeps(s: State, rw: map<string, string>, w: nat)
    requires DoneInv(s, rw)
    ensures DoneInv(DieStep(s, w), rw)
  {
    hide DoneInv;
    QuietKeeps(s, rw, w, DieStep(s, w));
  }

  lemma KnowingSteps(s: State, rw: map<string, string>, w: nat, ok: bool, at: int)
    requires DoneInv(s, rw)
    ensures DoneInv(ClockStep(s, w, at), rw) && DoneInv(RemoveStep(s, w, ok), rw)
  {
    hide DoneInv, WorkerOk, Settled;
    WorkerIsOk(s, rw, w);
    GoesOn(s, rw, w, at);
    var pc := Pc(s, w);
    if !pc.Idle? { Harmless(s, rw, pc.job, KernelOops, "", ""); }
    if pc.Written? { QuietKeeps(s, rw, w, ClockStep(s, w, at)); }
    if pc.Marked? { QuietKeeps(s, rw, w, RemoveStep(s, w, ok)); }
  }

  lemma ClaimKeeps(s: State, rw: map<string, string>, w: nat)
    requires DoneInv(s, rw)
    ensures DoneInv(ClaimStep(s, w), rw)
  {
    hide DoneInv, WorkerOk, Settled;
    var s' := ClaimStep(s, w);
    if s' != s {
      Harmless(s, rw, s'.workers[w].job, KernelOops, "", "");
      QuietKeeps(s, rw, w, s');
    }
  }

  lemma EndKeeps(s: State, rw: map<string, string>, w: nat, ok: bool)
    requires JobsInv(s) && DoneInv(s, rw)
    ensures DoneInv(FinishStep(s, w, ok), rw) && DoneInv(FailJobStep(s, w, ok), rw)
  {
    hide JobsInv, DoneInv, WorkerOk, Settled;
    if w in s.workers { BusyHolds(s, w); }
    WorkerIsOk(s, rw, w);
    GoesOn(s, rw, w, 0);
    var pc := Pc(s, w);
    if !pc.Idle? { Harmless(s, rw, pc.job, KernelOops, "", ""); }
    if pc.Finishing? { QuietKeeps(s, rw, w, FinishStep(s, w, ok)); }
    if pc.Failing? { QuietKeeps(s, rw, w, FailJobStep(s, w, ok)); }
  }

  lemma WriteKeeps(s: State, rw: map<string, string>, w: nat, how: WriteResult)
    requires JobsInv(s) && DoneInv(s, rw)
    ensures DoneInv(WriteStep(s, w, how), Tracked(rw, s, WriteDecoded(w, how)))
  {
    hide JobsInv, KeyOf, DoneInv;
    if Pc(s, w).Texted? {
      BusySole(s, w);
      ReportIsOk(s, rw, s.workers[w].job.report);
      hide Sole, GroupsStay;
      assert GroupsStay(s.t.groups, s.t.groups) by { SameGroups(s.t.groups); }
      OwnKeeps(s, rw, w, WriteStep(s, w, how), Tracked(rw, s, WriteDecoded(w, how)));
    }
  }

  lemma SameGroups(g: Groups.Table)
    ensures GroupsStay(g, g)
  {
  }

  lemma ReportIsOk(s: State, rw: map<string, string>, r: string)
    requires DoneInv(s, rw)
    ensures ReportOk(s.t, rw, r)
  {
  }

  lemma UpsertGroupOf(g: Groups.Table, kind: Kind, version: string, text: string, at: int, newId: nat)
    ensures var e := EntryOf(kind, version, text, at, newId); var g' := Groups.Upsert(g, e);
      e.signature in g' && InGroup(g', kind, text, g'[e.signature].id) && GroupsStay(g, g')
  {
    hide Transparency.Classified;
  }

  /** The upsert writes the group of the text that the worker has stored. */
  lemma UpsertKeeps(s: State, rw: map<string, string>, w: nat, ok: bool, newId: nat)
    requires LifecycleGroups.GroupsInv(s) && DoneInv(s, rw)
    ensures DoneInv(UpsertStep(s, w, ok, newId), rw)
  {
    hide LifecycleGroups.GroupsInv, DoneInv, Groups.Upsert, Groups.CanUpsert, EntryOf, InGroup, GroupsStay, WorkerOk;
    if Pc(s, w).Timed? {
      var pc := s.workers[w];
      WorkerIsOk(s, rw, w);
      WorkerKind(s, w);
      var e := EntryOf(pc.kind, pc.version, pc.text, pc.at, newId);
      UpsertGroupOf(s.t.groups, pc.kind, pc.version, pc.text, pc.at, newId);
      if ok && Groups.CanUpsert(s.t.groups, e) {
        var g := Groups.Upsert(s.t.groups, e);
        GroupWritten(s, rw, w, g, g[e.signature].id, s.history + [e]);
      } else {
        Harmless(s, rw, pc.job, pc.kind, "", "");
        QuietKeeps(s, rw, w, UpsertStep(s, w, ok, newId));
      }
    }
  }

  lemma WorkerKind(s: State, w: nat)
    requires LifecycleGroups.GroupsInv(s) && Pc(s, w).Timed?
    ensures var pc := s.workers[w]; pc.job.report in s.t.reports && s.t.reports[pc.job.report].kind == pc.kind
  {
    assert LifecycleGroups.WorkerGrouped(s.t, s.workers[w]);
  }

  lemma GroupWritten(s: State, rw: map<string, string>, w: nat, g: Groups.Table, id: nat, h: seq<Groups.Entry>)
    requires DoneInv(s, rw) && Pc(s, w).Timed? && GroupsStay(s.t.groups, g)
    requires var pc := s.workers[w];
      && InGroup(g, pc.kind, pc.text, id) && WorkerOk(s.t, rw, pc)
      && pc.job.report in s.t.reports && s.t.reports[pc.job.report].kind == pc.kind
    ensures DoneInv(At(s, w, s.t.(groups := g), Upserted(s.workers[w].job, id, s.workers[w].at)).(history := h), rw)
  {
    hide DoneInv, ReportOk, Settled, InGroup, GroupsStay;
    GroupsKeep(s, rw, w, At(s, w, s.t.(groups := g), Upserted(s.workers[w].job, id, s.workers[w].at)).(history := h));
  }

  lemma GroupsKeep(s: State, rw: map<string, string>, w: nat, s': State)
    requires DoneInv(s, rw) && GroupsStay(s.t.groups, s'.t.groups)
    requires s'.t.reports == s.t.reports && s'.t.decoded == s.t.decoded && s'.t.jobs == s.t.jobs
    requires w in s'.workers && s'.workers == s.workers[w := s'.workers[w]] && WorkerOk(s'.t, rw, s'.workers[w])
    ensures DoneInv(s', rw)
  {
    hide InGroup;
    FrameKeeps(s, rw, s', rw, {});
  }

  lemma MarkKeeps(s: State, rw: map<string, string>, w: nat, ok: bool)
    requires JobsInv(s) && DoneInv(s, rw)
    ensures DoneInv(MarkStep(s, w, ok), Tracked(rw, s, MarkDecoded(w, ok)))
  {
    hide JobsInv, KeyOf;
    if Pc(s, w).Upserted? {
      BusySole(s, w);
      assert WorkerOk(s.t, rw, s.workers[w]) && ReportOk(s.t, rw, s.workers[w].job.report);
      hide DoneInv, Sole;
      OwnKeeps(s, rw, w, MarkStep(s, w, ok), Tracked(rw, s, MarkDecoded(w, ok)));
    }
  }

  lemma FailReportKeeps(s: State, rw: map<string, string>, w: nat, ok: bool)
    requires DoneInv(s, rw)
    ensures DoneInv(FailReportStep(s, w, ok), rw)
  {
    hide KeyOf;
    var s' := FailReportStep(s, w, ok);
    if s' != s {
      FrameKeeps(s, rw, s', rw, {});
    }
  }

  /** No job becomes done. */
  ghost predicate DoneStays(s: State, s': State) {
    forall j :: j in s'.t.jobs && s'.t.jobs[j].state == Done ==> j in s.t.jobs && s.t.jobs[j] == s'.t.jobs[j]
  }

  /** GC tasks and posts. */
  lemma RowsKeep(s: State, rw: map<string, string>, s': State)
    requires DoneInv(s, rw) && LifecycleGroups.OnlyRows(s, s') && DoneStays(s, s')
    ensures DoneInv(s', rw)
  {
    hide KeyOf;
    FrameKeeps(s, rw, s', rw, {});
  }

  lemma OtherJobs(s: State, a: Action)
    ensures DoneStays(s, GcStep(s, a)) && DoneStays(s, PostStep(s, a))
  {
    hide Collectable, SettleId, WriteFile;
  }

  lemma OtherSteps(s: State, rw: map<string, string>, a: Action)
    requires DoneInv(s, rw)
    ensures DoneInv(GcStep(s, a), rw) && DoneInv(PostStep(s, a), rw)
  {
    hide DoneInv, GcStep, PostStep, LifecycleGroups.OnlyRows;
    OtherJobs(s, a);
    LifecycleGroups.GcOnlyRows(s, a);
    LifecycleGroups.PostOnlyRows(s, a);
    RowsKeep(s, rw, GcStep(s, a));
    RowsKeep(s, rw, PostStep(s, a));
  }

  lemma StepKeeps(s: State, rw: map<string, string>, a: Action)
    requires JobsInv(s) && LifecycleGroups.GroupsInv(s) && DoneInv(s, rw)
    ensures DoneInv(Step(s, a), Tracked(rw, s, a))
  {
    hide JobsInv, LifecycleGroups.GroupsInv, DoneInv, GcStep, PostStep, ClaimStep, LoadStep, ReadStep, WriteStep, ClockStep,
      UpsertStep, MarkStep, RemoveStep, FinishStep, FailJobStep, FailReportStep, DieStep;
    OtherSteps(s, rw, a);
    match a
    case Claim(w) => ClaimKeeps(s, rw, w);
    case Load(w, ok) => ReadSteps(s, rw, w, ok, None);
    case ReadRaw(w, ok, text) => ReadSteps(s, rw, w, ok, text);
    case WriteDecoded(w, how) => WriteKeeps(s, rw, w, how);
    case ReadClock(w, at) => KnowingSteps(s, rw, w, true, at);
    case UpsertGroup(w, ok, newId) => UpsertKeeps(s, rw, w, ok, newId);
    case MarkDecoded(w, ok) => MarkKeeps(s, rw, w, ok);
    case RemoveRaw(w, ok) => KnowingSteps(s, rw, w, ok, 0);
    case FinishJob(w, ok) => EndKeeps(s, rw, w, ok);
    case FailJob(w, ok) => EndKeeps(s, rw, w, ok);
    case FailReport(w, ok) => FailReportKeeps(s, rw, w, ok);
    case WorkerDies(w) => DieKeeps(s, rw, w);
    case _ =>
  }

  lemma {:induction false} DoneInvariant(run: seq<Action>)
    ensures DoneInv(Run(INIT, run), Rewritten(run))
  {
    hide Step, Tracked, JobsInv, LifecycleGroups.GroupsInv;
    if run != [] {
      var before := run[..|run| - 1];
      DoneInvariant(before);
      JobsSafe(before);
      LifecycleGroups.GroupsInvariant(before);
      StepKeeps(Run(INIT, before), Rewritten(before), run[|run| - 1]);
    }
  }

  // ----- after any run -----

  /** A report with a group is in the group of its stored text exactly if no text was written since the row
      was last marked, or the last one written since has the key of that group. */
  lemma InItsGroupIff(run: seq<Action>, r: string)
    requires Grouped(Run(INIT, run).t, r)
    ensures var t, rw := Run(INIT, run).t, Rewritten(run);
      Matched(t, r) <==> (r in rw ==> InGroup(t.groups, t.reports[r].kind, rw[r], t.reports[r].groupId.value))
  {
    hide Run, Rewritten, InGroup;
    DoneInvariant(run);
    ReportIsOk(Run(INIT, run), Rewritten(run), r);
  }

  /** The report of a finished job is always in its group. */
  lemma DoneIsInItsGroup(run: seq<Action>, j: nat)
    requires var t := Run(INIT, run).t; j in t.jobs && t.jobs[j].state == Done
    ensures var t := Run(INIT, run).t; t.jobs[j].report !in Rewritten(run) && Matched(t, t.jobs[j].report)
  {
    hide Run, Rewritten, Matched;
    DoneInvariant(run);
    ReportIsOk(Run(INIT, run), Rewritten(run), Run(INIT, run).t.jobs[j].report);
  }

  /** Two reports with groups and no later text, such as those of finished jobs, are in the same group exactly
      if the keys of their stored texts are equal. */
  lemma SameGroupIffSameKey(run: seq<Action>, q: string, r: string)
    requires var t := Run(INIT, run).t; Grouped(t, q) && Grouped(t, r) && q !in Rewritten(run) && r !in Rewritten(run)
    ensures var t := Run(INIT, run).t;
      && q in t.decoded && r in t.decoded
      && (t.reports[q].groupId == t.reports[r].groupId <==>
          KeyOf(t.reports[q].kind, t.decoded[q]) == KeyOf(t.reports[r].kind, t.decoded[r]))
  {
    hide Run, Rewritten, KeyOf;
    InItsGroupIff(run, q);
    InItsGroupIff(run, r);
    IdsStayDistinct(run);
  }

  lemma IdsStayDistinct(run: seq<Action>)
    ensures LifecycleGroups.IdsDistinct(Run(INIT, run).t.groups)
  {
    hide Run, LifecycleGroups.IdsDistinct;
    LifecycleGroups.GroupsInvariant(run);
  }
}
