/** Decoded reports and their groups. */
module LifecycleGroups {
  import opened Wrappers
  import Signature
  import Groups
  import opened Lifecycle
  import opened LifecycleJobs

  ghost predicate HasGroup(g: Groups.Table, id: nat, kind: Kind) {
    exists sig :: sig in g && g[sig].id == id && g[sig].kind == KindText(kind)
  }

  predicate SameKind(a: Report, b: Report) { a.kind == b.kind && a.version == b.version }

  ghost predicate IdsDistinct(g: Groups.Table) {
    forall a, b :: a in g && b in g && g[a].id == g[b].id ==> a == b
  }

  /** The group table is the group-by of the upserts so far. */
  ghost predicate Replayed(s: State) {
    && s.t.groups == Groups.Replay(s.history)
    && forall i :: 0 <= i < |s.history| ==> Groups.Keyed(s.history[i])
  }

  ghost predicate ReportGrouped(t: Tables, r: string)
    requires r in t.reports
  {
    && (t.reports[r].state == Decoded ==> t.reports[r].groupId.Some?)
    && (t.reports[r].groupId.Some? ==> r in t.decoded && HasGroup(t.groups, t.reports[r].groupId.value, t.reports[r].kind))
  }

  ghost predicate WorkerGrouped(t: Tables, pc: Worker) {
    && (pc.Loaded? || pc.Texted? || pc.Written? || pc.Timed? ==>
          pc.job.report in t.reports && pc.kind == t.reports[pc.job.report].kind && pc.version == t.reports[pc.job.report].version)
    && (pc.Written? || pc.Timed? || pc.Upserted? ==> pc.job.report in t.decoded)
    && (pc.Upserted? ==>
          pc.job.report in t.reports && HasGroup(t.groups, pc.groupId, t.reports[pc.job.report].kind))
  }

  ghost predicate GroupsInv(s: State) {
    && Replayed(s) && IdsDistinct(s.t.groups)
    && (forall r :: r in s.t.reports ==> ReportGrouped(s.t, r))
    && forall w :: w in s.workers ==> WorkerGrouped(s.t, s.workers[w])
  }

  // ----- kept by every step -----

  lemma EntryIsKeyed(kind: Kind, version: string, text: string, at: int, newId: nat)
    ensures Groups.Keyed(EntryOf(kind, version, text, at, newId))
  {
    assert Signature.NoBar("kernel_oops") && Signature.NoBar("pstore");
    hide Signature.KeyText, Signature.KeyFrames;
  }

  lemma UpsertReplays(h: seq<Groups.Entry>, e: Groups.Entry)
    requires forall i :: 0 <= i < |h| ==> Groups.Keyed(h[i])
    requires Groups.Keyed(e)
    ensures Groups.Upsert(Groups.Replay(h), e) == Groups.Replay(h + [e])
    ensures var g' := Groups.Replay(h + [e]); e.signature in g' && g'[e.signature].kind == e.kind
  {
    hide Groups.Keyed;
    assert (h + [e])[..|h|] == h && (h + [e])[|h|] == e;
    Groups.GroupsHaveOneKind(h + [e], |h|);
  }

  lemma UpsertKeepsIds(g: Groups.Table, e: Groups.Entry)
    requires Groups.CanUpsert(g, e) && IdsDistinct(g)
    ensures IdsDistinct(Groups.Upsert(g, e))
    ensures forall sig :: sig in g ==>
      var g' := Groups.Upsert(g, e); sig in g' && g'[sig].id == g[sig].id && g'[sig].kind == g[sig].kind
  {
    hide Groups.NewGroup;
    if e.signature !in g {
      assert Groups.NewGroup(e).id == e.newId by { NewId(e); }
    }
  }

  lemma NewId(e: Groups.Entry)
    ensures Groups.NewGroup(e).id == e.newId
  {
  }

  /** Rows may come and files may be written, as long as what the reports rely on stays. */
  lemma Grows(t: Tables, t': Tables, r: string)
    requires r in t.reports && r in t'.reports && t'.reports[r].groupId == t.reports[r].groupId
    requires t'.reports[r].kind == t.reports[r].kind && (t'.reports[r].state == Decoded ==> t.reports[r].state == Decoded)
    requires r in t.decoded ==> r in t'.decoded
    requires forall sig :: sig in t.groups ==>
      sig in t'.groups && t'.groups[sig].id == t.groups[sig].id && t'.groups[sig].kind == t.groups[sig].kind
    requires ReportGrouped(t, r)
    ensures ReportGrouped(t', r)
  {
  }

  lemma GrowsWorker(t: Tables, t': Tables, pc: Worker)
    requires forall r :: r in t.reports ==> r in t'.reports && SameKind(t.reports[r], t'.reports[r])
    requires forall r :: r in t.decoded ==> r in t'.decoded
    requires forall sig :: sig in t.groups ==>
      sig in t'.groups && t'.groups[sig].id == t.groups[sig].id && t'.groups[sig].kind == t.groups[sig].kind
    requires WorkerGrouped(t, pc)
    ensures WorkerGrouped(t', pc)
  {
  }

  /** What a step may do to the tables without disturbing other reports and workers. */
  ghost predicate Extends(t: Tables, t': Tables) {
    && (forall r :: r in t.reports ==> r in t'.reports && SameKind(t.reports[r], t'.reports[r]))
    && (forall r :: r in t.decoded ==> r in t'.decoded)
    && forall sig :: sig in t.groups ==>
         sig in t'.groups && t'.groups[sig].id == t.groups[sig].id && t'.groups[sig].kind == t.groups[sig].kind
  }

  /** The parts of the invariant that speak about single reports and workers survive an extension
      in which each report is either as grouped as before or newly and rightly grouped. */
  lemma ExtendKeepsGroups(s: State, s': State)
    requires GroupsInv(s) && Extends(s.t, s'.t) && Replayed(s') && IdsDistinct(s'.t.groups)
    requires forall r :: r in s'.t.reports ==>
      ReportGrouped(s'.t, r) || (r in s.t.reports && s'.t.reports[r].groupId == s.t.reports[r].groupId
                                 && (s'.t.reports[r].state == Decoded ==> s.t.reports[r].state == Decoded))
    requires forall w :: w in s'.workers ==> WorkerGrouped(s'.t, s'.workers[w]) || s'.workers[w] == Pc(s, w)
    ensures GroupsInv(s')
  {
    hide Replayed, IdsDistinct, ReportGrouped, WorkerGrouped;
    forall r | r in s'.t.reports ensures ReportGrouped(s'.t, r) {
      if !ReportGrouped(s'.t, r) {
        Grows(s.t, s'.t, r);
      }
    }
    forall w | w in s'.workers ensures WorkerGrouped(s'.t, s'.workers[w]) {
      if w in s.workers {
        GrowsWorker(s.t, s'.t, s.workers[w]);
      } else {
        IdleGrouped(s'.t);
      }
    }
  }

  lemma IdleGrouped(t: Tables)
    ensures WorkerGrouped(t, Idle)
  {
  }

  /** A worker moves to a place that says nothing about groups. */
  lemma MoveKeepsGroups(s: State, w: nat, s': State)
    requires GroupsInv(s) && w in s'.workers && s'.workers == s.workers[w := s'.workers[w]]
    requires s'.t.reports == s.t.reports && s'.t.groups == s.t.groups && s'.history == s.history
    requires forall r :: r in s.t.decoded ==> r in s'.t.decoded
    requires WorkerGrouped(s'.t, s'.workers[w])
    ensures GroupsInv(s')
  {
    hide HasGroup, IdsDistinct;
  }

  lemma JobStepsKeepGroups(s: State, w: nat, ok: bool)
    requires GroupsInv(s)
    ensures GroupsInv(ClaimStep(s, w)) && GroupsInv(DieStep(s, w)) && GroupsInv(RemoveStep(s, w, ok))
    ensures GroupsInv(FinishStep(s, w, ok)) && GroupsInv(FailJobStep(s, w, ok))
  {
    hide GroupsInv;
    MoveKeepsGroups(s, w, DieStep(s, w));
    if ClaimStep(s, w) != s { MoveKeepsGroups(s, w, ClaimStep(s, w)); }
    if RemoveStep(s, w, ok) != s { MoveKeepsGroups(s, w, RemoveStep(s, w, ok)); }
    if FinishStep(s, w, ok) != s { MoveKeepsGroups(s, w, FinishStep(s, w, ok)); }
    if FailJobStep(s, w, ok) != s { MoveKeepsGroups(s, w, FailJobStep(s, w, ok)); }
  }

  lemma WorkerIsGrouped(s: State, w: nat)
    requires GroupsInv(s) && w in s.workers
    ensures WorkerGrouped(s.t, s.workers[w])
  {
    hide Replayed, IdsDistinct, ReportGrouped, WorkerGrouped;
  }

  lemma DecodeStepsKeepGroups(s: State, w: nat, ok: bool, text: Option<string>, how: WriteResult)
    requires GroupsInv(s)
    ensures GroupsInv(LoadStep(s, w, ok)) && GroupsInv(ReadStep(s, w, ok, text)) && GroupsInv(WriteStep(s, w, how))
  {
    hide GroupsInv, HasGroup;
    if w in s.workers { WorkerIsGrouped(s, w); }
    var pc := Pc(s, w);
    if pc.Claimed? { MoveKeepsGroups(s, w, LoadStep(s, w, ok)); }
    if pc.Loaded? { MoveKeepsGroups(s, w, ReadStep(s, w, ok, text)); }
    if pc.Texted? { MoveKeepsGroups(s, w, WriteStep(s, w, how)); }
  }

  lemma ClockKeepsGroups(s: State, w: nat, at: int)
    requires GroupsInv(s)
    ensures GroupsInv(ClockStep(s, w, at))
  {
    hide GroupsInv, HasGroup;
    if w in s.workers { WorkerIsGrouped(s, w); }
    if Pc(s, w).Written? { MoveKeepsGroups(s, w, ClockStep(s, w, at)); }
  }

  lemma UpsertKeepsGroups(s: State, w: nat, ok: bool, newId: nat)
    requires GroupsInv(s)
    ensures GroupsInv(UpsertStep(s, w, ok, newId))
  {
    hide GroupsInv, Groups.Upsert, Groups.CanUpsert, EntryOf;
    var pc := Pc(s, w);
    if pc.Timed? {
      var e := EntryOf(pc.kind, pc.version, pc.text, pc.at, newId);
      if ok && Groups.CanUpsert(s.t.groups, e) {
        EntryIsKeyed(pc.kind, pc.version, pc.text, pc.at, newId);
        EntryKind(pc.kind, pc.version, pc.text, pc.at, newId);
        RowUpserted(s, w, e, pc.kind, pc.at);
      } else {
        MoveKeepsGroups(s, w, UpsertStep(s, w, ok, newId));
      }
    }
  }

  lemma EntryKind(kind: Kind, version: string, text: string, at: int, newId: nat)
    ensures EntryOf(kind, version, text, at, newId).kind == KindText(kind)
  {
  }

  lemma RowUpserted(s: State, w: nat, e: Groups.Entry, kind: Kind, at: int)
    requires GroupsInv(s) && w in s.workers && s.workers[w].Timed? && s.workers[w].kind == kind
    requires Groups.Keyed(e) && e.kind == KindText(kind) && Groups.CanUpsert(s.t.groups, e)
    ensures var groups := Groups.Upsert(s.t.groups, e);
      e.signature in groups
      && GroupsInv(At(s, w, s.t.(groups := groups), Upserted(s.workers[w].job, groups[e.signature].id, at)).(history := s.history + [e]))
  {
    var pc := s.workers[w];
    assert WorkerGrouped(s.t, pc);
    UpsertReplays(s.history, e);
    UpsertKeepsIds(s.t.groups, e);
    var groups := Groups.Upsert(s.t.groups, e);
    var pc' := Upserted(pc.job, groups[e.signature].id, at);
    var s' := At(s, w, s.t.(groups := groups), pc').(history := s.history + [e]);
    hide Groups.Keyed, Groups.Upsert, Groups.CanUpsert, Groups.Replay, ReportGrouped;
    assert HasGroup(s'.t.groups, pc'.groupId, kind);
    assert WorkerGrouped(s'.t, pc');
    hide HasGroup, WorkerGrouped;
    assert Replayed(s') by { HistoryKeyed(s.history, e); }
    ExtendKeepsGroups(s, s');
  }

  lemma HistoryKeyed(h: seq<Groups.Entry>, e: Groups.Entry)
    requires Groups.Keyed(e) && forall i :: 0 <= i < |h| ==> Groups.Keyed(h[i])
    ensures forall i :: 0 <= i < |h + [e]| ==> Groups.Keyed((h + [e])[i])
  {
    hide Groups.Keyed;
  }

  lemma ReplayedAlike(s: State, s': State)
    requires s'.t.groups == s.t.groups && s'.history == s.history
    ensures Replayed(s) ==> Replayed(s')
  {
  }

  lemma MarkKeepsGroups(s: State, w: nat, ok: bool)
    requires GroupsInv(s)
    ensures GroupsInv(MarkStep(s, w, ok))
  {
    hide HasGroup, Replayed, IdsDistinct;
    var s' := MarkStep(s, w, ok);
    if s' != s {
      WorkerIsGrouped(s, w);
      ReplayedAlike(s, s');
      ExtendKeepsGroups(s, s');
    }
  }

  lemma FailReportKeepsGroups(s: State, w: nat, ok: bool)
    requires GroupsInv(s)
    ensures GroupsInv(FailReportStep(s, w, ok))
  {
    var s' := FailReportStep(s, w, ok);
    if s' != s {
      hide HasGroup;
      ExtendKeepsGroups(s, s');
    }
  }

  lemma WorkerKeepsGroups(s: State, a: Action)
    requires GroupsInv(s)
    ensures GroupsInv(WorkerStep(s, a))
  {
    hide GroupsInv, ClaimStep, LoadStep, ReadStep, WriteStep, ClockStep, UpsertStep, MarkStep, RemoveStep, FinishStep,
      FailJobStep, FailReportStep, DieStep;
    match a
    case Claim(w) => JobStepsKeepGroups(s, w, true);
    case Load(w, ok) => DecodeStepsKeepGroups(s, w, ok, None, Untouched);
    case ReadRaw(w, ok, text) => DecodeStepsKeepGroups(s, w, ok, text, Untouched);
    case WriteDecoded(w, how) => DecodeStepsKeepGroups(s, w, true, None, how);
    case ReadClock(w, at) => ClockKeepsGroups(s, w, at);
    case UpsertGroup(w, ok, newId) => UpsertKeepsGroups(s, w, ok, newId);
    case MarkDecoded(w, ok) => MarkKeepsGroups(s, w, ok);
    case RemoveRaw(w, ok) => JobStepsKeepGroups(s, w, ok);
    case FinishJob(w, ok) => JobStepsKeepGroups(s, w, ok);
    case FailJob(w, ok) => JobStepsKeepGroups(s, w, ok);
    case FailReport(w, ok) => FailReportKeepsGroups(s, w, ok);
    case WorkerDies(w) => JobStepsKeepGroups(s, w, true);
    case _ =>
  }

  /** GC tasks and posts touch neither groups nor decoded texts nor workers. */
  ghost predicate OnlyRows(s: State, s': State) {
    && s'.workers == s.workers && s'.history == s.history
    && s'.t.groups == s.t.groups && s'.t.decoded == s.t.decoded
    && (forall r :: r in s.t.reports ==> r in s'.t.reports && SameKind(s.t.reports[r], s'.t.reports[r]))
    && forall r :: r in s'.t.reports ==>
         if r in s.t.reports then s'.t.reports[r].groupId == s.t.reports[r].groupId && s'.t.reports[r].state == s.t.reports[r].state
         else s'.t.reports[r].groupId == None && s'.t.reports[r].state == Received
  }

  lemma GcOnlyRows(s: State, a: Action)
    ensures OnlyRows(s, GcStep(s, a))
  {
    hide Collectable;
  }

  lemma PostOnlyRows(s: State, a: Action)
    ensures OnlyRows(s, PostStep(s, a))
  {
    hide SettleId, WriteFile;
  }

  lemma OnlyRowsKeepGroups(s: State, s': State)
    requires GroupsInv(s) && OnlyRows(s, s')
    ensures GroupsInv(s')
  {
    hide HasGroup, IdsDistinct, WorkerGrouped;
    ExtendKeepsGroups(s, s');
  }

  lemma {:induction false} GroupsInvariant(run: seq<Action>)
    ensures GroupsInv(Run(INIT, run))
  {
    hide WorkerStep, GcStep, PostStep, OnlyRows;
    if run != [] {
      var s, a := Run(INIT, run[..|run| - 1]), run[|run| - 1];
      GroupsInvariant(run[..|run| - 1]);
      if IsGcAction(a) {
        GcOnlyRows(s, a);
        OnlyRowsKeepGroups(s, GcStep(s, a));
      } else if IsPostAction(a) {
        PostOnlyRows(s, a);
        OnlyRowsKeepGroups(s, PostStep(s, a));
      } else {
        WorkerKeepsGroups(s, a);
      }
    }
  }

  ghost predicate OneGroup(g: Groups.Table, id: nat) {
    forall a, b :: a in g && b in g && g[a].id == id && g[b].id == id ==> a == b
  }

  /** After any run the group table is the group-by of all upserts, and every decoded report has a
      decoded text and exactly one group, which is of the report's own kind. */
  lemma DecodedReportsGrouped(run: seq<Action>)
    ensures var s := Run(INIT, run);
      && Groups.IsGroupBy(s.history, s.t.groups)
      && forall r :: r in s.t.reports && s.t.reports[r].state == Decoded ==>
           && r in s.t.decoded && s.t.reports[r].groupId.Some?
           && HasGroup(s.t.groups, s.t.reports[r].groupId.value, s.t.reports[r].kind)
           && OneGroup(s.t.groups, s.t.reports[r].groupId.value)
  {
    hide Run, HasGroup;
    GroupsInvariant(run);
    Groups.ReplayIsGroupBy(Run(INIT, run).history);
  }
}
