/** What a crash group says, after any run, about the texts that went into it. */
module LifecycleUpserts {
  import opened Wrappers
  import opened Text
  import Groups
  import Transparency
  import opened Lifecycle
  import LifecycleGroups
  import LifecycleDone

  /** The group upsert of a worker succeeds with the key of its text. */
  ghost predicate Upserts(s: State, a: Action, sig: string) {
    && a.UpsertGroup? && a.ok && Pc(s, a.w).Timed?
    && Transparency.Classified(KindText(Pc(s, a.w).kind), Pc(s, a.w).text).input == sig
    && (sig in s.t.groups || forall other :: other in s.t.groups ==> s.t.groups[other].id != a.groupId)
  }

  ghost predicate UpsertAt(run: seq<Action>, p: nat, sig: string)
    requires p < |run|
  {
    Upserts(Run(INIT, run[..p]), run[p], sig)
  }

  /** The worker that upserts at this position. */
  ghost function By(run: seq<Action>, p: nat): Worker
    requires p < |run| && run[p].UpsertGroup?
  {
    Pc(Run(INIT, run[..p]), run[p].w)
  }

  /** The first and the last upsert of a key in a run. */
  ghost predicate IsFirst(run: seq<Action>, p: nat, sig: string) {
    p < |run| && UpsertAt(run, p, sig) && forall i :: 0 <= i < p ==> !UpsertAt(run, i, sig)
  }

  ghost predicate IsLast(run: seq<Action>, q: nat, sig: string) {
    q < |run| && UpsertAt(run, q, sig) && forall i :: q < i < |run| ==> !UpsertAt(run, i, sig)
  }

  // ----- one step -----

  /** The row that an upsert creates. */
  function Created(pc: Worker, id: nat): Groups.Group
    requires pc.Timed?
  {
    var sig := Transparency.Classified(KindText(pc.kind), pc.text);
    Groups.Group(id, KindText(pc.kind), sig.title, Join(sig.modules, " "), pc.at, pc.at, pc.version)
  }

  lemma StepOfKey(s: State, a: Action, sig: string)
    requires Upserts(s, a, sig)
    ensures var g := UpsertStep(s, a.w, a.ok, a.groupId).t.groups; var pc := Pc(s, a.w);
      && sig in g
      && g[sig] == if sig in s.t.groups then s.t.groups[sig].(lastSeen := pc.at) else Created(pc, a.groupId)
  {
    hide Transparency.Classified, Created, Groups.NewGroup, EntryOf;
    var pc := Pc(s, a.w);
    EntryFields(pc, a.groupId);
  }

  /** What the worker binds. */
  lemma EntryFields(pc: Worker, id: nat)
    requires pc.Timed?
    ensures var e := EntryOf(pc.kind, pc.version, pc.text, pc.at, id);
      && e.signature == Transparency.Classified(KindText(pc.kind), pc.text).input && e.seenAt == pc.at && e.newId == id
      && Groups.NewGroup(e) == Created(pc, id)
  {
    hide Transparency.Classified;
  }

  lemma StepOfOther(s: State, w: nat, ok: bool, newId: nat, sig: string)
    requires !Upserts(s, UpsertGroup(w, ok, newId), sig)
    ensures var g := UpsertStep(s, w, ok, newId).t.groups;
      (sig in g <==> sig in s.t.groups) && (sig in g ==> g[sig] == s.t.groups[sig])
  {
    hide Transparency.Classified;
  }

  lemma OtherWorkerSteps(s: State, a: Action)
    requires !a.UpsertGroup?
    ensures WorkerStep(s, a).t.groups == s.t.groups
  {
    hide WriteFile;
  }

  lemma StepGroups(s: State, a: Action, sig: string)
    ensures var g, g' := s.t.groups, Step(s, a).t.groups;
      if Upserts(s, a, sig) then
        && sig in g' && Pc(s, a.w).Timed?
        && g'[sig] == if sig in g then g[sig].(lastSeen := Pc(s, a.w).at) else Created(Pc(s, a.w), a.groupId)
      else (sig in g' <==> sig in g) && (sig in g' ==> g'[sig] == g[sig])
  {
    hide GcStep, PostStep, Created, UpsertStep, ClaimStep, LoadStep, ReadStep, WriteStep, ClockStep, MarkStep, RemoveStep,
      FinishStep, FailJobStep, FailReportStep, DieStep;
    LifecycleGroups.GcOnlyRows(s, a);
    LifecycleGroups.PostOnlyRows(s, a);
    if a.UpsertGroup? {
      if Upserts(s, a, sig) {
        StepOfKey(s, a, sig);
      } else {
        StepOfOther(s, a.w, a.ok, a.groupId, sig);
      }
    } else {
      OtherWorkerSteps(s, a);
    }
  }

  // ----- whole runs -----

  lemma Prefixes(run: seq<Action>, sig: string)
    requires run != []
    ensures var before := run[..|run| - 1];
      && (forall i :: 0 <= i < |before| ==> (UpsertAt(run, i, sig) <==> UpsertAt(before, i, sig)))
      && (UpsertAt(run, |before|, sig) <==> Upserts(Run(INIT, before), run[|before|], sig))
  {
    hide Run, Upserts;
    var before := run[..|run| - 1];
    assert forall i :: 0 <= i < |before| ==> run[..i] == before[..i] && run[i] == before[i];
  }

  lemma SameBy(run: seq<Action>, p: nat)
    requires p < |run| - 1 && run[p].UpsertGroup?
    ensures By(run, p) == By(run[..|run| - 1], p)
  {
    hide Run;
    assert run[..|run| - 1][..p] == run[..p];
  }

  /** A key has a group exactly if it was upserted. */
  lemma {:induction false} HasGroupIff(run: seq<Action>, sig: string)
    ensures sig in Run(INIT, run).t.groups <==> exists p :: 0 <= p < |run| && UpsertAt(run, p, sig)
  {
    hide Step, UpsertAt, Upserts;
    if run != [] {
      var before, n := run[..|run| - 1], |run| - 1;
      HasGroupIff(before, sig);
      Prefixes(run, sig);
      StepGroups(Run(INIT, before), run[n], sig);
    }
  }

  lemma LastBefore(run: seq<Action>, p: nat, sig: string) returns (q: nat)
    requires p < |run| && UpsertAt(run, p, sig)
    ensures IsLast(run, q, sig) && p <= q
    decreases |run| - p
  {
    hide UpsertAt;
    if i :| p < i < |run| && UpsertAt(run, i, sig) {
      q := LastBefore(run, i, sig);
    } else {
      q := p;
    }
  }

  lemma FirstFrom(run: seq<Action>, p: nat, sig: string) returns (q: nat)
    requires p < |run| && UpsertAt(run, p, sig)
    ensures IsFirst(run, q, sig) && q <= p
    decreases p
  {
    hide UpsertAt;
    if i :| 0 <= i < p && UpsertAt(run, i, sig) {
      q := FirstFrom(run, i, sig);
    } else {
      q := p;
    }
  }

  /** The group of a key after any run: id, kind, title, modules, version and first-seen time from the first
      upsert, the last-seen time from the last one. Each worker stands where it binds these values. */
  ghost predicate GroupSays(run: seq<Action>, p: nat, q: nat, sig: string) {
    && p < |run| && q < |run| && UpsertAt(run, p, sig) && UpsertAt(run, q, sig)
    && sig in Run(INIT, run).t.groups
    && var first, g := By(run, p), Run(INIT, run).t.groups[sig];
       var kind := if first.kind == KernelOops then "kernel_oops" else "pstore";
       var c := Transparency.Classified(kind, first.text);
       && g.id == run[p].groupId && g.kind == kind && sig == c.input && g.title == c.title && g.modules == Join(c.modules, " ")
       && g.firstVersion == first.version && g.firstSeen == first.at && g.lastSeen == By(run, q).at
  }

  lemma IsTimed(run: seq<Action>, p: nat, sig: string)
    requires p < |run| && UpsertAt(run, p, sig)
    ensures run[p].UpsertGroup? && By(run, p).Timed?
  {
    hide Run, Transparency.Classified;
  }

  lemma KeyAt(run: seq<Action>, p: nat, sig: string)
    requires p < |run| && UpsertAt(run, p, sig)
    ensures run[p].UpsertGroup? && By(run, p).Timed?
    ensures sig == Transparency.Classified(KindText(By(run, p).kind), By(run, p).text).input
  {
    hide Run, Transparency.Classified;
  }

  lemma {:induction false} GroupOfFirstAndLast(run: seq<Action>, p: nat, q: nat, sig: string)
    requires IsFirst(run, p, sig) && IsLast(run, q, sig)
    ensures run[p].UpsertGroup? && run[q].UpsertGroup? && By(run, p).Timed? && By(run, q).Timed?
    ensures sig in Run(INIT, run).t.groups
    ensures Run(INIT, run).t.groups[sig] == Created(By(run, p), run[p].groupId).(lastSeen := By(run, q).at)
  {
    hide Step, Upserts, UpsertAt, Created, By;
    IsTimed(run, p, sig);
    IsTimed(run, q, sig);
    var before, n := run[..|run| - 1], |run| - 1;
    Prefixes(run, sig);
    StepGroups(Run(INIT, before), run[n], sig);
    HasGroupIff(before, sig);
    if run[n].UpsertGroup? { LastBy(run); }
    if p < n {
      var m := LastBefore(before, p, sig);
      GroupOfFirstAndLast(before, p, m, sig);
      SameBy(run, p);
      if q < n {
        assert m == q;
        SameBy(run, q);
      }
    } else {
      CreatedTime(By(run, p), run[p].groupId);
    }
  }

  lemma LastBy(run: seq<Action>)
    requires run != [] && run[|run| - 1].UpsertGroup?
    ensures By(run, |run| - 1) == Pc(Run(INIT, run[..|run| - 1]), run[|run| - 1].w)
  {
  }

  lemma CreatedTime(pc: Worker, id: nat)
    requires pc.Timed?
    ensures Created(pc, id).(lastSeen := pc.at) == Created(pc, id)
  {
    hide Transparency.Classified;
  }

  /** Every group of every run has such upserts. */
  lemma GroupTold(run: seq<Action>, sig: string) returns (p: nat, q: nat)
    requires sig in Run(INIT, run).t.groups
    ensures IsFirst(run, p, sig) && IsLast(run, q, sig) && GroupSays(run, p, q, sig)
  {
    hide Run, UpsertAt, By, Transparency.Classified;
    HasGroupIff(run, sig);
    var i :| 0 <= i < |run| && UpsertAt(run, i, sig);
    p := FirstFrom(run, i, sig);
    q := LastBefore(run, i, sig);
    GroupOfFirstAndLast(run, p, q, sig);
    KeyAt(run, p, sig);
  }

  /** A worker that upserts has kind and version from the report's row, and its text is the stored one. */
  lemma UpsertsItsReport(run: seq<Action>, p: nat, sig: string)
    requires p < |run| && UpsertAt(run, p, sig)
    ensures run[p].UpsertGroup?
    ensures var t, pc := Run(INIT, run[..p]).t, By(run, p);
      && pc.Timed? && pc.job.report in t.reports && pc.job.report in t.decoded
      && t.reports[pc.job.report].kind == pc.kind && t.reports[pc.job.report].version == pc.version
      && t.decoded[pc.job.report] == pc.text
  {
    hide Run, Transparency.Classified, LifecycleGroups.GroupsInv, LifecycleDone.DoneInv;
    IsTimed(run, p, sig);
    var s := Run(INIT, run[..p]);
    LifecycleGroups.GroupsInvariant(run[..p]);
    LifecycleGroups.WorkerIsGrouped(s, run[p].w);
    LifecycleDone.DoneInvariant(run[..p]);
    LifecycleDone.WorkerIsOk(s, LifecycleDone.Rewritten(run[..p]), run[p].w);
  }
}
