/** Clocks: between reading the clock and writing the group another worker can come in. */
module LifecycleClock {
  import opened Wrappers
  import Groups
  import opened Lifecycle
  import LifecycleGroups

  /** When, as a position in the run, an upsert's clock was read and when it was written. */
  datatype Times = Times(read: nat, written: nat)

  /** `readAt` has the last clock reading of each worker, `upserts` one entry for each in the history. */
  datatype Track = Track(readAt: map<nat, nat>, upserts: seq<Times>)

  ghost predicate Reads(s: State, a: Action) { a.ReadClock? && Pc(s, a.w).Written? }

  ghost predicate Upserts(s: State, a: Action) { a.UpsertGroup? && |Step(s, a).history| > |s.history| }

  ghost function Tracked(run: seq<Action>): Track {
    if run == [] then Track(map[], [])
    else
      var before, a := run[..|run| - 1], run[|run| - 1];
      var s, k := Run(INIT, before), Tracked(before);
      if Reads(s, a) then k.(readAt := k.readAt[a.w := |before|])
      else if Upserts(s, a) && a.w in k.readAt then k.(upserts := k.upserts + [Times(k.readAt[a.w], |before|)])
      else k
  }

  predicate IsReading(run: seq<Action>, i: int, at: int) { 0 <= i < |run| && run[i].ReadClock? && run[i].at == at }

  /** A worker that has read the clock did so where the track says. */
  ghost predicate WorkersTracked(s: State, k: Track, run: seq<Action>) {
    forall w :: w in s.workers && s.workers[w].Timed? ==> w in k.readAt && IsReading(run, k.readAt[w], s.workers[w].at)
  }

  ghost predicate HistoryTracked(h: seq<Groups.Entry>, u: seq<Times>, run: seq<Action>) {
    && |u| == |h|
    && (forall i :: 0 <= i < |h| ==> IsReading(run, u[i].read, h[i].seenAt) && u[i].read < u[i].written < |run|)
    && forall i, j :: 0 <= i < j < |u| ==> u[i].written < u[j].written
  }

  ghost predicate TrackInv(s: State, k: Track, run: seq<Action>) {
    WorkersTracked(s, k, run) && HistoryTracked(s.history, k.upserts, run)
  }

  // ----- kept by every step -----

  /** The other steps neither read clocks nor write groups. */
  ghost predicate Untimed(s: State, s': State) {
    && s'.history == s.history
    && forall w :: w in s'.workers && s'.workers[w].Timed? ==> w in s.workers && s'.workers[w] == s.workers[w]
  }

  lemma WorkerUntimed(s: State, a: Action)
    requires !a.ReadClock? && !a.UpsertGroup? && !a.Claim? && !IsGcAction(a) && !IsPostAction(a)
    ensures Untimed(s, WorkerStep(s, a))
  {
    hide WriteFile, SetJob, SetDecoded, SetFailed;
  }

  lemma ClaimUntimed(s: State, w: nat)
    ensures Untimed(s, ClaimStep(s, w))
  {
  }

  lemma RowsUntimed(s: State, a: Action)
    requires IsGcAction(a) || IsPostAction(a)
    ensures Untimed(s, Step(s, a))
  {
    hide Step, GcStep, PostStep;
    if IsGcAction(a) {
      LifecycleGroups.GcOnlyRows(s, a);
      StepIsGc(s, a);
    } else {
      LifecycleGroups.PostOnlyRows(s, a);
      StepIsPost(s, a);
    }
  }

  lemma StepIsGc(s: State, a: Action)
    requires IsGcAction(a)
    ensures Step(s, a) == GcStep(s, a)
  {
    hide GcStep, PostStep, WorkerStep;
  }

  lemma StepIsPost(s: State, a: Action)
    requires IsPostAction(a)
    ensures Step(s, a) == PostStep(s, a)
  {
    hide GcStep, PostStep, WorkerStep;
  }

  lemma OthersUntimed(s: State, a: Action)
    requires !a.ReadClock? && !a.UpsertGroup?
    ensures Untimed(s, Step(s, a))
  {
    hide Untimed, GcStep, PostStep, WorkerStep, ClaimStep;
    if IsGcAction(a) || IsPostAction(a) {
      hide Step;
      RowsUntimed(s, a);
    } else if a.Claim? {
      StepIsWorker(s, a);
      ClaimIsWorker(s, a.w);
      ClaimUntimed(s, a.w);
    } else {
      StepIsWorker(s, a);
      WorkerUntimed(s, a);
    }
  }

  lemma StepIsWorker(s: State, a: Action)
    requires !IsGcAction(a) && !IsPostAction(a)
    ensures Step(s, a) == WorkerStep(s, a)
  {
    hide GcStep, PostStep, WorkerStep;
  }

  lemma ClaimIsWorker(s: State, w: nat)
    ensures WorkerStep(s, Claim(w)) == ClaimStep(s, w)
  {
    hide ClaimStep;
  }

  lemma Extended(h: seq<Groups.Entry>, u: seq<Times>, run: seq<Action>, a: Action)
    requires HistoryTracked(h, u, run)
    ensures HistoryTracked(h, u, run + [a])
  {
    assert forall i :: 0 <= i < |run| ==> (run + [a])[i] == run[i];
  }

  lemma UntimedKeeps(s: State, s': State, k: Track, run: seq<Action>, a: Action)
    requires TrackInv(s, k, run) && Untimed(s, s')
    ensures TrackInv(s', k, run + [a])
  {
    hide HistoryTracked;
    Extended(s.history, k.upserts, run, a);
    assert forall i :: 0 <= i < |run| ==> (run + [a])[i] == run[i];
  }

  lemma ReadKeeps(s: State, k: Track, run: seq<Action>, w: nat, at: int)
    requires TrackInv(s, k, run) && Pc(s, w).Written?
    ensures TrackInv(ClockStep(s, w, at), k.(readAt := k.readAt[w := |run|]), run + [ReadClock(w, at)])
  {
    hide HistoryTracked;
    Extended(s.history, k.upserts, run, ReadClock(w, at));
    assert forall i :: 0 <= i < |run| ==> (run + [ReadClock(w, at)])[i] == run[i];
    assert (run + [ReadClock(w, at)])[|run|] == ReadClock(w, at);
  }

  lemma UpsertKeeps(s: State, k: Track, run: seq<Action>, w: nat, ok: bool, newId: nat)
    requires TrackInv(s, k, run)
    ensures var s' := UpsertStep(s, w, ok, newId);
      if s'.history != s.history then
        w in k.readAt && TrackInv(s', k.(upserts := k.upserts + [Times(k.readAt[w], |run|)]), run + [UpsertGroup(w, ok, newId)])
      else TrackInv(s', k, run + [UpsertGroup(w, ok, newId)])
  {
    var s', a := UpsertStep(s, w, ok, newId), UpsertGroup(w, ok, newId);
    UpsertShape(s, w, ok, newId);
    hide UpsertStep;
    Extended(s.history, k.upserts, run, a);
    assert forall i :: 0 <= i < |run| ==> (run + [a])[i] == run[i];
    if s'.history != s.history {
      var e := s'.history[|s.history|];
      OneUpsert(s.history, k.upserts, run + [a], e, Times(k.readAt[w], |run|));
    }
  }

  /** An upsert writes the time its worker has read. */
  lemma UpsertShape(s: State, w: nat, ok: bool, newId: nat)
    ensures var s' := UpsertStep(s, w, ok, newId);
      && (forall v :: v in s'.workers && s'.workers[v].Timed? ==> v in s.workers && s'.workers[v] == s.workers[v])
      && (s'.history != s.history ==>
            && w in s.workers && s.workers[w].Timed? && |s'.history| == |s.history| + 1
            && s'.history == s.history + [s'.history[|s.history|]]
            && s'.history[|s.history|].seenAt == s.workers[w].at)
  {
    hide Groups.CanUpsert, Groups.Upsert, Transparency.Classified;
  }

  lemma OneUpsert(h: seq<Groups.Entry>, u: seq<Times>, run: seq<Action>, e: Groups.Entry, t: Times)
    requires HistoryTracked(h, u, run) && IsReading(run, t.read, e.seenAt) && t.read < t.written < |run|
    requires forall i :: 0 <= i < |u| ==> u[i].written < t.written
    ensures HistoryTracked(h + [e], u + [t], run)
  {
  }

  lemma TrackNext(run: seq<Action>, a: Action)
    requires TrackInv(Run(INIT, run), Tracked(run), run)
    ensures TrackInv(Step(Run(INIT, run), a), Tracked(run + [a]), run + [a])
  {
    var s, k := Run(INIT, run), Tracked(run);
    hide TrackInv, Run, Step, WorkerStep, UpsertStep, ClockStep;
    assert (run + [a])[..|run|] == run;
    if a.ReadClock? {
      StepIsWorker(s, a);
      ClockIsWorker(s, a.w, a.at);
      if Reads(s, a) {
        ReadKeeps(s, k, run, a.w, a.at);
      } else {
        IdleClock(s, a.w, a.at);
        UntimedKeeps(s, Step(s, a), k, run, a);
      }
    } else if a.UpsertGroup? {
      StepIsWorker(s, a);
      UpsertIsWorker(s, a.w, a.ok, a.groupId);
      UpsertShape(s, a.w, a.ok, a.groupId);
      UpsertKeeps(s, k, run, a.w, a.ok, a.groupId);
    } else {
      OthersUntimed(s, a);
      UntimedKeeps(s, Step(s, a), k, run, a);
    }
  }

  lemma ClockIsWorker(s: State, w: nat, at: int)
    ensures WorkerStep(s, ReadClock(w, at)) == ClockStep(s, w, at)
  {
    hide ClockStep;
  }

  lemma UpsertIsWorker(s: State, w: nat, ok: bool, newId: nat)
    ensures WorkerStep(s, UpsertGroup(w, ok, newId)) == UpsertStep(s, w, ok, newId)
  {
    hide UpsertStep;
  }

  lemma IdleClock(s: State, w: nat, at: int)
    requires !Pc(s, w).Written?
    ensures Untimed(s, ClockStep(s, w, at))
  {
  }

  lemma {:induction false} TrackInvariant(run: seq<Action>)
    ensures TrackInv(Run(INIT, run), Tracked(run), run)
  {
    hide Step;
    if run != [] {
      var before, a := run[..|run| - 1], run[|run| - 1];
      TrackInvariant(before);
      TrackNext(before, a);
      assert run == before + [a];
    }
  }

  // ----- what the times of a group mean -----

  /** One clock for all workers, which never runs backwards. */
  ghost predicate Monotonic(run: seq<Action>) {
    forall i, j :: 0 <= i < j < |run| && run[i].ReadClock? && run[j].ReadClock? ==> run[i].at <= run[j].at
  }

  /** Upsert `i` read the clock after `j`, which showed another time by then, and wrote before `j` did. */
  ghost predicate Overtakes(run: seq<Action>, i: nat, j: nat) {
    var h, u := Run(INIT, run).history, Tracked(run).upserts;
    && i < |h| && j < |h| && i < |u| && j < |u|
    && u[j].read < u[i].read && u[i].written < u[j].written && h[i].seenAt != h[j].seenAt
  }

  /** Entries out of the order of their times are overtaken ones. */
  lemma OutOfOrder(run: seq<Action>, i: nat, j: nat)
    requires Monotonic(run) && i < |Run(INIT, run).history| && j < |Run(INIT, run).history|
    ensures var h := Run(INIT, run).history; Overtakes(run, i, j) <==> i < j && h[j].seenAt < h[i].seenAt
  {
    var h, u := Run(INIT, run).history, Tracked(run).upserts;
    hide Run, Tracked, WorkersTracked;
    TrackInvariant(run);
    assert IsReading(run, u[i].read, h[i].seenAt) && IsReading(run, u[j].read, h[j].seenAt);
  }

  lemma GroupsReplayed(run: seq<Action>)
    ensures Run(INIT, run).t.groups == Groups.Replay(Run(INIT, run).history)
  {
    hide Run, Groups.Replay;
    LifecycleGroups.GroupsInvariant(run);
  }

  /** After any run with such a clock, a group's last-seen time is the latest time of its entries exactly if
      its last upsert was not overtaken, between reading the clock and writing, by one of the same signature. */
  lemma LastSeenIsLatestIff(run: seq<Action>, k: nat, last: nat)
    requires var h := Run(INIT, run).history; k < |h| && Groups.Together(h, k, last) && Groups.IsLast(h, last)
    requires Monotonic(run)
    ensures var h, g := Run(INIT, run).history, Run(INIT, run).t.groups;
      && h[k].signature in g
      && ((forall i :: Groups.Together(h, i, k) ==> h[i].seenAt <= g[h[k].signature].lastSeen)
          <==> forall i: nat :: Groups.Together(h, i, k) ==> !Overtakes(run, i, last))
  {
    var h := Run(INIT, run).history;
    hide Run, Groups.Replay, Overtakes, Monotonic, Groups.IsLast;
    GroupsReplayed(run);
    Groups.LastSeenIsLatestIff(h, k, last);
    forall i: nat | Groups.Together(h, i, k) ensures Overtakes(run, i, last) <==> i < last && h[last].seenAt < h[i].seenAt {
      OutOfOrder(run, i, last);
    }
  }

  /** And its first-seen time is the earliest exactly if its first upsert overtook none of the others. */
  lemma FirstSeenIsEarliestIff(run: seq<Action>, k: nat, first: nat)
    requires var h := Run(INIT, run).history; k < |h| && Groups.Together(h, k, first) && Groups.IsFirst(h, first)
    requires Monotonic(run)
    ensures var h, g := Run(INIT, run).history, Run(INIT, run).t.groups;
      && h[k].signature in g
      && ((forall i :: Groups.Together(h, i, k) ==> g[h[k].signature].firstSeen <= h[i].seenAt)
          <==> forall i: nat :: Groups.Together(h, i, k) ==> !Overtakes(run, first, i))
  {
    var h := Run(INIT, run).history;
    hide Run, Groups.Replay, Overtakes, Monotonic, Groups.IsFirst;
    GroupsReplayed(run);
    Groups.FirstSeenIsEarliestIff(h, k, first);
    forall i: nat | Groups.Together(h, i, k) ensures Overtakes(run, first, i) <==> first < i && h[i].seenAt < h[first].seenAt {
      OutOfOrder(run, first, i);
    }
  }
}
