/** Whose payload a report has, over all interleavings of posts, workers and GC tasks. */
module Origins {
  import opened Wrappers
  import opened Lifecycle
  import opened LifecycleJobs
  import LifecycleRaw
  import opened Ingest

  /** The uploads that created the rows. */
  type Origin = map<string, Upload>

  /** A step that creates a row. */
  predicate Creates(s: State, a: Action) {
    a.PostInsert? && a.ok && a.p in s.posts && s.posts[a.p].RawWritten? && s.posts[a.p].id !in s.t.reports
  }

  function Noted(o: Origin, s: State, a: Action): Origin {
    if Creates(s, a) then o[s.posts[a.p].id := s.posts[a.p].up] else o
  }

  ghost function OriginOf(run: seq<Action>): Origin {
    if run == [] then map[]
    else
      var before := run[..|run| - 1];
      Noted(OriginOf(before), Run(INIT, before), run[|run| - 1])
  }

  /** A post before its row. */
  predicate Open(pc: Post) { !pc.RowInserted? }

  /** The id that a check settles on is not on record, and no post before its row has it. */
  ghost predicate Fresh(s: State, a: Action) {
    a.PostCheck? && a.p !in s.posts ==>
      match SettleId(s.t, a.uuid, a.up.device, a.spareId)
      case Some(id) => id !in s.t.reports && forall q :: q in s.posts && Open(s.posts[q]) ==> s.posts[q].id != id
      case None => true
  }

  ghost predicate AllFresh(run: seq<Action>) {
    forall i :: 0 <= i < |run| ==> Fresh(Run(INIT, run[..i]), run[i])
  }

  predicate FromOrigin(t: Tables, o: Origin, r: string)
    requires r in t.reports
  {
    var row := t.reports[r];
    && r in o && row.device == o[r].device && row.kind == o[r].kind && row.version == o[r].version
    && (r in t.raw ==> t.raw[r] == o[r].payload)
  }

  /** What an open post relies on. */
  predicate PostFits(t: Tables, o: Origin, pc: Post) {
    match pc
    case Checked(id, _) => id !in t.reports
    case RawWritten(id, up) => id !in t.reports && (id in t.raw ==> t.raw[id] == up.payload)
    case RowInserted(id, up) => id in t.reports && id in o && o[id] == up
  }

  ghost predicate IdsDiffer(s: State) {
    forall p, q :: p in s.posts && q in s.posts && p != q && Open(s.posts[p]) && Open(s.posts[q]) ==>
      s.posts[p].id != s.posts[q].id
  }

  ghost predicate OriginInv(s: State, o: Origin) {
    && IdsDiffer(s)
    && (forall r :: r in s.t.reports ==> FromOrigin(s.t, o, r))
    && forall p :: p in s.posts ==> PostFits(s.t, o, s.posts[p])
  }

  // ----- kept by every step -----

  lemma OthersKeepOrigin(s: State, s': State, o: Origin)
    requires OriginInv(s, o) && Frame(s, s')
    ensures OriginInv(s', o)
  {
    forall r | r in s'.t.reports ensures FromOrigin(s'.t, o, r) {
      assert FromOrigin(s.t, o, r);
    }
    forall p | p in s'.posts ensures PostFits(s'.t, o, s'.posts[p]) {
      assert PostFits(s.t, o, s.posts[p]);
    }
  }

  lemma CheckKeepsOrigin(s: State, o: Origin, a: Action)
    requires OriginInv(s, o) && a.PostCheck? && Fresh(s, a)
    ensures OriginInv(PostStep(s, a), o)
  {
    hide SettleId, FromOrigin;
  }

  lemma WriteKeepsOrigin(s: State, o: Origin, a: Action)
    requires OriginInv(s, o) && a.PostWrite?
    ensures OriginInv(PostStep(s, a), o)
  {
    var s' := PostStep(s, a);
    if s' != s {
      var id := s.posts[a.p].id;
      assert PostFits(s.t, o, s.posts[a.p]);
      forall r | r in s'.t.reports ensures FromOrigin(s'.t, o, r) {
        assert FromOrigin(s.t, o, r) && r != id;
      }
      forall q | q in s'.posts ensures PostFits(s'.t, o, s'.posts[q]) {
        assert PostFits(s.t, o, s.posts[q]);
      }
    }
  }

  lemma InsertKeepsOrigin(s: State, o: Origin, a: Action)
    requires OriginInv(s, o) && a.PostInsert?
    ensures OriginInv(PostStep(s, a), Noted(o, s, a))
  {
    if Creates(s, a) {
      assert PostFits(s.t, o, s.posts[a.p]);
      RowCreated(s, o, a.p, s.posts[a.p].id, s.posts[a.p].up, a.at);
    } else {
      DroppedKeepsOrigin(s, PostStep(s, a), o);
    }
  }

  lemma RowCreated(s: State, o: Origin, p: nat, id: string, up: Upload, at: int)
    requires OriginInv(s, o) && p in s.posts && s.posts[p] == RawWritten(id, up) && PostFits(s.t, o, s.posts[p])
    ensures OriginInv(s.(t := s.t.(reports := s.t.reports[id := Row(up, at)]), posts := s.posts[p := RowInserted(id, up)]), o[id := up])
  {
    var t', o' := s.t.(reports := s.t.reports[id := Row(up, at)]), o[id := up];
    forall r | r in t'.reports ensures FromOrigin(t', o', r) {
      assert r in s.t.reports ==> FromOrigin(s.t, o, r);
    }
    forall q | q in s.posts && q != p ensures PostFits(t', o', s.posts[q]) {
      assert PostFits(s.t, o, s.posts[q]);
    }
  }

  /** A post that ends early leaves everything else as it is. */
  lemma DroppedKeepsOrigin(s: State, s': State, o: Origin)
    requires OriginInv(s, o) && s'.t == s.t
    requires forall p :: p in s'.posts ==> p in s.posts && s'.posts[p] == s.posts[p]
    ensures OriginInv(s', o)
  {
    hide FromOrigin, PostFits;
  }

  lemma EndKeepsOrigin(s: State, o: Origin, a: Action)
    requires OriginInv(s, o) && (a.PostEnqueue? || a.PostDies?)
    ensures OriginInv(PostStep(s, a), o)
  {
    var s' := PostStep(s, a);
    forall r | r in s'.t.reports ensures FromOrigin(s'.t, o, r) {
      assert FromOrigin(s.t, o, r);
    }
    forall q | q in s'.posts ensures PostFits(s'.t, o, s'.posts[q]) {
      assert PostFits(s.t, o, s.posts[q]);
    }
  }

  lemma StepKeepsOriginInv(s: State, o: Origin, a: Action)
    requires OriginInv(s, o) && Fresh(s, a)
    ensures OriginInv(Step(s, a), Noted(o, s, a))
  {
    hide OriginInv, Fresh, PostStep, GcStep, WorkerStep, Frame;
    if IsPostAction(a) {
      match a
      case PostCheck(_, _, _, _) => CheckKeepsOrigin(s, o, a);
      case PostWrite(_, _) => WriteKeepsOrigin(s, o, a);
      case PostInsert(_, _, _) => InsertKeepsOrigin(s, o, a);
      case PostEnqueue(_, _, _) => EndKeepsOrigin(s, o, a);
      case PostDies(_) => EndKeepsOrigin(s, o, a);
    } else {
      OthersFrame(s, a);
      OthersKeepOrigin(s, Step(s, a), o);
    }
  }

  /** After any run, whatever interleaves, fails or dies, a report whose raw file is still there has exactly
      the payload, and the device, kind and version, of the upload that created its row, as long as every
      post settles on an id that is neither on record nor held by another post before its row. */
  lemma {:induction false} PayloadIsTheCreators(run: seq<Action>)
    requires AllFresh(run)
    ensures OriginInv(Run(INIT, run), OriginOf(run))
  {
    hide OriginInv, Fresh, Step, Noted;
    if run == [] {
      OriginStarts();
    } else {
      var before := run[..|run| - 1];
      forall i | 0 <= i < |before| ensures Fresh(Run(INIT, before[..i]), before[i]) {
        assert before[..i] == run[..i];
      }
      PayloadIsTheCreators(before);
      assert Fresh(Run(INIT, before), run[|run| - 1]);
      StepKeepsOriginInv(Run(INIT, before), OriginOf(before), run[|run| - 1]);
    }
  }

  lemma OriginStarts()
    ensures OriginInv(INIT, map[])
  {
  }

  // ----- what the client is told -----

  /** The payload is on disk and a pending job waits for it. */
  predicate Queued(t: Tables, id: string, up: Upload, jobId: nat) {
    id in t.raw && t.raw[id] == up.payload && jobId in t.jobs && t.jobs[jobId] == Job(id, Pending, 0)
  }

  /** When a post comes to its end, whatever happened between its steps, the client that gets the id finds
      its own report on record under it, with its payload stored and queued. */
  lemma AnsweredIsStored(run: seq<Action>, p: nat, jobId: nat)
    requires AllFresh(run)
    requires var s := Run(INIT, run); p in s.posts && s.posts[p].RowInserted? && jobId !in s.t.jobs
    ensures var s := Run(INIT, run); var id, up := s.posts[p].id, s.posts[p].up;
      var t' := Step(s, PostEnqueue(p, true, jobId)).t;
      && id in t'.reports && t'.reports[id].device == up.device && t'.reports[id].kind == up.kind
      && t'.reports[id].version == up.version && Queued(t', id, up, jobId)
  {
    var s := Run(INIT, run);
    hide Run, OriginOf, OriginInv, AllFresh;
    PayloadIsTheCreators(run);
    JobsSafe(run);
    LifecycleRaw.RawInvariant(run);
    assert Enqueuing(s) && LifecycleRaw.ReceivedHasRaw(s.t);
    hide JobsInv, LifecycleRaw.RawInv;
    InsertedIsThere(s, OriginOf(run), p);
    hide Enqueuing, LifecycleRaw.ReceivedHasRaw, Step;
    EnqueueJob(s, p, jobId);
  }

  lemma EnqueueJob(s: State, p: nat, jobId: nat)
    requires p in s.posts && s.posts[p].RowInserted? && jobId !in s.t.jobs
    ensures Step(s, PostEnqueue(p, true, jobId)).t == s.t.(jobs := s.t.jobs[jobId := Job(s.posts[p].id, Pending, 0)])
  {
  }

  lemma InsertedIsThere(s: State, o: Origin, p: nat)
    requires p in s.posts && s.posts[p].RowInserted? && OriginInv(s, o) && Enqueuing(s) && LifecycleRaw.ReceivedHasRaw(s.t)
    ensures var id, up := s.posts[p].id, s.posts[p].up;
      && id in s.t.reports && s.t.reports[id].device == up.device && s.t.reports[id].kind == up.kind
      && s.t.reports[id].version == up.version && id in s.t.raw && s.t.raw[id] == up.payload
  {
    assert PostFits(s.t, o, s.posts[p]) && FromOrigin(s.t, o, s.posts[p].id);
  }

  // ----- a check that is not fresh can mix uploads up -----

  /** A report on record with another payload than that of the upload that created its row. */
  ghost predicate Mixed(s: State, o: Origin) {
    exists r :: r in s.t.reports && r in s.t.raw && r in o && s.t.raw[r] != o[r].payload
  }

  /** The check settles on an id that is on record or held by a post before its row, for another payload. */
  ghost predicate Rivals(s: State, o: Origin, a: Action) {
    && a.PostCheck? && a.p !in s.posts
    && match SettleId(s.t, a.uuid, a.up.device, a.spareId)
       case None => false
       case Some(id) =>
         if id in s.t.reports then id in o && o[id].payload != a.up.payload
         else exists q :: HeldBy(s, q, id, a.up.payload)
  }

  predicate HeldBy(s: State, q: nat, id: string, payload: string) {
    q in s.posts && Open(s.posts[q]) && s.posts[q].id == id && s.posts[q].up.payload != payload
  }

  lemma SettledStep(s: State, a: Action, id: string)
    requires a.PostCheck? && a.p !in s.posts && SettleId(s.t, a.uuid, a.up.device, a.spareId) == Some(id)
    ensures Step(s, a) == s.(posts := s.posts[a.p := Checked(id, a.up)])
  {
    hide SettleId;
  }

  lemma WriteRaw(s: State, p: nat, id: string, up: Upload)
    requires p in s.posts && s.posts[p] == Checked(id, up)
    ensures Step(s, PostWrite(p, Wrote)) ==
      s.(t := s.t.(raw := s.t.raw[id := up.payload]), posts := s.posts[p := RawWritten(id, up)])
  {
  }

  lemma InsertRow(s: State, p: nat, id: string, up: Upload)
    requires p in s.posts && s.posts[p] == RawWritten(id, up) && id !in s.t.reports
    ensures Step(s, PostInsert(p, true, 0)) ==
      s.(t := s.t.(reports := s.t.reports[id := Row(up, 0)]), posts := s.posts[p := RowInserted(id, up)])
  {
  }

  lemma OneMore(run: seq<Action>, a: Action)
    ensures Run(INIT, run + [a]) == Step(Run(INIT, run), a)
    ensures OriginOf(run + [a]) == Noted(OriginOf(run), Run(INIT, run), a)
  {
    hide Step, Noted;
    assert (run + [a])[..|run|] == run;
  }

  /** The other post goes on until its row is there. */
  lemma RivalInserts(run: seq<Action>, q: nat, id: string, up: Upload) returns (next: seq<Action>)
    requires var s := Run(INIT, run); q in s.posts && s.posts[q] in {Checked(id, up), RawWritten(id, up)} && id !in s.t.reports
    ensures var s, s' := Run(INIT, run), Run(INIT, run + next);
      && id in s'.t.reports && id in OriginOf(run + next) && OriginOf(run + next)[id] == up
      && forall p :: p in s.posts && p != q ==> p in s'.posts && s'.posts[p] == s.posts[p]
  {
    hide Step, Run, OriginOf;
    var written := run;
    if Run(INIT, run).posts[q].Checked? {
      written := run + [PostWrite(q, Wrote)];
      OneMore(run, PostWrite(q, Wrote));
      WriteRaw(Run(INIT, run), q, id, up);
    }
    OneMore(written, PostInsert(q, true, 0));
    InsertRow(Run(INIT, written), q, id, up);
    next := (if written == run then [] else [PostWrite(q, Wrote)]) + [PostInsert(q, true, 0)];
    assert run + next == written + [PostInsert(q, true, 0)];
  }

  /** A post that is about to write its payload under an id that is on record with another one. */
  predicate Behind(s: State, o: Origin, p: nat, id: string, up: Upload) {
    p in s.posts && s.posts[p] == Checked(id, up) && id in s.t.reports && id in o && o[id].payload != up.payload
  }

  lemma MixedAt(s: State, o: Origin, r: string)
    requires r in s.t.reports && r in s.t.raw && r in o && s.t.raw[r] != o[r].payload
    ensures Mixed(s, o)
  {
  }

  lemma LateWriteMixes(run: seq<Action>, p: nat, id: string, up: Upload)
    requires Behind(Run(INIT, run), OriginOf(run), p, id, up)
    ensures Mixed(Run(INIT, run + [PostWrite(p, Wrote)]), OriginOf(run + [PostWrite(p, Wrote)]))
  {
    hide Step, Run, OriginOf, Mixed;
    OneMore(run, PostWrite(p, Wrote));
    WriteRaw(Run(INIT, run), p, id, up);
    MixedAt(Run(INIT, run + [PostWrite(p, Wrote)]), OriginOf(run + [PostWrite(p, Wrote)]), id);
  }

  lemma MeetsRow(run: seq<Action>, a: Action, id: string)
    requires Rivals(Run(INIT, run), OriginOf(run), a) && id in Run(INIT, run).t.reports
    requires SettleId(Run(INIT, run).t, a.uuid, a.up.device, a.spareId) == Some(id)
    ensures Behind(Run(INIT, run + [a]), OriginOf(run + [a]), a.p, id, a.up)
  {
    hide Step, Run, OriginOf, SettleId;
    OneMore(run, a);
    SettledStep(Run(INIT, run), a, id);
  }

  lemma MeetsPost(run: seq<Action>, a: Action, id: string, q: nat) returns (next: seq<Action>)
    requires var s := Run(INIT, run); a.PostCheck? && a.p !in s.posts && id !in s.t.reports && HeldBy(s, q, id, a.up.payload)
    requires SettleId(Run(INIT, run).t, a.uuid, a.up.device, a.spareId) == Some(id)
    ensures Behind(Run(INIT, run + [a] + next), OriginOf(run + [a] + next), a.p, id, a.up)
  {
    var s := Run(INIT, run);
    hide Step, Run, OriginOf, SettleId;
    OneMore(run, a);
    SettledStep(s, a, id);
    next := RivalInserts(run + [a], q, id, s.posts[q].up);
  }

  /** So the condition cannot be dropped anywhere: from every state in which a check meets a rival there is a
      continuation that leaves one upload's row with the other's payload. */
  lemma RivalsMixUp(run: seq<Action>, a: Action) returns (next: seq<Action>)
    requires Rivals(Run(INIT, run), OriginOf(run), a)
    ensures Mixed(Run(INIT, run + [a] + next), OriginOf(run + [a] + next))
  {
    var s := Run(INIT, run);
    var id := SettleId(s.t, a.uuid, a.up.device, a.spareId).value;
    next := [];
    if id in s.t.reports {
      hide Behind, Run, OriginOf, Mixed, SettleId;
      MeetsRow(run, a, id);
      assert run + [a] + next == run + [a];
    } else {
      var q :| HeldBy(s, q, id, a.up.payload);
      hide Behind, Run, OriginOf, Mixed, SettleId;
      next := MeetsPost(run, a, id, q);
    }
    hide Rivals, Behind, Run, OriginOf, Mixed, SettleId, HeldBy;
    LateWriteMixes(run + [a] + next, a.p, id, a.up);
    assert run + [a] + (next + [PostWrite(a.p, Wrote)]) == run + [a] + next + [PostWrite(a.p, Wrote)];
    next := next + [PostWrite(a.p, Wrote)];
  }
}
