/** The server's side of ingest: `post_report` as one call, and what it does over whole runs. */
module Ingest {
  import opened Wrappers
  import opened Lifecycle
  import opened LifecycleJobs

  /** What the outside world answers during one post: fresh ids, the clock, and which operations succeed. */
  datatype PostIo = PostIo(spareId: string, write: WriteResult, insert: bool, at: int, enqueue: bool, jobId: nat)

  // ----- an uninterrupted post, as steps of the interleaved system -----

  function Enqueued(s: State, p: nat, io: PostIo): State { PostStep(s, PostEnqueue(p, io.enqueue, io.jobId)) }

  function Inserted(s: State, p: nat, io: PostIo): State { Enqueued(PostStep(s, PostInsert(p, io.insert, io.at)), p, io) }

  function Stored(s: State, p: nat, io: PostIo): State { Inserted(PostStep(s, PostWrite(p, io.write)), p, io) }

  function PostAll(s: State, p: nat, uuid: string, up: Upload, io: PostIo): State {
    Stored(PostStep(s, PostCheck(p, uuid, up, io.spareId)), p, io)
  }

  /** How a post ends: nothing written, a raw file without a row, a row without a job, or all three. */
  datatype Outcome = Unchanged | Stray(content: string) | Orphan | Accepted

  function OutcomeOf(t: Tables, id: string, up: Upload, io: PostIo): Outcome {
    match io.write
    case Untouched => Unchanged
    case Damaged(c) => Stray(c)
    case Wrote =>
      if !io.insert || id in t.reports then Stray(up.payload)
      else if !io.enqueue || io.jobId in t.jobs then Orphan
      else Accepted
  }

  function Row(up: Upload, at: int): Report { Report(up.device, up.kind, up.version, at, Received, None, None) }

  /** The tables after a post that settled on `id`. */
  function After(t: Tables, id: string, up: Upload, io: PostIo): Tables {
    match OutcomeOf(t, id, up, io)
    case Unchanged => t
    case Stray(c) => t.(raw := t.raw[id := c])
    case Orphan => t.(raw := t.raw[id := up.payload], reports := t.reports[id := Row(up, io.at)])
    case Accepted => t.(raw := t.raw[id := up.payload], reports := t.reports[id := Row(up, io.at)],
                        jobs := t.jobs[io.jobId := Job(id, Pending, 0)])
  }

  /** The id in the response. */
  function Answer(t: Tables, uuid: string, up: Upload, io: PostIo): Option<string> {
    match SettleId(t, uuid, up.device, io.spareId)
    case None => Some(uuid)
    case Some(id) => if OutcomeOf(t, id, up, io) == Accepted then Some(id) else None
  }

  /** The four steps in a row write the settled id's file, row and job and nothing else. */
  lemma PostIsAfter(s: State, p: nat, uuid: string, up: Upload, io: PostIo)
    requires p !in s.posts
    ensures PostAll(s, p, uuid, up, io) ==
      match SettleId(s.t, uuid, up.device, io.spareId)
      case None => s
      case Some(id) => s.(t := After(s.t, id, up, io))
  {
    match SettleId(s.t, uuid, up.device, io.spareId) {
      case None =>
      case Some(id) =>
        var s1 := s.(posts := s.posts[p := Checked(id, up)]);
        assert s.posts[p := Checked(id, up)] - {p} == s.posts;
        StoredIsAfter(s, s1, p, id, up, io);
    }
  }

  lemma StoredIsAfter(s: State, s1: State, p: nat, id: string, up: Upload, io: PostIo)
    requires p !in s.posts && s1 == s.(posts := s.posts[p := Checked(id, up)])
    ensures Stored(s1, p, io) == s.(t := After(s.t, id, up, io))
  {
    assert s1.posts - {p} == s.posts;
    if io.write.Wrote? {
      var written := s.(t := s.t.(raw := s.t.raw[id := up.payload]), posts := s.posts[p := RawWritten(id, up)]);
      assert s1.posts[p := RawWritten(id, up)] == written.posts;
      assert PostStep(s1, PostWrite(p, io.write)) == written;
      InsertedIsAfter(s, written, p, id, up, io);
    }
  }

  lemma InsertedIsAfter(s: State, written: State, p: nat, id: string, up: Upload, io: PostIo)
    requires p !in s.posts && io.write.Wrote?
    requires written == s.(t := s.t.(raw := s.t.raw[id := up.payload]), posts := s.posts[p := RawWritten(id, up)])
    ensures Inserted(written, p, io) == s.(t := After(s.t, id, up, io))
  {
    hide WriteFile, SettleId;
    assert written.posts - {p} == s.posts;
    assert written.posts[p := RowInserted(id, up)] - {p} == s.posts;
  }

  /** Where a post of an id that is not on record finds every operation succeed. */
  predicate Succeeds(t: Tables, io: PostIo) { io.write.Wrote? && io.insert && io.enqueue && io.jobId !in t.jobs }

  lemma AfterSuccess(t: Tables, id: string, up: Upload, io: PostIo)
    requires id !in t.reports && Succeeds(t, io)
    ensures OutcomeOf(t, id, up, io) == Accepted
    ensures After(t, id, up, io) == t.(
      raw := t.raw[id := up.payload], jobs := t.jobs[io.jobId := Job(id, Pending, 0)],
      reports := t.reports[id := Report(up.device, up.kind, up.version, io.at, Received, None, None)])
  {
  }

  predicate SameOf(t: Tables, t': Tables, id: string) {
    && id in t'.reports && id in t.reports && t'.reports[id] == t.reports[id]
    && (id in t'.raw <==> id in t.raw) && (id in t.raw ==> t'.raw[id] == t.raw[id])
  }

  /** What is stored under one id leaves every other one alone. */
  lemma AfterElsewhere(t: Tables, id: string, up: Upload, io: PostIo, other: string)
    requires other in t.reports && id != other
    ensures SameOf(t, After(t, id, up, io), other)
    ensures forall j :: j in After(t, id, up, io).jobs && After(t, id, up, io).jobs[j].report == other ==>
      j in t.jobs && t.jobs[j] == After(t, id, up, io).jobs[j]
  {
  }

  // ----- the code -----

  class Server {
    var reports: map<string, Report>
    var jobs: map<nat, Job>
    var raw: map<string, string>

    constructor ()
      ensures reports == map[] && jobs == map[] && raw == map[]
    {
      reports, jobs, raw := map[], map[], map[];
    }

    /** The system with this server's tables in it. */
    ghost function In(s: State): State
      reads this
    {
      s.(t := s.t.(reports := reports, jobs := jobs, raw := raw))
    }

    /** The three writes of `post_report`: file, row, job. */
    method Store(id: string, up: Upload, io: PostIo, ghost rest: State) returns (ok: bool)
      modifies this
      ensures In(rest) == old(In(rest)).(t := After(old(In(rest)).t, id, up, io))
      ensures ok <==> OutcomeOf(old(In(rest)).t, id, up, io) == Accepted
    {
      raw := WriteFile(raw, id, up.payload, io.write);
      if !io.write.Wrote? {
        return false;
      }
      if !io.insert || id in reports {
        return false;
      }
      reports := reports[id := Row(up, io.at)];
      if !io.enqueue || io.jobId in jobs {
        return false;
      }
      jobs := jobs[io.jobId := Job(id, Pending, 0)];
      return true;
    }

    /** `post_report`, from the id check on. Whatever the rest of the system is doing, the call is the
        four steps of a post in a row; the answer is the id, and without one the client is told to retry.
        It is given exactly if the report is on record as this device's own already or all is stored now. */
    method PostReport(uuid: string, up: Upload, io: PostIo, ghost p: nat, ghost rest: State) returns (r: Option<string>)
      requires p !in rest.posts
      modifies this
      ensures In(rest) == PostAll(old(In(rest)), p, uuid, up, io)
      ensures r == Answer(old(In(rest)).t, uuid, up, io)
      // a first upload
      ensures uuid !in old(reports) && io.write.Wrote? && io.insert && io.enqueue && io.jobId !in old(jobs) ==>
        && r == Some(uuid) && raw == old(raw)[uuid := up.payload] && jobs == old(jobs)[io.jobId := Job(uuid, Pending, 0)]
        && reports == old(reports)[uuid := Report(up.device, up.kind, up.version, io.at, Received, None, None)]
      // again by its device
      ensures uuid in old(reports) && old(reports)[uuid].device.Some? && old(reports)[uuid].device == up.device ==>
        r == Some(uuid) && reports == old(reports) && jobs == old(jobs) && raw == old(raw)
      // an id of another's
      ensures uuid in old(reports) && (old(reports)[uuid].device.None? || old(reports)[uuid].device != up.device) && io.spareId != uuid ==>
        && r != Some(uuid) && uuid in reports && reports[uuid] == old(reports)[uuid]
        && (uuid in raw <==> uuid in old(raw)) && (uuid in raw ==> raw[uuid] == old(raw)[uuid])
    {
      hide PostAll, After, OutcomeOf;
      PostIsAfter(In(rest), p, uuid, up, io);
      if uuid !in reports && Succeeds(In(rest).t, io) { AfterSuccess(In(rest).t, uuid, up, io); }
      if uuid in reports && io.spareId != uuid { AfterElsewhere(In(rest).t, io.spareId, up, io, uuid); }
      var id := uuid;
      if uuid in reports {
        var owner := reports[uuid].device;
        if owner.Some? && owner == up.device {
          return Some(uuid);
        }
        id := io.spareId;
      }
      var ok := Store(id, up, io, rest);
      return if ok then Some(id) else None;
    }
  }

  // ----- over whole runs -----

  /** A row keeps who sent it, what it is and when it came. */
  ghost predicate SameOrigin(before: map<string, Report>, after: map<string, Report>) {
    forall r :: r in before ==>
      && r in after && after[r].device == before[r].device && after[r].kind == before[r].kind
      && after[r].version == before[r].version && after[r].receivedAt == before[r].receivedAt
  }

  /** Workers and GC tasks add no rows and no jobs, move no job to another report and only ever remove raw files. */
  ghost predicate Kept(t: Tables, t': Tables) {
    && SameOrigin(t.reports, t'.reports) && (forall r :: r in t'.reports ==> r in t.reports)
    && (forall j :: j in t.jobs <==> j in t'.jobs)
    && (forall j :: j in t'.jobs ==> t'.jobs[j].report == t.jobs[j].report)
    && forall r :: r in t'.raw ==> r in t.raw && t'.raw[r] == t.raw[r]
  }

  ghost predicate Frame(s: State, s': State) { s'.posts == s.posts && Kept(s.t, s'.t) }

  lemma SetJobKeeps(t: Tables, j: nat, to: JobState)
    ensures Kept(t, SetJob(t, j, to)) && Kept(t, t)
  {
  }

  lemma RowKeeps(t: Tables, r: string, row: Report)
    requires r in t.reports && row.device == t.reports[r].device && row.kind == t.reports[r].kind
    requires row.version == t.reports[r].version && row.receivedAt == t.reports[r].receivedAt
    ensures Kept(t, t.(reports := t.reports[r := row]))
  {
  }

  lemma SetReportKeeps(t: Tables, r: string, groupId: nat, at: int)
    ensures Kept(t, SetDecoded(t, r, groupId, at)) && Kept(t, SetFailed(t, r))
  {
    hide Kept;
    if r in t.reports {
      RowKeeps(t, r, t.reports[r].(state := Decoded, groupId := Some(groupId), rawDeletedAt := Some(at)));
      RowKeeps(t, r, t.reports[r].(state := Failed));
    } else {
      SetJobKeeps(t, 0, Done);
    }
  }

  lemma FilesKeep(t: Tables, t': Tables, r: string)
    requires t'.reports == t.reports && t'.jobs == t.jobs && (t'.raw == t.raw || t'.raw == t.raw - {r})
    ensures Kept(t, t')
  {
  }

  lemma ReadingFrame(s: State, w: nat, ok: bool, text: Option<string>, how: WriteResult, at: int)
    ensures Frame(s, LoadStep(s, w, ok)) && Frame(s, ReadStep(s, w, ok, text))
    ensures Frame(s, WriteStep(s, w, how)) && Frame(s, ClockStep(s, w, at)) && Frame(s, DieStep(s, w))
  {
    hide WriteFile, Kept;
    FilesKeep(s.t, s.t, "");
    FilesKeep(s.t, WriteStep(s, w, how).t, "");
  }

  lemma UpsertFrame(s: State, w: nat, ok: bool, newId: nat)
    ensures Frame(s, UpsertStep(s, w, ok, newId))
  {
    hide EntryOf, Groups.CanUpsert, Groups.Upsert, Kept;
    var t' := UpsertStep(s, w, ok, newId).t;
    assert t'.reports == s.t.reports && t'.jobs == s.t.jobs && t'.raw == s.t.raw;
    FilesKeep(s.t, t', "");
  }

  lemma RemoveFrame(s: State, w: nat, ok: bool)
    ensures Frame(s, RemoveStep(s, w, ok))
  {
    hide Kept;
    var pc := Pc(s, w);
    FilesKeep(s.t, RemoveStep(s, w, ok).t, if pc.Marked? then pc.job.report else "");
  }

  lemma MarkFrame(s: State, w: nat, ok: bool)
    ensures Frame(s, MarkStep(s, w, ok))
  {
    hide SetDecoded, Kept;
    SetJobKeeps(s.t, 0, Done);
    if Pc(s, w).Upserted? {
      SetReportKeeps(s.t, Pc(s, w).job.report, Pc(s, w).groupId, Pc(s, w).at);
    }
  }

  lemma EndingFrame(s: State, w: nat, ok: bool)
    ensures Frame(s, FinishStep(s, w, ok)) && Frame(s, FailJobStep(s, w, ok)) && Frame(s, FailReportStep(s, w, ok))
  {
    hide SetJob, SetFailed, Kept;
    var pc := Pc(s, w);
    SetJobKeeps(s.t, 0, Done);
    if !pc.Idle? {
      SetJobKeeps(s.t, pc.job.id, Done);
      SetJobKeeps(s.t, pc.job.id, if pc.job.attempts >= MAX_ATTEMPTS then GivenUp else Pending);
      SetReportKeeps(s.t, pc.job.report, 0, 0);
    }
  }

  lemma ClaimFrame(s: State, w: nat)
    ensures Frame(s, ClaimStep(s, w))
  {
  }

  lemma GcFrame(s: State, a: Action)
    ensures Frame(s, GcStep(s, a))
  {
    hide Collectable;
  }

  lemma OthersFrame(s: State, a: Action)
    requires !IsPostAction(a)
    ensures Frame(s, Step(s, a))
  {
    hide Frame, GcStep, ClaimStep, LoadStep, ReadStep, WriteStep, ClockStep, UpsertStep, MarkStep, RemoveStep, FinishStep,
      FailJobStep, FailReportStep, DieStep;
    match a
    case Claim(w) => ClaimFrame(s, w);
    case Load(w, ok) => ReadingFrame(s, w, ok, None, Untouched, 0);
    case ReadRaw(w, ok, text) => ReadingFrame(s, w, ok, text, Untouched, 0);
    case WriteDecoded(w, how) => ReadingFrame(s, w, true, None, how, 0);
    case ReadClock(w, at) => ReadingFrame(s, w, true, None, Untouched, at);
    case UpsertGroup(w, ok, newId) => UpsertFrame(s, w, ok, newId);
    case MarkDecoded(w, ok) => MarkFrame(s, w, ok);
    case RemoveRaw(w, ok) => RemoveFrame(s, w, ok);
    case FinishJob(w, ok) => EndingFrame(s, w, ok);
    case FailJob(w, ok) => EndingFrame(s, w, ok);
    case FailReport(w, ok) => EndingFrame(s, w, ok);
    case WorkerDies(w) => ReadingFrame(s, w, true, None, Untouched, 0);
    case _ => GcFrame(s, a);
  }

  lemma PostKeepsOrigin(s: State, a: Action)
    ensures SameOrigin(s.t.reports, PostStep(s, a).t.reports)
  {
    hide WriteFile, SettleId;
  }

  lemma StepKeepsOrigin(s: State, a: Action)
    ensures SameOrigin(s.t.reports, Step(s, a).t.reports)
  {
    hide PostStep, GcStep, WorkerStep, SameOrigin;
    if IsPostAction(a) {
      PostKeepsOrigin(s, a);
    } else {
      OthersFrame(s, a);
    }
  }

  lemma {:induction false} RunKeepsOrigin(s: State, run: seq<Action>)
    ensures SameOrigin(s.t.reports, Run(s, run).t.reports)
  {
    hide Step;
    if run != [] {
      RunKeepsOrigin(s, run[..|run| - 1]);
      StepKeepsOrigin(Run(s, run[..|run| - 1]), run[|run| - 1]);
    }
  }

  /** Retrying is safe at any later time: once a device has its report on record, another upload of that
      id by the same device, at any point of any run, changes nothing at all. */
  lemma RetryChangesNothing(s: State, run: seq<Action>, p: nat, uuid: string, up: Upload, io: PostIo)
    requires uuid in s.t.reports && s.t.reports[uuid].device.Some? && up.device == s.t.reports[uuid].device
    requires p !in Run(s, run).posts
    ensures PostAll(Run(s, run), p, uuid, up, io) == Run(s, run)
  {
    hide Run, After;
    RunKeepsOrigin(s, run);
    PostIsAfter(Run(s, run), p, uuid, up, io);
  }

  // ----- the id of an upload -----

  /** It is stored under its own id, and nothing else changes. */
  lemma FirstPost(s: State, p: nat, uuid: string, up: Upload, io: PostIo)
    requires p !in s.posts && uuid !in s.t.reports && Succeeds(s.t, io)
    ensures PostAll(s, p, uuid, up, io) == s.(t := s.t.(
      raw := s.t.raw[uuid := up.payload], jobs := s.t.jobs[io.jobId := Job(uuid, Pending, 0)],
      reports := s.t.reports[uuid := Report(up.device, up.kind, up.version, io.at, Received, None, None)]))
  {
    hide PostAll, After;
    PostIsAfter(s, p, uuid, up, io);
    AfterSuccess(s.t, uuid, up, io);
  }

  /** Uploads are idempotent: after any run, whatever it did, the report is on record under its id, and another
      post of it by its device changes nothing. */
  lemma PostTwice(s: State, p: nat, uuid: string, up: Upload, io: PostIo, run: seq<Action>, q: nat, up': Upload, io': PostIo)
    requires p !in s.posts && uuid !in s.t.reports && Succeeds(s.t, io) && up.device.Some? && up'.device == up.device
    requires q !in Run(PostAll(s, p, uuid, up, io), run).posts
    ensures var s' := Run(PostAll(s, p, uuid, up, io), run);
      && uuid in s'.t.reports && s'.t.reports[uuid].device == up.device && s'.t.reports[uuid].kind == up.kind
      && s'.t.reports[uuid].version == up.version && s'.t.reports[uuid].receivedAt == io.at
      && PostAll(s', q, uuid, up', io') == s'
  {
    hide Run, PostAll;
    FirstPost(s, p, uuid, up, io);
    var s1 := PostAll(s, p, uuid, up, io);
    RunKeepsOrigin(s1, run);
    RetryChangesNothing(s1, run, q, uuid, up', io');
  }

  /** A post of an id that belongs to another device, or to none, touches neither its row nor its file. */
  lemma OthersIdUntouched(s: State, p: nat, uuid: string, up: Upload, io: PostIo)
    requires p !in s.posts && uuid in s.t.reports && io.spareId != uuid
    requires s.t.reports[uuid].device.None? || s.t.reports[uuid].device != up.device
    ensures var t, t' := s.t, PostAll(s, p, uuid, up, io).t;
      && SameOf(t, t', uuid)
      && forall j :: j in t'.jobs && t'.jobs[j].report == uuid ==> j in t.jobs && t.jobs[j] == t'.jobs[j]
  {
    hide PostAll, After;
    PostIsAfter(s, p, uuid, up, io);
    AfterElsewhere(s.t, io.spareId, up, io, uuid);
  }

  // ----- a row whose job was lost -----

  /** A report on record that has no job and that no post is about to enqueue. */
  ghost predicate Stranded(s: State, id: string) {
    && id in s.t.reports
    && (forall j :: j in s.t.jobs ==> s.t.jobs[j].report != id)
    && forall p :: p in s.posts && s.posts[p].RowInserted? ==> s.posts[p].id != id
  }

  /** A post that has inserted its row ends without a job: its INSERT fails, or it dies. */
  predicate LosesJob(s: State, p: nat, a: Action) {
    p in s.posts && s.posts[p].RowInserted?
    && (a == PostDies(p) || (a.PostEnqueue? && a.p == p && (!a.ok || a.jobId in s.t.jobs)))
  }

  ghost predicate LosesJobOf(s: State, a: Action, id: string) {
    exists p :: LosesJob(s, p, a) && s.posts[p].id == id
  }

  lemma PostStrands(s: State, a: Action, id: string)
    requires Enqueuing(s) && IsPostAction(a)
    ensures Stranded(PostStep(s, a), id) <==> Stranded(s, id) || LosesJobOf(s, a, id)
  {
    hide WriteFile, SettleId;
    var s' := PostStep(s, a);
    if LosesJobOf(s, a, id) {
      var p :| LosesJob(s, p, a) && s.posts[p].id == id;
      LosingStrands(s, p, a);
    } else if Stranded(s, id) {
      PostKeepsStranded(s, a, id);
    } else {
      PostKeepsJob(s, a, id);
    }
  }

  lemma LosingStrands(s: State, p: nat, a: Action)
    requires Enqueuing(s) && LosesJob(s, p, a)
    ensures Stranded(PostStep(s, a), s.posts[p].id)
  {
    hide SettleId, WriteFile;
  }

  lemma PostKeepsStranded(s: State, a: Action, id: string)
    requires Stranded(s, id)
    ensures Stranded(PostStep(s, a), id)
  {
    hide WriteFile, SettleId;
  }

  lemma PostKeepsJob(s: State, a: Action, id: string)
    requires !Stranded(s, id) && !LosesJobOf(s, a, id)
    ensures !Stranded(PostStep(s, a), id)
  {
    hide WriteFile, SettleId, LosesJobOf;
    var s' := PostStep(s, a);
    if id !in s.t.reports {
      if id in s'.t.reports {
        assert a.PostInsert? && s'.posts[a.p] == RowInserted(id, s.posts[a.p].up);
      }
    } else if j :| j in s.t.jobs && s.t.jobs[j].report == id {
      assert j in s'.t.jobs && s'.t.jobs[j].report == id;
    } else {
      var p :| p in s.posts && s.posts[p].RowInserted? && s.posts[p].id == id;
      assert !LosesJob(s, p, a) by { NotLost(s, a, p, id); }
      PostGoesOn(s, a, p);
    }
  }

  lemma NotLost(s: State, a: Action, p: nat, id: string)
    requires !LosesJobOf(s, a, id) && p in s.posts && s.posts[p].id == id
    ensures !LosesJob(s, p, a)
  {
    hide LosesJob;
  }

  /** A post that does not lose its job still has it before it, or has just added it. */
  lemma PostGoesOn(s: State, a: Action, p: nat)
    requires p in s.posts && s.posts[p].RowInserted? && !LosesJob(s, p, a)
    ensures !Stranded(PostStep(s, a), s.posts[p].id)
  {
    hide WriteFile, SettleId;
    var s' := PostStep(s, a);
    if a.PostEnqueue? && a.p == p {
      assert s'.t.jobs[a.jobId].report == s.posts[p].id;
    } else {
      assert p in s'.posts && s'.posts[p] == s.posts[p];
    }
  }

  lemma FrameStrands(s: State, s': State, id: string)
    requires Frame(s, s')
    ensures Stranded(s', id) <==> Stranded(s, id)
  {
    if !Stranded(s, id) && id in s.t.reports && exists j :: j in s.t.jobs && s.t.jobs[j].report == id {
      var j :| j in s.t.jobs && s.t.jobs[j].report == id;
      assert s'.t.jobs[j].report == id;
    }
  }

  /** The action at position `i` of the run lost the job of this report. */
  ghost predicate LostAt(run: seq<Action>, i: nat, id: string)
    requires i < |run|
  {
    LosesJobOf(Run(INIT, run[..i]), run[i], id)
  }

  lemma StepStrands(s: State, a: Action, id: string)
    requires Enqueuing(s)
    ensures Stranded(Step(s, a), id) <==> Stranded(s, id) || LosesJobOf(s, a, id)
  {
    hide Stranded, Frame, PostStep, GcStep, WorkerStep, Enqueuing;
    if IsPostAction(a) {
      PostStrands(s, a, id);
    } else {
      OthersFrame(s, a);
      FrameStrands(s, Step(s, a), id);
    }
  }

  lemma EnqueuingAfter(run: seq<Action>)
    ensures Enqueuing(Run(INIT, run))
  {
    hide Run, Enqueuing, JobRows, Held, Exclusive;
    JobsSafe(run);
  }

  /** After any run a report on record has no job, and no post that is about to add one, exactly if some
      action of the run lost it between the row and the job: a failed INSERT or a post that died. Retries of
      the device do not mend it. */
  lemma {:induction false} StrandedIff(run: seq<Action>, id: string)
    ensures Stranded(Run(INIT, run), id) <==> exists i :: 0 <= i < |run| && LostAt(run, i, id)
  {
    hide Step, Stranded, LosesJobOf, LostAt, Enqueuing;
    if run == [] {
      NothingStranded(id);
    } else {
      var before, a := run[..|run| - 1], run[|run| - 1];
      StrandedIff(before, id);
      EnqueuingAfter(before);
      StepStrands(Run(INIT, before), a, id);
      LostIn(run, |before|, id);
      LastLost(run, id);
    }
  }

  lemma LastLost(run: seq<Action>, id: string)
    requires run != []
    ensures LostAt(run, |run| - 1, id) <==> LosesJobOf(Run(INIT, run[..|run| - 1]), run[|run| - 1], id)
  {
    hide LosesJobOf, Run;
  }

  lemma LostIn(run: seq<Action>, n: nat, id: string)
    requires n <= |run|
    ensures forall i :: 0 <= i < n ==> (LostAt(run, i, id) <==> LostAt(run[..n], i, id))
  {
    hide LosesJobOf, Run;
    forall i | 0 <= i < n ensures LostAt(run, i, id) <==> LostAt(run[..n], i, id) {
      assert run[..n][..i] == run[..i];
    }
  }

  lemma NothingStranded(id: string)
    ensures !Stranded(INIT, id)
  {
  }
}
