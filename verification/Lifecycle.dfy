/** The life of a report: ingest, job claim, decode, group upsert, raw deletion and retention GC,
    as atomic steps of any number of posts, workers and GC tasks. Every SQL statement and every
    file operation is one step; each can fail, and every actor can die between two steps. */
module Lifecycle {
  import opened Wrappers
  import Groups
  import Transparency

  // ----- tables and files -----

  datatype Kind = KernelOops | Pstore

  function KindText(k: Kind): string {
    match k
    case KernelOops => "kernel_oops"
    case Pstore => "pstore"
  }

  datatype ReportState = Received | Decoded | Failed

  datatype Report = Report(device: Option<string>, kind: Kind, version: string, receivedAt: int,
                           state: ReportState, groupId: Option<nat>, rawDeletedAt: Option<int>)

  datatype JobState = Pending | Running | Done | GivenUp

  datatype Job = Job(report: string, state: JobState, attempts: nat)

  const MAX_ATTEMPTS: nat := 3

  /** The database rows, and the files under raw/ and decoded/ by report id. Job ids are UUIDs; only
      their order matters. */
  datatype Tables = Tables(reports: map<string, Report>, jobs: map<nat, Job>, groups: Groups.Table,
                           raw: map<string, string>, decoded: map<string, string>)

  // ----- actors -----

  datatype JobRef = JobRef(id: nat, report: string, attempts: nat)

  /** Where a worker is in `process_job` and `decode_report`. */
  datatype Worker =
    | Idle
    | Claimed(job: JobRef)
    | Loaded(job: JobRef, kind: Kind, version: string)
    | Texted(job: JobRef, kind: Kind, version: string, text: string)
    | Written(job: JobRef, kind: Kind, version: string, text: string)
    | Timed(job: JobRef, kind: Kind, version: string, text: string, at: int)
    | Upserted(job: JobRef, groupId: nat, at: int)
    | Marked(job: JobRef)
    | Finishing(job: JobRef)
    | Failing(job: JobRef)
    | FailingReport(job: JobRef)

  /** A GC task: the failed reports it selected, and whether it is past removing the first one's file. */
  datatype Gc = Gc(queue: seq<string>, removed: bool)

  datatype Upload = Upload(device: Option<string>, kind: Kind, version: string, payload: string)

  /** Where a post is in `post_report`, with the id it settled on. */
  datatype Post = Checked(id: string, up: Upload) | RawWritten(id: string, up: Upload) | RowInserted(id: string, up: Upload)

  /** `history` is the sequence of group upserts so far; the program does not keep it. */
  datatype State = State(t: Tables, workers: map<nat, Worker>, gcs: map<nat, Gc>, posts: map<nat, Post>,
                         history: seq<Groups.Entry>)

  const INIT := State(Tables(map[], map[], map[], map[], map[]), map[], map[], map[], [])

  /** A file write succeeds, leaves the file alone, or leaves a damaged file behind. */
  datatype WriteResult = Wrote | Untouched | Damaged(content: string)

  datatype Action =
    | Claim(w: nat)
    | Load(w: nat, ok: bool)
    | ReadRaw(w: nat, ok: bool, text: Option<string>)
    | WriteDecoded(w: nat, how: WriteResult)
    | ReadClock(w: nat, at: int)
    | UpsertGroup(w: nat, ok: bool, groupId: nat)
    | MarkDecoded(w: nat, ok: bool)
    | RemoveRaw(w: nat, ok: bool)
    | FinishJob(w: nat, ok: bool)
    | FailJob(w: nat, ok: bool)
    | FailReport(w: nat, ok: bool)
    | WorkerDies(w: nat)
    | GcSelect(g: nat, cutoff: int, rows: seq<string>)
    | GcRemove(g: nat, ok: bool)
    | GcMark(g: nat, ok: bool, at: int)
    | GcDies(g: nat)
    | PostCheck(p: nat, uuid: string, up: Upload, spareId: string)
    | PostWrite(p: nat, how: WriteResult)
    | PostInsert(p: nat, ok: bool, at: int)
    | PostEnqueue(p: nat, ok: bool, jobId: nat)
    | PostDies(p: nat)

  // ----- statements and file operations -----

  predicate IsNext(jobs: map<nat, Job>, j: nat) {
    && j in jobs && jobs[j].state == Pending
    && forall k :: k in jobs && jobs[k].state == Pending ==> j <= k
  }

  predicate AnyPending(jobs: map<nat, Job>) { exists j :: j in jobs && jobs[j].state == Pending }

  lemma NextExists(jobs: map<nat, Job>)
    requires AnyPending(jobs)
    ensures exists j :: IsNext(jobs, j)
  {
    var j :| j in jobs && jobs[j].state == Pending;
    LeastFrom(jobs, j);
  }

  lemma {:induction false} LeastFrom(jobs: map<nat, Job>, j: nat)
    requires j in jobs && jobs[j].state == Pending
    ensures exists k :: IsNext(jobs, k)
    decreases j
  {
    if !IsNext(jobs, j) {
      var k :| k in jobs && jobs[k].state == Pending && k < j;
      LeastFrom(jobs, k);
    }
  }

  /** The pending job with the least id. */
  ghost function Next(jobs: map<nat, Job>): (j: nat)
    requires AnyPending(jobs)
    ensures IsNext(jobs, j)
  {
    NextExists(jobs);
    var j :| j in jobs && IsNext(jobs, j);
    j
  }

  /** `UPDATE decode_job SET state = 'running', attempts = attempts + 1 ... RETURNING`. */
  function ClaimRow(t: Tables, j: nat): Tables
    requires j in t.jobs
  {
    t.(jobs := t.jobs[j := t.jobs[j].(state := Running, attempts := t.jobs[j].attempts + 1)])
  }

  function SetJob(t: Tables, j: nat, to: JobState): Tables {
    if j in t.jobs then t.(jobs := t.jobs[j := t.jobs[j].(state := to)]) else t
  }

  function SetDecoded(t: Tables, r: string, groupId: nat, at: int): Tables {
    if r in t.reports
    then t.(reports := t.reports[r := t.reports[r].(state := Decoded, groupId := Some(groupId), rawDeletedAt := Some(at))])
    else t
  }

  function SetFailed(t: Tables, r: string): Tables {
    if r in t.reports then t.(reports := t.reports[r := t.reports[r].(state := Failed)]) else t
  }

  function SetRawDeleted(t: Tables, r: string, at: int): Tables {
    if r in t.reports then t.(reports := t.reports[r := t.reports[r].(rawDeletedAt := Some(at))]) else t
  }

  function WriteFile(files: map<string, string>, id: string, content: string, how: WriteResult): map<string, string> {
    match how
    case Wrote => files[id := content]
    case Untouched => files
    case Damaged(c) => files[id := c]
  }

  /** What the upsert of a decoded text binds. */
  function EntryOf(kind: Kind, version: string, text: string, at: int, newId: nat): Groups.Entry {
    var sig := Transparency.Classified(KindText(kind), text);
    Groups.Entry(sig.input, KindText(kind), sig.title, sig.modules, at, version, newId)
  }

  /** The rows that `gc_failed_raw` selects. */
  predicate Collectable(t: Tables, cutoff: int, r: string) {
    r in t.reports && t.reports[r].state == Failed && t.reports[r].rawDeletedAt.None?
    && t.reports[r].receivedAt < cutoff
  }

  // ----- steps -----

  function Pc(s: State, w: nat): Worker { if w in s.workers then s.workers[w] else Idle }

  function At(s: State, w: nat, t: Tables, pc: Worker): State { s.(t := t, workers := s.workers[w := pc]) }

  // A worker's steps; a step that the worker is not ready for does nothing.

  ghost function ClaimStep(s: State, w: nat): State {
    if Pc(s, w).Idle? && AnyPending(s.t.jobs) then
      var j := Next(s.t.jobs);
      At(s, w, ClaimRow(s.t, j), Claimed(JobRef(j, s.t.jobs[j].report, s.t.jobs[j].attempts + 1)))
    else s
  }

  function LoadStep(s: State, w: nat, ok: bool): State {
    match Pc(s, w)
    case Claimed(job) =>
      if ok && job.report in s.t.reports
      then At(s, w, s.t, Loaded(job, s.t.reports[job.report].kind, s.t.reports[job.report].version))
      else At(s, w, s.t, Failing(job))
    case _ => s
  }

  /** Reading the raw file and turning it into scrubbed, symbolised text. */
  function ReadStep(s: State, w: nat, ok: bool, text: Option<string>): State {
    match Pc(s, w)
    case Loaded(job, kind, version) =>
      if ok && job.report in s.t.raw && text.Some?
      then At(s, w, s.t, Texted(job, kind, version, text.value))
      else At(s, w, s.t, Failing(job))
    case _ => s
  }

  function WriteStep(s: State, w: nat, how: WriteResult): State {
    match Pc(s, w)
    case Texted(job, kind, version, text) =>
      At(s, w, s.t.(decoded := WriteFile(s.t.decoded, job.report, text, how)),
         if how.Wrote? then Written(job, kind, version, text) else Failing(job))
    case _ => s
  }

  /** `now()` before the upsert. */
  function ClockStep(s: State, w: nat, at: int): State {
    match Pc(s, w)
    case Written(job, kind, version, text) => At(s, w, s.t, Timed(job, kind, version, text, at))
    case _ => s
  }

  function UpsertStep(s: State, w: nat, ok: bool, newId: nat): State {
    match Pc(s, w)
    case Timed(job, kind, version, text, at) =>
      var e := EntryOf(kind, version, text, at, newId);
      if ok && Groups.CanUpsert(s.t.groups, e) then
        var groups := Groups.Upsert(s.t.groups, e);
        At(s, w, s.t.(groups := groups), Upserted(job, groups[e.signature].id, at)).(history := s.history + [e])
      else At(s, w, s.t, Failing(job))
    case _ => s
  }

  function MarkStep(s: State, w: nat, ok: bool): State {
    match Pc(s, w)
    case Upserted(job, groupId, at) =>
      if ok then At(s, w, SetDecoded(s.t, job.report, groupId, at), Marked(job))
      else At(s, w, s.t, Failing(job))
    case _ => s
  }

  function RemoveStep(s: State, w: nat, ok: bool): State {
    match Pc(s, w)
    case Marked(job) =>
      if ok && job.report in s.t.raw
      then At(s, w, s.t.(raw := s.t.raw - {job.report}), Finishing(job))
      else At(s, w, s.t, Failing(job))
    case _ => s
  }

  function FinishStep(s: State, w: nat, ok: bool): State {
    match Pc(s, w)
    case Finishing(job) => At(s, w, if ok then SetJob(s.t, job.id, Done) else s.t, Idle)
    case _ => s
  }

  function FailJobStep(s: State, w: nat, ok: bool): State {
    match Pc(s, w)
    case Failing(job) =>
      var to := if job.attempts >= MAX_ATTEMPTS then GivenUp else Pending;
      At(s, w, if ok then SetJob(s.t, job.id, to) else s.t, if to.GivenUp? then FailingReport(job) else Idle)
    case _ => s
  }

  function FailReportStep(s: State, w: nat, ok: bool): State {
    match Pc(s, w)
    case FailingReport(job) => At(s, w, if ok then SetFailed(s.t, job.report) else s.t, Idle)
    case _ => s
  }

  function DieStep(s: State, w: nat): State { s.(workers := s.workers[w := Idle]) }

  ghost function WorkerStep(s: State, a: Action): State {
    match a
    case Claim(w) => ClaimStep(s, w)
    case Load(w, ok) => LoadStep(s, w, ok)
    case ReadRaw(w, ok, text) => ReadStep(s, w, ok, text)
    case WriteDecoded(w, how) => WriteStep(s, w, how)
    case ReadClock(w, at) => ClockStep(s, w, at)
    case UpsertGroup(w, ok, newId) => UpsertStep(s, w, ok, newId)
    case MarkDecoded(w, ok) => MarkStep(s, w, ok)
    case RemoveRaw(w, ok) => RemoveStep(s, w, ok)
    case FinishJob(w, ok) => FinishStep(s, w, ok)
    case FailJob(w, ok) => FailJobStep(s, w, ok)
    case FailReport(w, ok) => FailReportStep(s, w, ok)
    case WorkerDies(w) => DieStep(s, w)
    case _ => s
  }

  function GcStep(s: State, a: Action): State {
    match a
    case GcSelect(g, cutoff, rows) =>
      if (g !in s.gcs || s.gcs[g].queue == [])
         && (forall r :: r in rows ==> Collectable(s.t, cutoff, r))
         && (forall r :: r in s.t.reports && Collectable(s.t, cutoff, r) ==> r in rows)
      then s.(gcs := s.gcs[g := Gc(rows, false)]) else s
    case GcRemove(g, ok) =>
      if g in s.gcs && s.gcs[g].queue != [] && !s.gcs[g].removed then
        var r := s.gcs[g].queue[0];
        s.(t := if ok then s.t.(raw := s.t.raw - {r}) else s.t, gcs := s.gcs[g := s.gcs[g].(removed := true)])
      else s
    case GcMark(g, ok, at) =>
      if g in s.gcs && s.gcs[g].queue != [] && s.gcs[g].removed then
        var r := s.gcs[g].queue[0];
        s.(t := if ok then SetRawDeleted(s.t, r, at) else s.t, gcs := s.gcs[g := Gc(s.gcs[g].queue[1..], false)])
      else s
    case GcDies(g) => s.(gcs := s.gcs - {g})
    case _ => s
  }

  /** The id a post settles on, or none for a re-upload by the device that owns the report. */
  function SettleId(t: Tables, uuid: string, device: Option<string>, spareId: string): Option<string> {
    if uuid !in t.reports then Some(uuid)
    else if t.reports[uuid].device.Some? && t.reports[uuid].device == device then None
    else Some(spareId)
  }

  function PostStep(s: State, a: Action): State {
    match a
    case PostCheck(p, uuid, up, spareId) =>
      if p in s.posts then s
      else
        (match SettleId(s.t, uuid, up.device, spareId)
         case Some(id) => s.(posts := s.posts[p := Checked(id, up)])
         case None => s)
    case PostWrite(p, how) =>
      if p in s.posts && s.posts[p].Checked? then
        var id, up := s.posts[p].id, s.posts[p].up;
        s.(t := s.t.(raw := WriteFile(s.t.raw, id, up.payload, how)),
           posts := if how.Wrote? then s.posts[p := RawWritten(id, up)] else s.posts - {p})
      else s
    case PostInsert(p, ok, at) =>
      if p in s.posts && s.posts[p].RawWritten? then
        var id, up := s.posts[p].id, s.posts[p].up;
        if ok && id !in s.t.reports
        then s.(t := s.t.(reports := s.t.reports[id := Report(up.device, up.kind, up.version, at, Received, None, None)]),
                posts := s.posts[p := RowInserted(id, up)])
        else s.(posts := s.posts - {p})
      else s
    case PostEnqueue(p, ok, jobId) =>
      if p in s.posts && s.posts[p].RowInserted? then
        var id := s.posts[p].id;
        s.(t := if ok && jobId !in s.t.jobs then s.t.(jobs := s.t.jobs[jobId := Job(id, Pending, 0)]) else s.t,
           posts := s.posts - {p})
      else s
    case PostDies(p) => s.(posts := s.posts - {p})
    case _ => s
  }

  predicate IsGcAction(a: Action) { a.GcSelect? || a.GcRemove? || a.GcMark? || a.GcDies? }

  predicate IsPostAction(a: Action) { a.PostCheck? || a.PostWrite? || a.PostInsert? || a.PostEnqueue? || a.PostDies? }

  ghost function Step(s: State, a: Action): State {
    if IsGcAction(a) then GcStep(s, a) else if IsPostAction(a) then PostStep(s, a) else WorkerStep(s, a)
  }

  /** The state after a run, in any interleaving of the actors. */
  ghost function Run(s: State, run: seq<Action>): State {
    if run == [] then s else Step(Run(s, run[..|run| - 1]), run[|run| - 1])
  }
}
