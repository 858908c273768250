/** The decoder's code, statement by statement: `claim_job`, `process_job`, `decode_report`,
    `gc_failed_raw` and the drain loop of the worker binary. */
module Decoder {
  import opened Wrappers
  import Groups
  import opened Lifecycle
  import opened LifecycleDrain

  // ----- how often a queue can be worked on -----

  /** Attempts that a pending job has left. */
  function Left(j: Job): nat { if j.state == Pending && j.attempts < MAX_ATTEMPTS then MAX_ATTEMPTS - j.attempts else 0 }

  /** Pending jobs have attempts left, as in every reachable state. */
  ghost predicate Retriable(jobs: map<nat, Job>) {
    forall j :: j in jobs && jobs[j].state == Pending ==> jobs[j].attempts < MAX_ATTEMPTS
  }

  /** Claiming a job takes all its attempts off the account. */
  lemma ClaimUses(jobs: map<nat, Job>, job: JobRef)
    requires Retriable(jobs) && job.id in jobs && jobs[job.id].state == Pending
    requires job.attempts == jobs[job.id].attempts + 1
    ensures var claimed := jobs[job.id := jobs[job.id].(state := Running, attempts := job.attempts)];
      Retriable(claimed) && Total(claimed, Left) + (MAX_ATTEMPTS - job.attempts) + 1 == Total(jobs, Left)
  {
    TotalUpdate(jobs, Left, job.id, jobs[job.id].(state := Running, attempts := job.attempts));
  }

  /** Putting it back returns those that are left. */
  lemma MoveUses(claimed: map<nat, Job>, after: map<nat, Job>, job: JobRef, to: JobState)
    requires Retriable(claimed) && JobMoved(claimed, after, job, to)
    requires claimed[job.id].state == Running && claimed[job.id].attempts == job.attempts <= MAX_ATTEMPTS
    ensures Retriable(after) && Total(after, Left) <= Total(claimed, Left) + (MAX_ATTEMPTS - job.attempts)
  {
    TotalUpdate(claimed, Left, job.id, claimed[job.id].(state := to));
  }

  /** One round of the drain loop uses up at least one attempt. */
  lemma RoundUses(t: Tables, claimed: Tables, after: map<nat, Job>, job: JobRef)
    requires Retriable(t.jobs) && AnyPending(t.jobs) && job.id == Next(t.jobs)
    requires job.attempts == t.jobs[job.id].attempts + 1 && claimed == ClaimRow(t, job.id)
    requires after == claimed.jobs || exists to :: JobMoved(claimed.jobs, after, job, to)
    ensures Retriable(after) && Total(after, Left) + 1 <= Total(t.jobs, Left)
  {
    hide Total, Next, Left;
    ClaimUses(t.jobs, job);
    if after != claimed.jobs {
      var to :| JobMoved(claimed.jobs, after, job, to);
      MoveUses(claimed.jobs, after, job, to);
    }
  }

  // ----- one job, without interference -----

  /** What the outside world answers while one job is processed: whether each statement and file
      operation succeeds, and what decoding the payload gives. */
  datatype Io = Io(load: bool, read: bool, text: Option<string>, write: WriteResult, at: int, groupId: nat,
                   upsert: bool, mark: bool, remove: bool, done: bool, fail: bool, failReport: bool)

  /** A system with a single worker. */
  function Solo(t: Tables, pc: Worker, h: seq<Groups.Entry>): State { State(t, map[0 := pc], map[], map[], h) }

  // `decode_report` as steps of the worker, in order; after a failure the later ones do nothing.

  function FromRemove(s: State, io: Io): State { RemoveStep(s, 0, io.remove) }

  function FromMark(s: State, io: Io): State { FromRemove(MarkStep(s, 0, io.mark), io) }

  function FromUpsert(s: State, io: Io): State {
    FromMark(UpsertStep(ClockStep(s, 0, io.at), 0, io.upsert, io.groupId), io)
  }

  function FromWrite(s: State, io: Io): State { FromUpsert(WriteStep(s, 0, io.write), io) }

  function FromRead(s: State, io: Io): State { FromWrite(ReadStep(s, 0, io.read, io.text), io) }

  function DecodeSteps(s: State, io: Io): State { FromRead(LoadStep(s, 0, io.load), io) }

  /** `process_job`. */
  function ProcessSteps(s: State, io: Io): State { EndSteps(DecodeSteps(s, io), io) }

  lemma Stopped(s: State, io: Io)
    requires Pc(s, 0).Failing?
    ensures FromRemove(s, io) == s && FromMark(s, io) == s && FromUpsert(s, io) == s
    ensures FromWrite(s, io) == s && FromRead(s, io) == s
  {
  }

  lemma SoloAt(t: Tables, pc: Worker, h: seq<Groups.Entry>, t': Tables, pc': Worker)
    ensures At(Solo(t, pc, h), 0, t', pc') == Solo(t', pc', h) && Pc(Solo(t, pc, h), 0) == pc
  {
    assert map[0 := pc][0 := pc'] == map[0 := pc'];
  }

  // Each step of a lone worker, whether it succeeds, and what is left to do after it.

  lemma Loads(t: Tables, job: JobRef, h: seq<Groups.Entry>, io: Io)
    ensures DecodeSteps(Solo(t, Claimed(job), h), io) ==
      if io.load && job.report in t.reports
      then FromRead(Solo(t, Loaded(job, t.reports[job.report].kind, t.reports[job.report].version), h), io)
      else Solo(t, Failing(job), h)
  {
    if io.load && job.report in t.reports {
      hide FromRead;
      SoloAt(t, Claimed(job), h, t, Loaded(job, t.reports[job.report].kind, t.reports[job.report].version));
    } else {
      SoloAt(t, Claimed(job), h, t, Failing(job));
      Stopped(Solo(t, Failing(job), h), io);
      hide FromRead;
    }
  }

  lemma Reads(t: Tables, job: JobRef, kind: Kind, version: string, h: seq<Groups.Entry>, io: Io)
    ensures FromRead(Solo(t, Loaded(job, kind, version), h), io) ==
      if io.read && job.report in t.raw && io.text.Some?
      then FromWrite(Solo(t, Texted(job, kind, version, io.text.value), h), io)
      else Solo(t, Failing(job), h)
  {
    if io.read && io.text.Some? && job.report in t.raw {
      hide FromWrite;
      SoloAt(t, Loaded(job, kind, version), h, t, Texted(job, kind, version, io.text.value));
    } else {
      SoloAt(t, Loaded(job, kind, version), h, t, Failing(job));
      Stopped(Solo(t, Failing(job), h), io);
      hide FromWrite;
    }
  }

  lemma Writes(t: Tables, t': Tables, job: JobRef, kind: Kind, version: string, text: string, h: seq<Groups.Entry>, io: Io)
    requires t' == t.(decoded := WriteFile(t.decoded, job.report, text, io.write))
    ensures FromWrite(Solo(t, Texted(job, kind, version, text), h), io) ==
      if io.write.Wrote? then FromUpsert(Solo(t', Written(job, kind, version, text), h), io)
      else Solo(t', Failing(job), h)
  {
    hide WriteFile;
    if io.write.Wrote? {
      hide FromUpsert;
      SoloAt(t, Texted(job, kind, version, text), h, t', Written(job, kind, version, text));
    } else {
      SoloAt(t, Texted(job, kind, version, text), h, t', Failing(job));
      Stopped(Solo(t', Failing(job), h), io);
      hide FromUpsert;
    }
  }

  lemma Upserts(t: Tables, job: JobRef, kind: Kind, version: string, text: string, h: seq<Groups.Entry>, io: Io)
    ensures var e := EntryOf(kind, version, text, io.at, io.groupId); var g := Groups.Upsert(t.groups, e);
      && e.signature in g
      && FromUpsert(Solo(t, Written(job, kind, version, text), h), io) ==
         if io.upsert && Groups.CanUpsert(t.groups, e)
         then FromMark(Solo(t.(groups := g), Upserted(job, g[e.signature].id, io.at), h + [e]), io)
         else Solo(t, Failing(job), h)
  {
    var e := EntryOf(kind, version, text, io.at, io.groupId);
    var g := Groups.Upsert(t.groups, e);
    hide EntryOf;
    var timed := Timed(job, kind, version, text, io.at);
    SoloAt(t, Written(job, kind, version, text), h, t, timed);
    if io.upsert && Groups.CanUpsert(t.groups, e) {
      hide FromMark;
      SoloAt(t, timed, h, t.(groups := g), Upserted(job, g[e.signature].id, io.at));
    } else {
      SoloAt(t, timed, h, t, Failing(job));
      Stopped(Solo(t, Failing(job), h), io);
      hide FromMark;
    }
  }

  lemma Marks(t: Tables, t': Tables, job: JobRef, groupId: nat, h: seq<Groups.Entry>, io: Io)
    requires t' == SetDecoded(t, job.report, groupId, io.at)
    ensures FromMark(Solo(t, Upserted(job, groupId, io.at), h), io) ==
      if io.mark then FromRemove(Solo(t', Marked(job), h), io) else Solo(t, Failing(job), h)
  {
    hide SetDecoded;
    if io.mark {
      hide FromRemove;
      SoloAt(t, Upserted(job, groupId, io.at), h, t', Marked(job));
    } else {
      SoloAt(t, Upserted(job, groupId, io.at), h, t, Failing(job));
      Stopped(Solo(t, Failing(job), h), io);
      hide FromRemove;
    }
  }

  lemma Removes(t: Tables, t': Tables, job: JobRef, h: seq<Groups.Entry>, io: Io)
    requires t' == t.(raw := t.raw - {job.report})
    ensures FromRemove(Solo(t, Marked(job), h), io) ==
      if io.remove && job.report in t.raw then Solo(t', Finishing(job), h) else Solo(t, Failing(job), h)
  {
    SoloAt(t, Marked(job), h, t', Finishing(job));
    SoloAt(t, Marked(job), h, t, Failing(job));
  }

  /** The row changes at the end of `process_job`. */
  function EndOf(t: Tables, job: JobRef, decoded: bool, io: Io): Tables {
    if decoded then (if io.done then SetJob(t, job.id, Done) else t)
    else
      var to := if job.attempts >= MAX_ATTEMPTS then GivenUp else Pending;
      var t1 := if io.fail then SetJob(t, job.id, to) else t;
      if to.GivenUp? && io.failReport then SetFailed(t1, job.report) else t1
  }

  function EndSteps(s: State, io: Io): State {
    FailReportStep(FailJobStep(FinishStep(s, 0, io.done), 0, io.fail), 0, io.failReport)
  }

  lemma Ends(t: Tables, job: JobRef, h: seq<Groups.Entry>, decoded: bool, io: Io)
    ensures EndSteps(Solo(t, if decoded then Finishing(job) else Failing(job), h), io)
            == Solo(EndOf(t, job, decoded, io), Idle, h)
  {
    hide SetJob, SetFailed;
    if decoded {
      SoloAt(t, Finishing(job), h, EndOf(t, job, decoded, io), Idle);
      SoloAt(EndOf(t, job, decoded, io), Idle, h, t, Idle);
    } else {
      FailEnds(t, job, h, io);
    }
  }

  lemma FailEnds(t: Tables, job: JobRef, h: seq<Groups.Entry>, io: Io)
    ensures EndSteps(Solo(t, Failing(job), h), io) == Solo(EndOf(t, job, false, io), Idle, h)
  {
    hide SetJob, SetFailed;
    var to := if job.attempts >= MAX_ATTEMPTS then GivenUp else Pending;
    var t1 := if io.fail then SetJob(t, job.id, to) else t;
    var pc := if to.GivenUp? then FailingReport(job) else Idle;
    SoloAt(t, Failing(job), h, t1, pc);
    SoloAt(t1, pc, h, EndOf(t, job, false, io), Idle);
  }

  /** How a job and its report end: done, back in the queue, or given up and failed at the third attempt. */
  lemma EndSays(t: Tables, job: JobRef, h: seq<Groups.Entry>, decoded: bool, io: Io)
    requires job.id in t.jobs && job.report in t.reports
    ensures var t' := EndSteps(Solo(t, if decoded then Finishing(job) else Failing(job), h), io).t;
      var row, report := t.jobs[job.id], t.reports[job.report];
      && t'.jobs == t.jobs[job.id :=
           if decoded then (if io.done then row.(state := Done) else row)
           else if !io.fail then row
           else if job.attempts < 3 then row.(state := Pending) else row.(state := GivenUp)]
      && t'.reports == t.reports[job.report :=
           if !decoded && job.attempts >= 3 && io.failReport then report.(state := Failed) else report]
      && t'.raw == t.raw && t'.decoded == t.decoded && t'.groups == t.groups
  {
    Ends(t, job, h, decoded, io);
    hide EndSteps;
    assert t.jobs == t.jobs[job.id := t.jobs[job.id]] && t.reports == t.reports[job.report := t.reports[job.report]];
  }

  // ----- the sequential code is one of the interleavings -----

  ghost predicate Reaches(s: State, s': State) { exists run :: Run(s, run) == s' }

  lemma ReachesNext(s: State, m: State, a: Action)
    requires Reaches(s, m)
    ensures Reaches(s, Step(m, a))
  {
    hide Step;
    var run :| Run(s, run) == m;
    assert (run + [a])[..|run|] == run;
    assert Run(s, run + [a]) == Step(m, a);
  }

  lemma ReachesByWorker(s: State, m: State, a: Action)
    requires Reaches(s, m) && !IsGcAction(a) && !IsPostAction(a)
    ensures Reaches(s, WorkerStep(m, a))
  {
    hide Reaches, WorkerStep;
    ReachesNext(s, m, a);
  }

  lemma ReachesDecoding(s: State, m: State, io: Io)
    requires Reaches(s, m)
    ensures Reaches(s, LoadStep(m, 0, io.load)) && Reaches(s, ReadStep(m, 0, io.read, io.text))
    ensures Reaches(s, WriteStep(m, 0, io.write))
  {
    hide Reaches, LoadStep, ReadStep, WriteStep;
    ReachesByWorker(s, m, Load(0, io.load));
    ReachesByWorker(s, m, ReadRaw(0, io.read, io.text));
    ReachesByWorker(s, m, WriteDecoded(0, io.write));
  }

  lemma ReachesStoring(s: State, m: State, io: Io)
    requires Reaches(s, m)
    ensures Reaches(s, ClockStep(m, 0, io.at)) && Reaches(s, UpsertStep(m, 0, io.upsert, io.groupId))
    ensures Reaches(s, MarkStep(m, 0, io.mark)) && Reaches(s, RemoveStep(m, 0, io.remove))
  {
    hide Reaches, ClockStep, UpsertStep, MarkStep, RemoveStep;
    ReachesByWorker(s, m, ReadClock(0, io.at));
    ReachesByWorker(s, m, UpsertGroup(0, io.upsert, io.groupId));
    ReachesByWorker(s, m, MarkDecoded(0, io.mark));
    ReachesByWorker(s, m, RemoveRaw(0, io.remove));
  }

  lemma ReachesEnding(s: State, m: State, io: Io)
    requires Reaches(s, m)
    ensures Reaches(s, FinishStep(m, 0, io.done)) && Reaches(s, FailJobStep(m, 0, io.fail))
    ensures Reaches(s, FailReportStep(m, 0, io.failReport))
  {
    hide Reaches, FinishStep, FailJobStep, FailReportStep;
    ReachesByWorker(s, m, FinishJob(0, io.done));
    ReachesByWorker(s, m, FailJob(0, io.fail));
    ReachesByWorker(s, m, FailReport(0, io.failReport));
  }

  /** What `process_job` does when nothing interferes is a run of the interleaved system, so all that
      holds after every run holds after it. */
  lemma ProcessIsRun(s: State, io: Io)
    ensures Reaches(s, ProcessSteps(s, io))
  {
    assert Run(s, []) == s;
    hide Reaches, LoadStep, ReadStep, WriteStep, ClockStep, UpsertStep, MarkStep, RemoveStep, FinishStep, FailJobStep,
      FailReportStep;
    ReachesDecoding(s, s, io);
    var s1 := LoadStep(s, 0, io.load);
    ReachesDecoding(s, s1, io);
    var s2 := ReadStep(s1, 0, io.read, io.text);
    ReachesDecoding(s, s2, io);
    var s3 := WriteStep(s2, 0, io.write);
    ReachesStoring(s, s3, io);
    var timed := ClockStep(s3, 0, io.at);
    ReachesStoring(s, timed, io);
    var s4 := UpsertStep(timed, 0, io.upsert, io.groupId);
    ReachesStoring(s, s4, io);
    var s5 := MarkStep(s4, 0, io.mark);
    ReachesStoring(s, s5, io);
    var s6 := RemoveStep(s5, 0, io.remove);
    ReachesEnding(s, s6, io);
    var s7 := FinishStep(s6, 0, io.done);
    ReachesEnding(s, s7, io);
    ReachesEnding(s, FailJobStep(s7, 0, io.fail), io);
  }

  /** The code does the worker's steps up to the end of `decode_report`. */
  ghost predicate DecodeRefines(t: Tables, h: seq<Groups.Entry>, job: JobRef, io: Io,
                                t': Tables, h': seq<Groups.Entry>, ok: bool) {
    DecodeSteps(Solo(t, Claimed(job), h), io) == Solo(t', if ok then Finishing(job) else Failing(job), h')
  }

  /** The code does all the steps of `process_job`. */
  ghost predicate ProcessRefines(t: Tables, h: seq<Groups.Entry>, job: JobRef, io: Io,
                                 t': Tables, h': seq<Groups.Entry>) {
    ProcessSteps(Solo(t, Claimed(job), h), io) == Solo(t', Idle, h')
  }

  ghost predicate TextStored(t: Tables, job: JobRef, io: Io, t': Tables, report: Report) {
    && job.report in t.reports && t.reports[job.report] == report
    && job.report in t.raw && io.text.Some? && t' == t.(decoded := t.decoded[job.report := io.text.value])
  }

  ghost predicate GroupStored(t: Tables, job: JobRef, t': Tables, groupId: nat, at: int) {
    && t'.raw == t.raw - {job.report} && job.report in t.reports
    && t'.reports == t.reports[job.report := t.reports[job.report].(state := Decoded, groupId := Some(groupId), rawDeletedAt := Some(at))]
  }

  /** What a successful decode leaves behind. */
  ghost predicate DecodeDone(t: Tables, job: JobRef, io: Io, t': Tables, groupId: nat) {
    && job.report in t.raw && GroupStored(t, job, t', groupId, io.at)
    && io.text.Some? && t'.decoded == t.decoded[job.report := io.text.value]
  }

  /** A worker's job row after processing: only its state changed, and not back to pending after the
      last attempt. */
  ghost predicate JobMoved(before: map<nat, Job>, after: map<nat, Job>, job: JobRef, to: JobState) {
    && job.id in before && after == before[job.id := before[job.id].(state := to)]
    && (to == Pending ==> job.attempts < MAX_ATTEMPTS)
  }

  // ----- decoded is not yet done -----

  /** An attempt that fails only at the raw file, and one that fails after its text is stored. */
  predicate StuckAtRemoval(io: Io) { io.load && io.read && io.write.Wrote? && io.upsert && io.mark && !io.remove }

  predicate StuckAtUpsert(io: Io) { io.load && io.read && io.write.Wrote? && !io.upsert }

  lemma RemovalFails(t: Tables, job: JobRef, h: seq<Groups.Entry>, io: Io)
    requires job.report in t.reports && job.report in t.raw && StuckAtRemoval(io) && io.text.Some?
    requires var row := t.reports[job.report];
      Groups.CanUpsert(t.groups, EntryOf(row.kind, row.version, io.text.value, io.at, io.groupId))
    ensures var row := t.reports[job.report]; var e := EntryOf(row.kind, row.version, io.text.value, io.at, io.groupId);
      var g := Groups.Upsert(t.groups, e);
      && e.signature in g
      && DecodeSteps(Solo(t, Claimed(job), h), io) == Solo(
           SetDecoded(t.(decoded := t.decoded[job.report := io.text.value], groups := g), job.report, g[e.signature].id, io.at),
           Failing(job), h + [e])
  {
    hide Solo, DecodeSteps, FromRead, FromWrite, FromUpsert, FromMark, FromRemove, EntryOf, Groups.CanUpsert, Groups.Upsert, SetDecoded;
    var row := t.reports[job.report];
    var t1 := t.(decoded := t.decoded[job.report := io.text.value]);
    var e := EntryOf(row.kind, row.version, io.text.value, io.at, io.groupId);
    Loads(t, job, h, io);
    Reads(t, job, row.kind, row.version, h, io);
    Writes(t, t1, job, row.kind, row.version, io.text.value, h, io);
    Upserts(t1, job, row.kind, row.version, io.text.value, h, io);
    var g := Groups.Upsert(t.groups, e);
    var t2 := t1.(groups := g);
    var t3 := SetDecoded(t2, job.report, g[e.signature].id, io.at);
    Marks(t2, t3, job, g[e.signature].id, h + [e], io);
    Removes(t3, t3.(raw := t3.raw - {job.report}), job, h + [e], io);
  }

  lemma UpsertStops(t: Tables, job: JobRef, h: seq<Groups.Entry>, io: Io)
    requires job.report in t.reports && job.report in t.raw && StuckAtUpsert(io) && io.text.Some?
    ensures DecodeSteps(Solo(t, Claimed(job), h), io) ==
      Solo(t.(decoded := t.decoded[job.report := io.text.value]), Failing(job), h)
  {
    hide Solo, DecodeSteps, FromRead, FromWrite, FromUpsert, EntryOf, Groups.CanUpsert, Groups.Upsert;
    var row := t.reports[job.report];
    var t1 := t.(decoded := t.decoded[job.report := io.text.value]);
    Loads(t, job, h, io);
    Reads(t, job, row.kind, row.version, h, io);
    Writes(t, t1, job, row.kind, row.version, io.text.value, h, io);
    Upserts(t1, job, row.kind, row.version, io.text.value, h, io);
  }

  /** The tables after a claim of a job that is there. */
  function ClaimRowOf(t: Tables, j: nat): Tables { if j in t.jobs then ClaimRow(t, j) else t }

  /** A report can be decoded, but not done, with a text of another key than its group's: when the raw file
      cannot be removed the job runs again, and the second text is stored before its group is. */
  lemma DecodedIsNotDone(t: Tables, first: JobRef, again: JobRef, h: seq<Groups.Entry>, io: Io, io': Io)
    requires first.report in t.reports && first.report in t.raw && first.id in t.jobs
    requires first.attempts < MAX_ATTEMPTS && again == first.(attempts := first.attempts + 1)
    requires StuckAtRemoval(io) && io.text.Some? && io.fail && StuckAtUpsert(io') && io'.text.Some?
    requires var row := t.reports[first.report];
      Groups.CanUpsert(t.groups, EntryOf(row.kind, row.version, io.text.value, io.at, io.groupId))
    ensures var s1 := ProcessSteps(Solo(t, Claimed(first), h), io);
      var s2 := DecodeSteps(Solo(ClaimRowOf(s1.t, first.id), Claimed(again), s1.history), io');
      var row := t.reports[first.report]; var e := EntryOf(row.kind, row.version, io.text.value, io.at, io.groupId);
      && first.id in s1.t.jobs && s1.t.jobs[first.id].state == Pending
      && first.report in s2.t.reports && s2.t.reports[first.report].state == Decoded
      && e.signature in s2.t.groups && s2.t.reports[first.report].groupId == Some(s2.t.groups[e.signature].id)
      && first.report in s2.t.decoded && s2.t.decoded[first.report] == io'.text.value
  {
    hide DecodeSteps, EndSteps, EntryOf, Groups.CanUpsert, Groups.Upsert;
    var row := t.reports[first.report];
    var e := EntryOf(row.kind, row.version, io.text.value, io.at, io.groupId);
    RemovalFails(t, first, h, io);
    var g := Groups.Upsert(t.groups, e);
    var t3 := SetDecoded(t.(decoded := t.decoded[first.report := io.text.value], groups := g), first.report, g[e.signature].id, io.at);
    Ends(t3, first, h + [e], false, io);
    var t4 := EndOf(t3, first, false, io);
    UpsertStops(ClaimRowOf(t4, first.id), again, h + [e], io');
  }

  // ----- what GC selects -----

  /** The failed reports past their retention whose raw file is not marked as deleted. */
  function Selected(reports: map<string, Report>, cutoff: int): set<string> {
    set r | r in reports && reports[r].state == Failed && reports[r].rawDeletedAt.None?
            && reports[r].receivedAt < cutoff
  }

  function Chosen(rows: set<string>, p: string -> bool): set<string> { set r | r in rows && p(r) }

  function Stamped(reports: map<string, Report>, rows: set<string>, at: int): map<string, Report> {
    map r | r in reports :: if r in rows then reports[r].(rawDeletedAt := Some(at)) else reports[r]
  }

  lemma NothingChosen(rows: set<string>, raw: map<string, string>, reports: map<string, Report>,
                      p: string -> bool, q: string -> bool, at: int)
    ensures raw - Chosen(rows - rows, p) == raw && Stamped(reports, Chosen(rows - rows, q), at) == reports
  {
    assert Chosen(rows - rows, p) == {} && Chosen(rows - rows, q) == {};
  }

  lemma ChosenNext(rows: set<string>, todo: set<string>, r: string, p: string -> bool)
    requires todo <= rows && r in todo
    ensures Chosen(rows - (todo - {r}), p) == Chosen(rows - todo, p) + (if p(r) then {r} else {})
  {
    assert rows - (todo - {r}) == rows - todo + {r};
  }

  lemma StampedNext(reports: map<string, Report>, rows: set<string>, r: string, at: int)
    requires r in reports
    ensures Stamped(reports, rows + {r}, at) ==
            Stamped(reports, rows, at)[r := Stamped(reports, rows, at)[r].(rawDeletedAt := Some(at))]
    ensures Stamped(reports, rows + {}, at) == Stamped(reports, rows, at)
  {
    assert rows + {} == rows;
  }

  // ----- the code -----

  /** The tables and directories that the decoder works on. */
  class Store {
    var reports: map<string, Report>
    var jobs: map<nat, Job>
    var groups: Groups.Table
    var raw: map<string, string>
    var decoded: map<string, string>
    ghost var history: seq<Groups.Entry>

    constructor ()
      ensures View() == INIT.t && history == []
    {
      reports, jobs, groups, raw, decoded := map[], map[], map[], map[], map[];
      history := [];
    }

    ghost function View(): Tables
      reads this
    {
      Tables(reports, jobs, groups, raw, decoded)
    }

    /** `claim_job`: takes the pending job with the least id, if any. */
    method ClaimJob() returns (job: Option<JobRef>)
      modifies this
      ensures history == old(history)
      ensures match job
              case Some(j) => AnyPending(old(jobs)) && j.id == Next(old(jobs))
                              && j.report == old(jobs)[j.id].report && j.attempts == old(jobs)[j.id].attempts + 1
                              && View() == ClaimRow(old(View()), j.id)
              case None => !AnyPending(old(jobs)) && View() == old(View())
      ensures match job
              case Some(j) => j.id in old(jobs) && old(jobs)[j.id].state == Pending
                              && (forall k :: k in old(jobs) && old(jobs)[k].state == Pending ==> j.id <= k)
                              && View() == old(View()).(jobs := old(jobs)[j.id := Job(j.report, Running, j.attempts)])
              case None => forall k :: k in old(jobs) ==> old(jobs)[k].state != Pending
    {
      if j :| j in jobs && IsNext(jobs, j) {
        var row := jobs[j];
        jobs := jobs[j := row.(state := Running, attempts := row.attempts + 1)];
        job := Some(JobRef(j, row.report, row.attempts + 1));
      } else {
        job := None;
        if AnyPending(jobs) {
          NextExists(jobs);
        }
      }
    }

    /** The first half of `decode_report`, up to the decoded text on disk. */
    method StoreText(job: JobRef, io: Io) returns (r: Option<Report>)
      modifies this`decoded
      ensures var s := DecodeSteps(Solo(old(View()), Claimed(job), history), io); match r
        case Some(report) => io.text.Some? && TextStored(old(View()), job, io, View(), report)
                             && s == FromUpsert(Solo(View(), Written(job, report.kind, report.version, io.text.value), history), io)
        case None => s == Solo(View(), Failing(job), history)
    {
      hide Solo, FromRead, FromWrite, FromUpsert, DecodeSteps;
      Loads(View(), job, history, io);
      if !io.load || job.report !in reports {
        return None;
      }
      var report := reports[job.report];
      Reads(View(), job, report.kind, report.version, history, io);
      if !io.read || job.report !in raw || io.text.None? {
        return None;
      }
      ghost var t := View();
      decoded := WriteFile(decoded, job.report, io.text.value, io.write);
      Writes(t, View(), job, report.kind, report.version, io.text.value, history, io);
      if !io.write.Wrote? {
        return None;
      }
      return Some(report);
    }

    /** The second half: into its group, and then the raw file goes. */
    method StoreGroup(job: JobRef, report: Report, text: string, io: Io) returns (r: Option<nat>)
      requires job.report in reports && reports[job.report] == report
      modifies this
      ensures FromUpsert(Solo(old(View()), Written(job, report.kind, report.version, text), old(history)), io)
              == Solo(View(), if r.Some? then Finishing(job) else Failing(job), history)
      ensures jobs == old(jobs) && decoded == old(decoded)
      ensures r.None? ==> raw == old(raw)
      ensures r.Some? ==> GroupStored(old(View()), job, View(), r.value, io.at)
    {
      hide Solo, FromUpsert, FromMark, FromRemove, EntryOf, Groups.CanUpsert, Groups.Upsert;
      Upserts(View(), job, report.kind, report.version, text, history, io);
      var e := EntryOf(report.kind, report.version, text, io.at, io.groupId);
      if !io.upsert || !Groups.CanUpsert(groups, e) {
        return None;
      }
      groups := Groups.Upsert(groups, e);
      history := history + [e];
      var groupId := groups[e.signature].id;
      ghost var t := View();
      Marks(t, SetDecoded(t, job.report, groupId, io.at), job, groupId, history, io);
      if !io.mark {
        return None;
      }
      reports := reports[job.report := report.(state := Decoded, groupId := Some(groupId), rawDeletedAt := Some(io.at))];
      t := View();
      Removes(t, t.(raw := t.raw - {job.report}), job, history, io);
      if !io.remove || job.report !in raw {
        return None;
      }
      raw := raw - {job.report};
      return Some(groupId);
    }

    /** `decode_report`. The raw file goes only after everything else has succeeded, and any failure
        leaves all raw files as they were. */
    method DecodeReport(job: JobRef, io: Io) returns (r: Option<nat>)
      modifies this
      ensures DecodeRefines(old(View()), old(history), job, io, View(), history, r.Some?)
      ensures jobs == old(jobs)
      ensures r.None? ==> raw == old(raw)
      ensures r.Some? ==> DecodeDone(old(View()), job, io, View(), r.value)
    {
      hide Solo, FromUpsert, DecodeSteps;
      var report := StoreText(job, io);
      if report.None? {
        return None;
      }
      r := StoreGroup(job, report.value, io.text.value, io);
    }

    /** `process_job`. */
    method ProcessJob(job: JobRef, io: Io)
      modifies this
      ensures ProcessRefines(old(View()), old(history), job, io, View(), history)
      ensures jobs == old(jobs) || exists to :: JobMoved(old(jobs), jobs, job, to)
    {
      hide DecodeSteps, EndSteps, DecodeDone;
      var r := DecodeReport(job, io);
      Ends(View(), job, history, r.Some?, io);
      if r.Some? {
        if io.done && job.id in jobs {
          jobs := jobs[job.id := jobs[job.id].(state := Done)];
          assert JobMoved(old(jobs), jobs, job, Done);
        }
      } else {
        var to := if job.attempts >= MAX_ATTEMPTS then GivenUp else Pending;
        if io.fail && job.id in jobs {
          jobs := jobs[job.id := jobs[job.id].(state := to)];
          assert JobMoved(old(jobs), jobs, job, to);
        }
        if to == GivenUp && io.failReport && job.report in reports {
          reports := reports[job.report := reports[job.report].(state := Failed)];
        }
      }
    }

    /** The `--once` loop when no claim fails: it ends with an empty queue, and each job is processed
        at most as often as it has attempts left. `ios` are the answers for the successive jobs. */
    method Drain(ios: nat -> Io) returns (calls: nat)
      requires Retriable(jobs)
      modifies this
      ensures !AnyPending(jobs)
      ensures calls <= Total(old(jobs), Left)
    {
      calls := 0;
      while true
        invariant Retriable(jobs)
        invariant calls + Total(jobs, Left) <= Total(old(jobs), Left)
        decreases Total(jobs, Left)
      {
        ghost var before := View();
        var job := ClaimJob();
        if job.None? {
          return;
        }
        ghost var claimed := View();
        hide Total, Left, Retriable, IsNext, Next, AnyPending, ClaimRow, JobMoved, ProcessRefines;
        ProcessJob(job.value, ios(calls));
        RoundUses(before, claimed, jobs, job.value);
        calls := calls + 1;
      }
    }

    /** `gc_failed_raw`: `removable` and `markable` say for which rows the file operation and the update
        succeed. Exactly the selected reports are touched. */
    method GcFailedRaw(cutoff: int, at: int, removable: string -> bool, markable: string -> bool)
      modifies this
      ensures jobs == old(jobs) && groups == old(groups) && decoded == old(decoded)
      ensures raw == old(raw) - Chosen(Selected(old(reports), cutoff), removable)
      ensures reports == Stamped(old(reports), Chosen(Selected(old(reports), cutoff), markable), at)
      ensures forall r :: r in reports <==> r in old(reports)
      ensures forall r :: r in old(reports) ==>
        var row := old(reports)[r];
        var due := row.state == Failed && row.rawDeletedAt.None? && row.receivedAt < cutoff;
        && reports[r] == (if due && markable(r) then row.(rawDeletedAt := Some(at)) else row)
        && (r in raw <==> r in old(raw) && !(due && removable(r)))
    {
      var rows := Selected(reports, cutoff);
      var todo := rows;
      ghost var reports0, raw0 := reports, raw;
      NothingChosen(rows, raw, reports, removable, markable, at);
      while todo != {}
        invariant todo <= rows
        invariant jobs == old(jobs) && groups == old(groups) && decoded == old(decoded)
        invariant raw == raw0 - Chosen(rows - todo, removable)
        invariant reports == Stamped(reports0, Chosen(rows - todo, markable), at)
        decreases todo
      {
        var r :| r in todo;
        ChosenNext(rows, todo, r, removable);
        ChosenNext(rows, todo, r, markable);
        StampedNext(reports0, Chosen(rows - todo, markable), r, at);
        if removable(r) {
          raw := raw - {r};
        }
        if markable(r) {
          reports := reports[r := reports[r].(rawDeletedAt := Some(at))];
        }
        todo := todo - {r};
      }
      assert rows - {} == rows;
    }
  }

  // ----- sequential GC is one of the interleavings -----

  /** What the loop selects is what the GC step of the interleaved system selects. */
  lemma SelectedIsCollectable(t: Tables, cutoff: int, r: string)
    ensures r in Selected(t.reports, cutoff) <==> Collectable(t, cutoff, r)
  {
  }

  function Elems(q: seq<string>): set<string> { set r | r in q }

  /** The state after a GC task has worked off its queue. */
  function Collected(s: State, g: nat, q: seq<string>, at: int, removable: string -> bool, markable: string -> bool): State {
    s.(t := s.t.(raw := s.t.raw - Chosen(Elems(q), removable), reports := Stamped(s.t.reports, Chosen(Elems(q), markable), at)),
       gcs := s.gcs[g := Gc([], false)])
  }

  /** One row of the queue: remove the file, then mark the row. */
  lemma GcRow(s: State, g: nat, q: seq<string>, at: int, removed: bool, marked: bool)
    requires g in s.gcs && s.gcs[g] == Gc(q, false) && q != []
    ensures Step(Step(s, GcRemove(g, removed)), GcMark(g, marked, at)) ==
      s.(t := s.t.(raw := if removed then s.t.raw - {q[0]} else s.t.raw,
                   reports := Stamped(s.t.reports, if marked then {q[0]} else {}, at)),
         gcs := s.gcs[g := Gc(q[1..], false)])
  {
    var s1 := Step(s, GcRemove(g, removed));
    assert s1.gcs == s.gcs[g := Gc(q, true)];
    assert s.gcs[g := Gc(q, true)][g := Gc(q[1..], false)] == s.gcs[g := Gc(q[1..], false)];
    assert Stamped(s.t.reports, {}, at) == s.t.reports;
    assert q[0] in s.t.reports ==>
      Stamped(s.t.reports, {q[0]}, at) == s.t.reports[q[0] := s.t.reports[q[0]].(rawDeletedAt := Some(at))];
    assert q[0] !in s.t.reports ==> Stamped(s.t.reports, {q[0]}, at) == s.t.reports;
  }

  lemma CollectedNext(s: State, m: State, g: nat, q: seq<string>, at: int, p: string -> bool, r: string -> bool)
    requires q != []
    requires m == s.(t := s.t.(raw := if p(q[0]) then s.t.raw - {q[0]} else s.t.raw,
                               reports := Stamped(s.t.reports, if r(q[0]) then {q[0]} else {}, at)),
                     gcs := s.gcs[g := Gc(q[1..], false)])
    ensures Collected(m, g, q[1..], at, p, r) == Collected(s, g, q, at, p, r)
  {
    assert m.gcs[g := Gc([], false)] == s.gcs[g := Gc([], false)];
    assert Chosen(Elems(q), p) == Chosen(Elems(q[1..]), p) + if p(q[0]) then {q[0]} else {};
    assert Chosen(Elems(q), r) == Chosen(Elems(q[1..]), r) + if r(q[0]) then {q[0]} else {};
    StampedTwice(s.t.reports, if r(q[0]) then {q[0]} else {}, Chosen(Elems(q[1..]), r), at);
  }

  lemma StampedTwice(reports: map<string, Report>, a: set<string>, b: set<string>, at: int)
    ensures Stamped(Stamped(reports, a, at), b, at) == Stamped(reports, b + a, at)
  {
  }

  lemma {:induction false} QueueIsRun(s0: State, s: State, g: nat, q: seq<string>, at: int, p: string -> bool, r: string -> bool)
    requires Reaches(s0, s) && g in s.gcs && s.gcs[g] == Gc(q, false)
    ensures Reaches(s0, Collected(s, g, q, at, p, r))
    decreases |q|
  {
    if q == [] {
      assert Elems(q) == {} && Chosen({}, p) == {} && Chosen({}, r) == {};
      assert Stamped(s.t.reports, {}, at) == s.t.reports && s.gcs[g := Gc([], false)] == s.gcs;
      assert Collected(s, g, q, at, p, r) == s;
    } else {
      hide Reaches, Step, Collected, Stamped;
      GcRow(s, g, q, at, p(q[0]), r(q[0]));
      ReachesNext(s0, s, GcRemove(g, p(q[0])));
      var s1 := Step(s, GcRemove(g, p(q[0])));
      ReachesNext(s0, s1, GcMark(g, r(q[0]), at));
      var s2 := Step(s1, GcMark(g, r(q[0]), at));
      CollectedNext(s, s2, g, q, at, p, r);
      QueueIsRun(s0, s2, g, q[1..], at, p, r);
    }
  }

  /** What `gc_failed_raw` does to the tables is a run of a GC task of the interleaved system. */
  lemma GcIsRun(s: State, g: nat, cutoff: int, rows: seq<string>, at: int, p: string -> bool, r: string -> bool)
    requires g !in s.gcs || s.gcs[g].queue == []
    requires Elems(rows) == Selected(s.t.reports, cutoff)
    ensures var gone, marked := Chosen(Selected(s.t.reports, cutoff), p), Chosen(Selected(s.t.reports, cutoff), r);
      Reaches(s, s.(t := s.t.(raw := s.t.raw - gone, reports := Stamped(s.t.reports, marked, at)), gcs := s.gcs[g := Gc([], false)]))
  {
    assert Run(s, []) == s;
    var s1 := Step(s, GcSelect(g, cutoff, rows));
    assert s1 == s.(gcs := s.gcs[g := Gc(rows, false)]) by {
      forall x ensures x in rows <==> Collectable(s.t, cutoff, x) {
        assert x in rows <==> x in Elems(rows);
        SelectedIsCollectable(s.t, cutoff, x);
      }
    }
    hide Step, Run, Selected, Stamped;
    ReachesNext(s, s, GcSelect(g, cutoff, rows));
    QueueIsRun(s, s1, g, rows, at, p, r);
    assert s1.gcs[g := Gc([], false)] == s.gcs[g := Gc([], false)];
  }
}
