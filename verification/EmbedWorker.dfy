/**
 The embedding worker as a machine that may die between any two of its steps. A step is one ledger
 write, one emitted event, or one action of the build; the environment decides whether it succeeds. A run is
 any finite list of such decisions, so a run that stops short is a worker that was killed there.
 */
module EmbedWorker {
  import opened Options
  import opened Machine
  import opened JobLedger

  datatype Request = Request(recipe: Recipe, maxRetries: u32, collectMetrics: bool)

  /** What outlives a process: the job's record, and the vector count of the active generation. */
  datatype Durable = Durable(ledger: Option<JobRecord>, store: Option<nat>)

  datatype Event =
    | Started(attempt: u32)
    | Progress(windows: u64, consumed: u32)
    | Invalidated
    | BatchCommitted(batch: u64)
    | Completed(vectors: nat)
    | Failed(retries: u32)

  datatype Pc =
    | Load
    | RemoveIncompatible
    | EmitInvalidated
    | LoadStore
    | EmitReloaded
    | EmitExhausted
    | RemovePrevious
    | CommitRunning
    | EmitStarted
    | OpenSource
    | Building
    | CommitProgress(windows: u64)
    | EmitBatch(windows: u64)
    | EmitProgress(windows: u64)
    | CommitCompleted
    | EmitCompleted
    | CommitFailure
    | EmitFailure
    | Stopped(ok: bool)

  /** The environment's decisions. `Proceed` and `Fault` settle a write or an emission; the others drive the build. */
  datatype Choice =
    | Proceed
    | Fault
    | Report(windows: u64)
    | Publish(vectors: nat)
    | BuildOk
    | BuildErr

  /**
   The state of one process. The last four fields are bookkeeping the program does not have: the progress
   values reported so far, and whether the old record was removed, the attempt recorded, the job completed.
   */
  datatype Process = Process(
    pc: Pc,
    request: Request,
    previous: Option<JobRecord>,
    retries: u32,
    running: JobRecord,
    latest: Option<u64>,
    durable: Durable,
    events: seq<Event>,
    reported: seq<u64>,
    removed: bool,
    began: bool,
    finished: bool)

  function FreshRecord(request: Request, retries: u32): JobRecord {
    JobRecord(PROTOCOL_VERSION, request.recipe, 0, 1, retries, request.maxRetries, JobState.Running)
  }

  function Start(durable: Durable, request: Request): Process {
    Process(if request.maxRetries == 0 then Stopped(false) else Load, request, None, 0,
            FreshRecord(request, 0), None, durable, [], [], false, false, false)
  }

  /** Where a process goes once it knows the usable previous record. */
  function Decide(s: Process): Process {
    if s.previous.Some? && s.previous.value.state == JobState.Completed && !s.request.collectMetrics then
      s.(pc := LoadStore)
    else
      var retries := Spent(s.previous);
      var t := s.(retries := retries, running := FreshRecord(s.request, retries));
      if retries >= s.request.maxRetries then t.(pc := EmitExhausted)
      else if s.previous.Some? then t.(pc := RemovePrevious)
      else t.(pc := CommitRunning)
  }

  function Attempt(s: Process): u32 {
    if s.retries < U32_MAX then s.retries + 1 else s.retries
  }

  function CompletedRecord(s: Process): JobRecord {
    var batches := if s.latest.Some? then s.latest.value else s.running.nextBatch;
    s.running.(nextBatch := batches, totalBatches := batches, state := JobState.Completed)
  }

  function FailedRecord(s: Process): JobRecord {
    s.running.(state := if Attempt(s) >= s.request.maxRetries then JobState.Failed else JobState.Pending,
               retries := Attempt(s))
  }

  function WithLedger(s: Process, ledger: Option<JobRecord>): Process {
    s.(durable := s.durable.(ledger := ledger))
  }

  function Emit(s: Process, e: Event, pc: Pc): Process {
    s.(events := s.events + [e], pc := pc)
  }

  /** A ledger write that the environment lets through and the ledger accepts, or else the given failure. */
  function Commit(s: Process, job: JobRecord, accepted: Pc, refused: Pc): Process {
    if Accepts(s.durable.ledger, job) then WithLedger(s, Some(job)).(pc := accepted) else s.(pc := refused)
  }

  /** The progress callback: the running record is raised before its write is attempted. */
  function OnReport(s: Process, windows: u64): Process {
    var t := s.(reported := s.reported + [windows]);
    if windows > s.running.nextBatch then
      t.(running := s.running.(nextBatch := windows, totalBatches := SatAdd(windows, 1)), pc := CommitProgress(windows))
    else
      t.(latest := Some(windows), pc := EmitProgress(windows))
  }

  /** One step. A decision that does not concern the current step leaves everything as it is. */
  function Next(s: Process, c: Choice): Process {
    match s.pc
    case Stopped(_) => s
    case Building => (
      match c
      case Report(windows) => OnReport(s, windows)
      case Publish(vectors) => s.(durable := s.durable.(store := Some(vectors)))
      case BuildOk => if s.durable.store.Some? then s.(pc := CommitCompleted) else s
      case BuildErr => s.(pc := CommitFailure)
      case _ => s
    )
    case _ =>
      if c == Proceed then Perform(s)
      else if c == Fault then Refuse(s)
      else s
  }

  /** The step's own action, when the environment lets it happen. */
  function Perform(s: Process): Process {
    match s.pc
    case Load =>
      var previous := s.durable.ledger;
      if previous.Some? && !Compatible(previous.value, s.request.recipe) then s.(pc := RemoveIncompatible)
      else Decide(s.(previous := previous))
    case RemoveIncompatible => WithLedger(s, None).(pc := EmitInvalidated)
    case EmitInvalidated => Decide(Emit(s, Invalidated, EmitInvalidated).(previous := None))
    case LoadStore => if s.durable.store.Some? then s.(pc := EmitReloaded) else s.(pc := Stopped(false))
    case EmitReloaded =>
      if s.durable.store.Some? then Emit(s, Event.Completed(s.durable.store.value), Stopped(true)) else s
    case EmitExhausted => Emit(s, Event.Failed(s.retries), Stopped(false))
    case RemovePrevious => WithLedger(s, None).(pc := CommitRunning, removed := true)
    case CommitRunning =>
      var t := Commit(s, s.running, EmitStarted, Stopped(false));
      t.(began := t.pc == EmitStarted)
    case EmitStarted => Emit(s, Started(Attempt(s)), OpenSource)
    case OpenSource => s.(pc := Building)
    case CommitProgress(windows) => Commit(s, s.running, EmitBatch(windows), CommitFailure)
    case EmitBatch(windows) =>
      Emit(s, BatchCommitted(if s.running.nextBatch > 0 then s.running.nextBatch - 1 else 0), EmitProgress(windows))
        .(latest := Some(windows))
    case EmitProgress(windows) => Emit(s, Progress(windows, s.retries), Building)
    case CommitCompleted =>
      var t := Commit(s, CompletedRecord(s), EmitCompleted, Stopped(false));
      t.(finished := t.pc == EmitCompleted)
    case EmitCompleted =>
      if s.durable.store.Some? then Emit(s, Event.Completed(s.durable.store.value), Stopped(true)) else s
    case CommitFailure => Commit(s, FailedRecord(s), EmitFailure, Stopped(false))
    case EmitFailure => Emit(s, Event.Failed(Attempt(s)), Stopped(false))
    case Building => s
    case Stopped(_) => s
  }

  /** The same step when the environment makes it fail: in the callback the build fails, elsewhere the process exits. */
  function Refuse(s: Process): Process {
    match s.pc
    case CommitProgress(_) => s.(pc := CommitFailure)
    case EmitBatch(_) => s.(pc := CommitFailure)
    case EmitProgress(_) => s.(pc := CommitFailure)
    case _ => s.(pc := Stopped(false))
  }

  function Exec(s: Process, choices: seq<Choice>): Process
    decreases |choices|
  {
    if choices == [] then s else Exec(Next(s, choices[0]), choices[1..])
  }

  lemma {:induction false} StoppedForEver(s: Process, choices: seq<Choice>)
    requires s.pc.Stopped?
    ensures Exec(s, choices) == s
    decreases |choices|
  {
    if choices != [] {
      StoppedForEver(s, choices[1..]);
    }
  }

  lemma {:induction false} ExecAppend(s: Process, a: seq<Choice>, b: seq<Choice>)
    ensures Exec(s, a + b) == Exec(Exec(s, a), b)
    decreases |a|
  {
    if a == [] {
      assert a + b == b;
    } else {
      assert (a + b)[0] == a[0] && (a + b)[1..] == a[1..] + b;
      hide Next;
      ExecAppend(Next(s, a[0]), a[1..], b);
    }
  }

  datatype Run = Run(request: Request, choices: seq<Choice>)

  /** The process at the moment it ended or was killed. */
  function Final(durable: Durable, run: Run): Process {
    Exec(Start(durable, run.request), run.choices)
  }

  /** What a sequence of runs leaves behind. */
  function AfterRuns(durable: Durable, runs: seq<Run>): Durable
    decreases |runs|
  {
    if runs == [] then durable else AfterRuns(Final(durable, runs[0]).durable, runs[1..])
  }
}
