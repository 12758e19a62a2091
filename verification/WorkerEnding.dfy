/** Where a run of the worker ends when the environment lets it go on: every outcome of the build, and every failure. */
module WorkerEnding {
  import opened Sequences
  import opened Options
  import opened Machine
  import opened JobLedger
  import opened EmbedWorker
  import opened WorkerSafety
  import opened WorkerBudget
  import opened WorkerOutcome

  /** How many steps the environment lets happen before the first that it makes fail. */
  function Granted(choices: seq<Choice>): nat {
    if choices == [] then 0
    else
      match choices[0]
      case Fault => 0
      case Proceed => 1 + Granted(choices[1..])
      case _ => Granted(choices[1..])
  }

  /** A write or emission that the environment lets happen, after decisions that do not concern it. */
  lemma {:induction false} SettleOnce(s: Process, choices: seq<Choice>) returns (rest: seq<Choice>)
    requires !s.pc.Building? && !s.pc.Stopped? && Granted(choices) >= 1
    ensures Exec(s, choices) == Exec(Perform(s), rest) && Granted(rest) == Granted(choices) - 1
    decreases |choices|
  {
    hide Perform;
    hide Refuse;
    rest := choices[1..];
    if choices[0] != Proceed {
      rest := SettleOnce(s, rest);
    }
  }

  /** The run that goes on behind what a run has done so far. */
  function Longer(run: Run, choices: seq<Choice>): Run {
    run.(choices := run.choices + choices)
  }

  lemma LongerRun(found: Durable, run: Run, choices: seq<Choice>)
    ensures Final(found, Longer(run, choices)) == Exec(Final(found, run), choices)
    ensures choices != [] ==>
      Final(found, Longer(run, choices)) == Exec(Next(Final(found, run), choices[0]), choices[1..])
  {
    ExecAppend(Start(found, run.request), run.choices, choices);
    hide Next;
    hide Start;
  }

  predicate LastIsHighest(reported: seq<u64>) {
    reported == [] || reported[|reported| - 1] == MaxReported(reported)
  }

  /** The record of an attempt under way. */
  function RunningAt(found: Durable, request: Request, batch: u64): JobRecord {
    JobRecord(PROTOCOL_VERSION, request.recipe, batch, SatAdd(batch, 1), Charged(found, request), request.maxRetries,
              JobState.Running)
  }

  function CompletedAt(found: Durable, request: Request, batch: u64): JobRecord {
    JobRecord(PROTOCOL_VERSION, request.recipe, batch, batch, Charged(found, request), request.maxRetries,
              JobState.Completed)
  }

  function FailedAt(found: Durable, request: Request, batch: u64): JobRecord
    requires Charged(found, request) < request.maxRetries
  {
    var attempt := Charged(found, request) + 1;
    JobRecord(PROTOCOL_VERSION, request.recipe, batch, SatAdd(batch, 1), attempt, request.maxRetries,
              if attempt >= request.maxRetries then JobState.Failed else JobState.Pending)
  }

  /** What is known of a process whose build is under way. */
  lemma BuildingFacts(found: Durable, run: Run)
    requires Final(found, run).pc == Building
    ensures var s := Final(found, run);
      && s.request == run.request && Charged(found, run.request) < run.request.maxRetries
      && s.retries == Charged(found, run.request)
      && s.running == RunningAt(found, run.request, MaxReported(s.reported))
      && s.durable.ledger == Some(s.running)
      && s.latest == if s.reported == [] then None else Some(s.reported[|s.reported| - 1])
  {
    FinalHolds(found, run);
    hide Final;
    hide Truthful;
    hide Accounted;
    hide Charged;
    hide MaxReported;
    hide Batches;
  }

  /** The ledger takes a record of the same job whose batch is neither behind nor more than one ahead. */
  lemma TakenIff(found: Durable, request: Request, held: u64, job: JobRecord)
    requires Charged(found, request) < request.maxRetries
    requires job.protocolVersion == PROTOCOL_VERSION && job.recipe == request.recipe
    requires job.nextBatch <= job.totalBatches && job.retries <= job.maxRetries
    requires job.state == JobState.Completed ==> job.nextBatch == job.totalBatches
    ensures Accepts(Some(RunningAt(found, request, held)), job) <==> held <= job.nextBatch <= SatAdd(held, 1)
  {
    hide Charged;
    hide SatAdd;
  }

  /**
   A build that delivers completes the job, records its last batch, and announces the vectors of its store - unless its
   last report was not its highest, when the ledger refuses the completion.
   */
  lemma DeliveredBuildEnds(found: Durable, run: Run, rest: seq<Choice>)
    requires Final(found, run).pc == Building && Final(found, run).durable.store.Some? && Granted(rest) >= 2
    ensures var s, t := Final(found, run), Final(found, Longer(run, [BuildOk] + rest));
      if LastIsHighest(s.reported) then
        && t.pc == Stopped(true)
        && t.events == s.events + [Event.Completed(s.durable.store.value)]
        && t.durable == Durable(Some(CompletedAt(found, run.request, MaxReported(s.reported))), s.durable.store)
      else t.pc == Stopped(false) && t.events == s.events && t.durable == s.durable
  {
    var s := Final(found, run);
    BuildingFacts(found, run);
    LongerRun(found, run, [BuildOk] + rest);
    TailOfCons(BuildOk, rest);
    LastIsAtMostMax(s.reported);
    NothingReported();
    BuildIsOver(s);
    var last := if s.reported == [] then MaxReported(s.reported) else s.reported[|s.reported| - 1];
    assert LastIsHighest(s.reported) <==> last == MaxReported(s.reported);
    hide *;
    CompletionTailEnds(found, s.(pc := CommitCompleted), MaxReported(s.reported), last, rest);
  }

  lemma BuildIsOver(s: Process)
    requires s.pc == Building
    ensures s.durable.store.Some? ==> Next(s, BuildOk) == s.(pc := CommitCompleted)
    ensures Next(s, BuildErr) == s.(pc := CommitFailure)
  {
  }

  /** From the success tail: the completion is recorded and announced, if the ledger takes the record. */
  lemma CompletionTailEnds(found: Durable, s: Process, held: u64, last: u64, rest: seq<Choice>)
    requires s.pc == CommitCompleted && s.durable.store.Some? && Granted(rest) >= 2
    requires Charged(found, s.request) < s.request.maxRetries && s.running == RunningAt(found, s.request, held)
    requires s.durable.ledger == Some(s.running) && last <= held
    requires s.latest == Some(last) || (s.latest == None && last == held)
    ensures var t := Exec(s, rest);
      if last == held then
        && t.pc == Stopped(true)
        && t.events == s.events + [Event.Completed(s.durable.store.value)]
        && t.durable == Durable(Some(CompletedAt(found, s.request, held)), s.durable.store)
      else t.pc == Stopped(false) && t.events == s.events && t.durable == s.durable
  {
    CompletionIsWritten(found, s, held, last);
    var rest1 := SettleOnce(s, rest);
    var s1 := Perform(s);
    hide *;
    if last == held {
      CompletionIsAnnounced(s1);
      var rest2 := SettleOnce(s1, rest1);
      StoppedForEver(Perform(s1), rest2);
    } else {
      StoppedForEver(s1, rest1);
    }
  }

  lemma CompletionIsWritten(found: Durable, s: Process, held: u64, last: u64)
    requires s.pc == CommitCompleted
    requires Charged(found, s.request) < s.request.maxRetries && s.running == RunningAt(found, s.request, held)
    requires s.durable.ledger == Some(s.running) && last <= held
    requires s.latest == Some(last) || (s.latest == None && last == held)
    ensures var record := CompletedAt(found, s.request, last);
      Perform(s) == if last == held
        then s.(durable := Durable(Some(record), s.durable.store), pc := EmitCompleted, finished := true)
        else s.(pc := Stopped(false), finished := false)
  {
    assert CompletedRecord(s) == CompletedAt(found, s.request, last);
    TakenIff(found, s.request, held, CompletedRecord(s));
    hide Charged;
    hide SatAdd;
    hide Accepts;
    hide Decide;
  }

  lemma CompletionIsAnnounced(s: Process)
    requires s.pc == EmitCompleted && s.durable.store.Some?
    ensures Perform(s)
         == s.(events := s.events + [Event.Completed(s.durable.store.value)], pc := Stopped(true))
  {
    hide Decide;
    hide Commit;
  }

  lemma NothingReported()
    ensures MaxReported([]) == 0
  {
  }

  /** From the failure tail: the attempt is charged and announced, if the ledger takes the record. */
  lemma FailureTailEnds(found: Durable, s: Process, held: u64, batch: u64, rest: seq<Choice>)
    requires s.pc == CommitFailure && Granted(rest) >= 2
    requires Charged(found, s.request) < s.request.maxRetries && s.retries == Charged(found, s.request)
    requires s.durable.ledger == Some(RunningAt(found, s.request, held))
    requires s.running == RunningAt(found, s.request, batch) && held <= batch
    ensures var t := Exec(s, rest);
      && t.pc == Stopped(false)
      && if batch <= SatAdd(held, 1) then
           && t.events == s.events + [Event.Failed(Charged(found, s.request) + 1)]
           && t.durable == Durable(Some(FailedAt(found, s.request, batch)), s.durable.store)
         else t.events == s.events && t.durable == s.durable
  {
    FailureIsWritten(found, s, held, batch);
    var rest1 := SettleOnce(s, rest);
    var s1 := Perform(s);
    hide *;
    if batch <= SatAdd(held, 1) {
      FailureIsAnnounced(s1);
      var rest2 := SettleOnce(s1, rest1);
      StoppedForEver(Perform(s1), rest2);
    } else {
      StoppedForEver(s1, rest1);
    }
  }

  lemma FailureIsWritten(found: Durable, s: Process, held: u64, batch: u64)
    requires s.pc == CommitFailure
    requires Charged(found, s.request) < s.request.maxRetries && s.retries == Charged(found, s.request)
    requires s.durable.ledger == Some(RunningAt(found, s.request, held))
    requires s.running == RunningAt(found, s.request, batch) && held <= batch
    ensures Perform(s) == if batch <= SatAdd(held, 1)
      then s.(durable := Durable(Some(FailedAt(found, s.request, batch)), s.durable.store), pc := EmitFailure)
      else s.(pc := Stopped(false))
  {
    assert FailedRecord(s) == FailedAt(found, s.request, batch);
    TakenIff(found, s.request, held, FailedRecord(s));
    hide Charged;
    hide SatAdd;
    hide Accepts;
    hide Decide;
    hide CompletedRecord;
  }

  lemma FailureIsAnnounced(s: Process)
    requires s.pc == EmitFailure && s.retries < s.request.maxRetries
    ensures Perform(s) == s.(events := s.events + [Event.Failed(s.retries + 1)], pc := Stopped(false))
  {
    hide Decide;
    hide Commit;
  }

  /** A build that fails charges its attempt and announces the failure. */
  lemma FailedBuildEnds(found: Durable, run: Run, rest: seq<Choice>)
    requires Final(found, run).pc == Building && Granted(rest) >= 2
    ensures Charged(found, run.request) < run.request.maxRetries
    ensures var s, t := Final(found, run), Final(found, Longer(run, [BuildErr] + rest));
      && t.pc == Stopped(false)
      && t.events == s.events + [Event.Failed(Charged(found, run.request) + 1)]
      && t.durable == Durable(Some(FailedAt(found, run.request, MaxReported(s.reported))), s.durable.store)
  {
    var s := Final(found, run);
    var m := MaxReported(s.reported);
    BuildingFacts(found, run);
    LongerRun(found, run, [BuildErr] + rest);
    TailOfCons(BuildErr, rest);
    BuildIsOver(s);
    FitsOneMore(m);
    hide *;
    FailureTailEnds(found, s.(pc := CommitFailure), m, m, rest);
  }

  lemma FitsOneMore(m: u64)
    ensures m <= SatAdd(m, 1)
  {
  }

  /** A report that goes through raises the record, if it is the highest; one that skips a batch ends the run. */
  lemma ReportGoesThrough(found: Durable, run: Run, windows: u64)
    requires Final(found, run).pc == Building
    ensures var s, t := Final(found, run), Final(found, Longer(run, [Report(windows), Proceed, Proceed, Proceed]));
      var m := MaxReported(s.reported);
      if windows <= m + 1 then
        && t.pc == Building && t.reported == s.reported + [windows]
        && t.durable ==
           Durable(Some(RunningAt(found, run.request, if windows > m then windows else m)), s.durable.store)
      else t.pc == Stopped(false) && t.durable == s.durable && t.events == s.events
  {
    var s := Final(found, run);
    var s1 := OnReport(s, windows);
    BuildingFacts(found, run);
    LongerRun(found, run, [Report(windows), Proceed, Proceed, Proceed]);
    TailOfCons(Report(windows), [Proceed, Proceed, Proceed]);
    assert [Report(windows)] + [Proceed, Proceed, Proceed] == [Report(windows), Proceed, Proceed, Proceed];
    assert Next(s, Report(windows)) == s1;
    ExecThree(s1, [Proceed, Proceed, Proceed]);
    ReportSettles(found, s, MaxReported(s.reported), windows);
    hide *;
  }

  /** The three steps behind a report. */
  lemma ReportSettles(found: Durable, s: Process, m: u64, windows: u64)
    requires s.pc == Building && Charged(found, s.request) < s.request.maxRetries
    requires s.running == RunningAt(found, s.request, m) && s.durable.ledger == Some(s.running)
    requires s.retries == Charged(found, s.request)
    ensures var t := Next(Next(Next(OnReport(s, windows), Proceed), Proceed), Proceed);
      if windows <= m + 1 then
        && t.pc == Building && t.reported == s.reported + [windows]
        && t.durable == Durable(Some(RunningAt(found, s.request, if windows > m then windows else m)), s.durable.store)
      else t.pc == Stopped(false) && t.durable == s.durable && t.events == s.events
  {
    if windows <= m {
      LowReportSettles(found, s, m, windows);
    } else {
      HighReportSettles(found, s, m, windows);
    }
    hide *;
  }

  lemma LowReportSettles(found: Durable, s: Process, m: u64, windows: u64)
    requires s.pc == Building && s.running == RunningAt(found, s.request, m) && windows <= m
    ensures var t := Next(Next(Next(OnReport(s, windows), Proceed), Proceed), Proceed);
      t.pc == Building && t.reported == s.reported + [windows] && t.durable == s.durable
  {
    hide Charged;
    hide Commit;
    hide Decide;
    hide CompletedRecord;
    hide FailedRecord;
  }

  lemma HighReportSettles(found: Durable, s: Process, m: u64, windows: u64)
    requires s.pc == Building && Charged(found, s.request) < s.request.maxRetries
    requires s.running == RunningAt(found, s.request, m) && s.durable.ledger == Some(s.running)
    requires s.retries == Charged(found, s.request) && windows > m
    ensures var t := Next(Next(Next(OnReport(s, windows), Proceed), Proceed), Proceed);
      if windows <= m + 1 then
        && t.pc == Building && t.reported == s.reported + [windows]
        && t.durable == Durable(Some(RunningAt(found, s.request, windows)), s.durable.store)
      else t.pc == Stopped(false) && t.durable == s.durable && t.events == s.events
  {
    var s1 := OnReport(s, windows);
    assert s1.running == RunningAt(found, s.request, windows);
    TakenIff(found, s.request, m, s1.running);
    hide Charged;
    hide Accepts;
    hide Decide;
    hide CompletedRecord;
    if windows <= m + 1 {
      RaisedSettles(s1, windows);
    } else {
      assert FailedRecord(s1) == FailedAt(found, s.request, windows);
      TakenIff(found, s.request, m, FailedRecord(s1));
      SkippedSettles(s1, windows);
    }
  }

  lemma RaisedSettles(s: Process, windows: u64)
    requires s.pc == CommitProgress(windows) && Accepts(s.durable.ledger, s.running)
    ensures var t := Next(Next(Next(s, Proceed), Proceed), Proceed);
      && t.pc == Building && t.reported == s.reported
      && t.durable == Durable(Some(s.running), s.durable.store)
  {
    hide Accepts;
    hide Decide;
    hide CompletedRecord;
    hide FailedRecord;
  }

  lemma SkippedSettles(s: Process, windows: u64)
    requires s.pc == CommitProgress(windows)
    requires !Accepts(s.durable.ledger, s.running) && !Accepts(s.durable.ledger, FailedRecord(s))
    ensures var t := Next(Next(Next(s, Proceed), Proceed), Proceed);
      t.pc == Stopped(false) && t.durable == s.durable && t.events == s.events
  {
    assert FailedRecord(s.(pc := CommitFailure)) == FailedRecord(s);
    hide Accepts;
    hide Decide;
    hide CompletedRecord;
    hide FailedRecord;
  }

  // ----- What a step that fails leads to -----

  predicate InCallback(pc: Pc) {
    pc.CommitProgress? || pc.EmitBatch? || pc.EmitProgress?
  }

  lemma CallbackState(found: Durable, run: Run)
    requires InCallback(Final(found, run).pc)
    ensures var s := Final(found, run);
      && s.request == run.request && Charged(found, run.request) < run.request.maxRetries
      && s.retries == Charged(found, run.request)
      && s.running == RunningAt(found, run.request, MaxReported(s.reported))
      && s.durable.ledger.Some? && s.durable.ledger.value.nextBatch <= MaxReported(s.reported)
      && s.durable.ledger == Some(RunningAt(found, run.request, s.durable.ledger.value.nextBatch))
  {
    FinalHolds(found, run);
    hide Final;
    hide Truthful;
    hide Accounted;
    hide Charged;
    hide MaxReported;
    hide Batches;
  }

  /** A write or emission that fails in the progress callback makes the build fail; anywhere else it ends the run. */
  lemma FaultEnds(found: Durable, run: Run, rest: seq<Choice>)
    requires !Final(found, run).pc.Building? && !Final(found, run).pc.Stopped? && Granted(rest) >= 2
    ensures InCallback(Final(found, run).pc) ==> Charged(found, run.request) < run.request.maxRetries
    ensures var s, t := Final(found, run), Final(found, Longer(run, [Fault] + rest));
      && t.pc == Stopped(false)
      && if InCallback(s.pc) && s.durable.ledger.Some?
            && MaxReported(s.reported) <= SatAdd(s.durable.ledger.value.nextBatch, 1) then
           && t.events == s.events + [Event.Failed(Charged(found, run.request) + 1)]
           && t.durable == Durable(Some(FailedAt(found, run.request, MaxReported(s.reported))), s.durable.store)
         else t.events == s.events && t.durable == s.durable
  {
    var s := Final(found, run);
    LongerRun(found, run, [Fault] + rest);
    TailOfCons(Fault, rest);
    RefusedStep(s);
    hide *;
    if InCallback(s.pc) {
      CallbackState(found, run);
      var held := s.durable.ledger.value.nextBatch;
      FailureTailEnds(found, s.(pc := CommitFailure), held, MaxReported(s.reported), rest);
    } else {
      StoppedForEver(s.(pc := Stopped(false)), rest);
    }
  }

  lemma RefusedStep(s: Process)
    requires !s.pc.Building? && !s.pc.Stopped?
    ensures Next(s, Fault) == s.(pc := if InCallback(s.pc) then CommitFailure else Stopped(false))
  {
  }

  // ----- How a run begins -----

  function Six(): seq<Choice> {
    [Proceed, Proceed, Proceed, Proceed, Proceed, Proceed]
  }

  /** The job is done, its attempts are used up, or an attempt begins. */
  datatype Beginning = Answered | UsedUp | Begins

  function BeginningOf(found: Durable, request: Request): Beginning {
    if Usable(found, request) && found.ledger.value.state == JobState.Completed && !request.collectMetrics then Answered
    else if Charged(found, request) >= request.maxRetries then UsedUp
    else Begins
  }

  lemma ExecSix(s: Process)
    ensures Exec(s, Six())
         == Next(Next(Next(Next(Next(Next(s, Proceed), Proceed), Proceed), Proceed), Proceed), Proceed)
  {
    ExecThree(s, [Proceed, Proceed, Proceed]);
    var t := Next(Next(Next(s, Proceed), Proceed), Proceed);
    ExecThree(t, [Proceed, Proceed, Proceed]);
    ExecAppend(s, [Proceed, Proceed, Proceed], [Proceed, Proceed, Proceed]);
    assert Six() == [Proceed, Proceed, Proceed] + [Proceed, Proceed, Proceed];
    hide Next;
    hide Exec;
  }

  /**
   What a run does before the build, when nothing fails: it answers a completed job from its store, announces a budget
   that is used up, or records the attempt - whatever record it found, with nothing else left of it.
   */
  lemma RunBegins(found: Durable, request: Request)
    requires request.maxRetries > 0
    ensures var s, charged := Final(found, Run(request, Six())), Charged(found, request);
      match BeginningOf(found, request)
      case Answered =>
        && s.durable == found
        && (found.store.Some? ==> s.pc == Stopped(true) && s.events == [Event.Completed(found.store.value)])
        && (found.store.None? ==> s.pc == Stopped(false) && s.events == [])
      case UsedUp => s.durable == found && s.pc == Stopped(false) && s.events == [Event.Failed(charged)]
      case Begins =>
        && s.pc == Building && s.reported == []
        && s.durable == Durable(Some(RunningAt(found, request, 0)), found.store)
  {
    var s := Start(found, request);
    ExecSix(s);
    hide Exec;
    match BeginningOf(found, request)
    case Answered =>
      BeginsAnswering(found, request);
    case UsedUp =>
      BeginsUsedUp(found, request);
    case Begins =>
      BeginsAttempt(found, request);
  }

  lemma BeginsAnswering(found: Durable, request: Request)
    requires request.maxRetries > 0 && BeginningOf(found, request) == Answered
    ensures var s := Next(Next(Next(Start(found, request), Proceed), Proceed), Proceed);
      && s.durable == found
      && (found.store.Some? ==> s.pc == Stopped(true) && s.events == [Event.Completed(found.store.value)])
      && (found.store.None? ==> s.pc == Stopped(false) && s.events == [])
    ensures var s := Next(Next(Next(Start(found, request), Proceed), Proceed), Proceed);
      Next(Next(Next(s, Proceed), Proceed), Proceed) == s
  {
    hide Commit;
    hide OnReport;
    hide CompletedRecord;
    hide FailedRecord;
  }

  lemma BeginsUsedUp(found: Durable, request: Request)
    requires request.maxRetries > 0 && BeginningOf(found, request) == UsedUp
    ensures var s := Next(Next(Start(found, request), Proceed), Proceed);
      s.durable == found && s.pc == Stopped(false) && s.events == [Event.Failed(Charged(found, request))]
    ensures var s := Next(Next(Start(found, request), Proceed), Proceed);
      Next(Next(Next(Next(s, Proceed), Proceed), Proceed), Proceed) == s
  {
    hide Commit;
    hide OnReport;
    hide CompletedRecord;
    hide FailedRecord;
  }

  /** From the commit of the attempt on. */
  lemma AttemptIsRecorded(s: Process, charged: u32)
    requires s.pc == CommitRunning && s.durable.ledger == None && s.reported == []
    requires charged < s.request.maxRetries && s.retries == charged && s.running == FreshRecord(s.request, charged)
    ensures var t := Next(Next(Next(s, Proceed), Proceed), Proceed);
      && t.pc == Building && t.reported == []
      && t.durable == Durable(Some(FreshRecord(s.request, charged)), s.durable.store)
      && Next(t, Proceed) == t
  {
    AttemptIsWritten(s, charged);
    AttemptIsAnnounced(Next(s, Proceed));
    hide Next;
    hide FreshRecord;
  }

  lemma AttemptIsWritten(s: Process, charged: u32)
    requires s.pc == CommitRunning && s.durable.ledger == None
    requires charged < s.request.maxRetries && s.running == FreshRecord(s.request, charged)
    ensures Next(s, Proceed)
         == s.(durable := Durable(Some(s.running), s.durable.store), began := true, pc := EmitStarted)
  {
    hide Decide;
    hide OnReport;
    hide CompletedRecord;
    hide FailedRecord;
    hide Attempt;
  }

  lemma AttemptIsAnnounced(s: Process)
    requires s.pc == EmitStarted
    ensures var t := Next(Next(s, Proceed), Proceed);
      t == s.(events := s.events + [Started(Attempt(s))], pc := Building) && Next(t, Proceed) == t
  {
    hide Decide;
    hide OnReport;
    hide CompletedRecord;
    hide FailedRecord;
    hide Attempt;
    hide Commit;
  }

  lemma BeginsAttempt(found: Durable, request: Request)
    requires request.maxRetries > 0 && BeginningOf(found, request) == Begins
    ensures var s := Start(found, request);
      var t := Next(Next(Next(Next(Next(Next(s, Proceed), Proceed), Proceed), Proceed), Proceed), Proceed);
      && t.pc == Building && t.reported == []
      && t.durable == Durable(Some(RunningAt(found, request, 0)), found.store)
  {
    var s, charged := Start(found, request), Charged(found, request);
    assert RunningAt(found, request, 0) == FreshRecord(request, charged);
    var s1 := Next(s, Proceed);
    if found.ledger.None? {
      AttemptIsRecorded(s1, charged);
    } else if Usable(found, request) {
      assert s1.pc == RemovePrevious;
      AttemptIsRecorded(Next(s1, Proceed), charged);
    } else {
      assert s1.pc == RemoveIncompatible;
      AttemptIsRecorded(Next(Next(s1, Proceed), Proceed), charged);
    }
    hide Commit;
    hide OnReport;
    hide CompletedRecord;
    hide FailedRecord;
  }

  // ----- A run that nothing disturbs -----

  /** What the environment decides while these reports arrive. */
  function Arriving(reports: seq<u64>): seq<Choice> {
    if reports == [] then []
    else Arriving(reports[..|reports| - 1]) + [Report(reports[|reports| - 1]), Proceed, Proceed, Proceed]
  }

  lemma {:induction false} SteadyEndsHighest(reports: seq<u64>)
    requires Steady(reports)
    ensures LastIsHighest(reports)
    ensures reports != [] ==>
      Steady(reports[..|reports| - 1]) && reports[|reports| - 1] <= MaxReported(reports[..|reports| - 1]) + 1
  {
    SteadyLast(reports);
    if reports != [] {
      var init := reports[..|reports| - 1];
      assert forall i :: 0 <= i < |init| ==> init[..i] == reports[..i] && init[i] == reports[i];
    }
  }

  lemma {:induction false} ReportsArrive(found: Durable, request: Request, reports: seq<u64>)
    requires request.maxRetries > 0 && BeginningOf(found, request) == Begins && Steady(reports)
    ensures var s := Final(found, Run(request, Six() + Arriving(reports)));
      && s.pc == Building && s.reported == reports
      && s.durable == Durable(Some(RunningAt(found, request, MaxReported(reports))), found.store)
    decreases |reports|
  {
    if reports == [] {
      RunBegins(found, request);
      assert Six() + [] == Six();
      NothingReported();
    } else {
      var init, w := reports[..|reports| - 1], reports[|reports| - 1];
      var run := Run(request, Six() + Arriving(init));
      SteadyEndsHighest(reports);
      ReportsArrive(found, request, init);
      ReportGoesThrough(found, run, w);
      Associative(Six(), Arriving(init), [Report(w), Proceed, Proceed, Proceed]);
      InitAndLast(reports);
      hide Final;
      hide Six;
      hide RunningAt;
      hide Steady;
    }
  }

  /**
   Nothing fails, the reports are steady, and the build delivers: the run exits well, its job is recorded as completed
   at the highest report, the store is the one published, and its events are the whole story and the completion.
   */
  lemma UndisturbedRunCompletes(found: Durable, request: Request, reports: seq<u64>, vectors: nat)
    requires request.maxRetries > 0 && BeginningOf(found, request) == Begins && Steady(reports)
    ensures Charged(found, request) < request.maxRetries
    ensures var choices := Six() + Arriving(reports) + [Publish(vectors), BuildOk, Proceed, Proceed];
      var s := Final(found, Run(request, choices));
      && s.pc == Stopped(true)
      && s.durable == Durable(Some(CompletedAt(found, request, MaxReported(reports))), Some(vectors))
      && s.events == Story(found, request, reports) + [Event.Completed(vectors)]
  {
    var before := Run(request, Six() + Arriving(reports));
    ReportsArrive(found, request, reports);
    EventsTellTheRun(found, before);
    SteadyEndsHighest(reports);
    Published(found, before, vectors);
    var run := Longer(before, [Publish(vectors)]);
    TwoGranted();
    DeliveredBuildEnds(found, run, [Proceed, Proceed]);
    BuildingFacts(found, before);
    assert Longer(run, [BuildOk] + [Proceed, Proceed])
        == Run(request, Six() + Arriving(reports) + [Publish(vectors), BuildOk, Proceed, Proceed]) by {
      assert [Publish(vectors)] + ([BuildOk] + [Proceed, Proceed]) == [Publish(vectors), BuildOk, Proceed, Proceed];
      Associative(before.choices, [Publish(vectors)], [BuildOk] + [Proceed, Proceed]);
    }
    hide *;
  }

  lemma TwoGranted()
    ensures Granted([Proceed, Proceed]) == 2
  {
    assert [Proceed, Proceed][1..] == [Proceed] && [Proceed][1..] == [];
  }

  lemma Published(found: Durable, run: Run, vectors: nat)
    requires Final(found, run).pc == Building
    ensures var s := Final(found, run);
      Final(found, Longer(run, [Publish(vectors)])) == s.(durable := s.durable.(store := Some(vectors)))
  {
    LongerRun(found, run, [Publish(vectors)]);
    assert [Publish(vectors)][1..] == [];
    hide Final;
    hide OnReport;
  }

  /** Nothing fails but the build: the run exits badly, with the attempt charged and the failure announced. */
  lemma UndisturbedRunFails(found: Durable, request: Request, reports: seq<u64>)
    requires request.maxRetries > 0 && BeginningOf(found, request) == Begins && Steady(reports)
    ensures Charged(found, request) < request.maxRetries
    ensures var s := Final(found, Run(request, Six() + Arriving(reports) + [BuildErr, Proceed, Proceed]));
      && s.pc == Stopped(false)
      && s.durable == Durable(Some(FailedAt(found, request, MaxReported(reports))), found.store)
      && s.events == Story(found, request, reports) + [Event.Failed(Charged(found, request) + 1)]
  {
    hide *;
    var run := Run(request, Six() + Arriving(reports));
    ReportsArrive(found, request, reports);
    EventsTellTheRun(found, run);
    BuildingFacts(found, run);
    TwoGranted();
    FailedBuildEnds(found, run, [Proceed, Proceed]);
    TailIs(BuildErr);
    LongerIs(run, [BuildErr, Proceed, Proceed]);
  }

  lemma TailIs(c: Choice)
    ensures [c] + [Proceed, Proceed] == [c, Proceed, Proceed]
  {
  }

  lemma LongerIs(run: Run, choices: seq<Choice>)
    ensures Longer(run, choices) == Run(run.request, run.choices + choices)
  {
  }
}
