/**
 The worker's main procedure in its own, imperative form: straight-line code with early exits, a progress
 callback that raises the running record, and two tails. It refines the step machine: whatever the environment
 decides, it leaves the ledger, the store and the events that the machine leaves.
 */
module WorkerMain {
  import opened Options
  import opened Machine
  import opened JobLedger
  import opened EmbedWorker
  import opened WorkerOutcome

  /** How one write or emission went; `Killed` when the process died before it. */
  datatype Verdict = Allowed | Denied | Killed

  datatype Exit = Success | Failure | Died

  function Advance(m: Process, v: Verdict): Process {
    match v
    case Allowed => Perform(m)
    case Denied => Refuse(m)
    case Killed => m
  }

  predicate Settling(m: Process) {
    !m.pc.Building? && !m.pc.Stopped?
  }

  function ExitAt(pc: Pc): Exit {
    match pc
    case Stopped(ok) => if ok then Success else Failure
    case _ => Died
  }

  function EarlyExit(v: Verdict): Exit {
    if v == Killed then Died else Failure
  }

  /** The machine is about to write this record. */
  predicate Committing(m: Process, job: JobRecord) {
    match m.pc
    case CommitRunning => job == m.running
    case CommitProgress(_) => job == m.running
    case CommitCompleted => job == CompletedRecord(m)
    case CommitFailure => job == FailedRecord(m)
    case _ => false
  }

  /** The machine is about to emit this event. */
  predicate Emitting(m: Process, e: Event) {
    match m.pc
    case EmitReloaded => m.durable.store.Some? && e == Event.Completed(m.durable.store.value)
    case EmitExhausted => e == Event.Failed(m.retries)
    case EmitStarted => e == Started(Attempt(m))
    case EmitBatch(_) => m.running.nextBatch > 0 && e == BatchCommitted(m.running.nextBatch - 1)
    case EmitProgress(windows) => e == Progress(windows, m.retries)
    case EmitCompleted => m.durable.store.Some? && e == Event.Completed(m.durable.store.value)
    case EmitFailure => e == Event.Failed(Attempt(m))
    case _ => false
  }

  /** Where a settled write leads. */
  function AfterCommit(pc: Pc, v: Verdict, accepted: bool): Pc {
    if v == Killed then pc
    else
      match pc
      case CommitRunning => if accepted then EmitStarted else Stopped(false)
      case CommitProgress(windows) => if accepted then EmitBatch(windows) else CommitFailure
      case CommitCompleted => if accepted then EmitCompleted else Stopped(false)
      case CommitFailure => if accepted then EmitFailure else Stopped(false)
      case _ => pc
  }

  /** Where a settled emission leads. */
  function AfterEmission(pc: Pc, v: Verdict): Pc {
    if v == Killed then pc
    else
      match pc
      case EmitBatch(windows) => if v == Allowed then EmitProgress(windows) else CommitFailure
      case EmitProgress(_) => if v == Allowed then Building else CommitFailure
      case EmitStarted => if v == Allowed then OpenSource else Stopped(false)
      case EmitReloaded => Stopped(v == Allowed)
      case EmitCompleted => Stopped(v == Allowed)
      case EmitExhausted => Stopped(false)
      case EmitFailure => Stopped(false)
      case _ => pc
  }

  /** The process's own variables are as they were. */
  predicate SameData(m: Process, t: Process) {
    t.request == m.request && t.running == m.running && t.retries == m.retries && t.latest == m.latest
  }

  lemma EmissionFacts(m: Process, e: Event, v: Verdict)
    requires Emitting(m, e)
    ensures var t := Advance(m, v);
      && t.pc == AfterEmission(m.pc, v) && t.durable == m.durable
      && t.events == (if v == Allowed then m.events + [e] else m.events)
      && SameData(if m.pc.EmitBatch? && v == Allowed then m.(latest := Some(m.pc.windows)) else m, t)
  {
    hide Perform;
    hide Refuse;
    match v
    case Allowed => AllowedEmission(m, e);
    case Denied => DeniedEmission(m, e);
    case Killed =>
  }

  lemma AllowedEmission(m: Process, e: Event)
    requires Emitting(m, e)
    ensures var t := Perform(m);
      && t.pc == AfterEmission(m.pc, Allowed) && t.durable == m.durable && t.events == m.events + [e]
      && SameData(if m.pc.EmitBatch? then m.(latest := Some(m.pc.windows)) else m, t)
  {
    PerformedEmission(m, e);
    hide Perform;
    hide Emitting;
    hide Attempt;
  }

  /** The step of an emission, without the others. */
  lemma PerformedEmission(m: Process, e: Event)
    requires Emitting(m, e)
    ensures var t := Emit(m, e, AfterEmission(m.pc, Allowed));
      Perform(m) == if m.pc.EmitBatch? then t.(latest := Some(m.pc.windows)) else t
  {
    hide Decide;
    hide Commit;
    hide CompletedRecord;
    hide FailedRecord;
    hide WithLedger;
    hide Attempt;
    hide Emit;
  }

  lemma DeniedEmission(m: Process, e: Event)
    requires Emitting(m, e)
    ensures var t := Refuse(m);
      t.pc == AfterEmission(m.pc, Denied) && t.durable == m.durable && t.events == m.events && SameData(m, t)
  {
  }

  /** How an exit shows in the events. */
  lemma RunOn(found: Durable, run: Run)
    ensures var s := Final(found, run);
      && (ExitAt(s.pc) == Success <==> EndsCompleted(s.events))
      && (ExitAt(s.pc) == Died ==> WithoutOutcome(s.events) == s.events)
  {
    EventsTellTheRun(found, run);
    hide Final;
    hide PartOfStory;
  }

  lemma Unroll(m: Process, choices: seq<Choice>)
    requires choices != []
    ensures Exec(m, choices) == Exec(Next(m, choices[0]), choices[1..])
  {
  }

  class Worker {
    // What outlives the process.
    var ledger: Option<JobRecord>
    var store: Option<nat>

    var events: seq<Event>
    var running: JobRecord
    var latest: Option<u64>

    /** The environment's decisions that are still to come. */
    var fates: seq<Choice>

    ghost var machine: Process
    ghost var goal: Process

    /** The process is where the machine is, and the machine is on its way to the goal. */
    ghost predicate Valid()
      reads this
    {
      && machine.durable == Durable(ledger, store)
      && machine.events == events
      && Exec(machine, fates) == goal
    }

    /** The process has ended, as the machine has. */
    ghost predicate Ended(exit: Exit)
      reads this
    {
      Valid() && goal == machine && exit == ExitAt(machine.pc)
    }

    constructor (ledger: Option<JobRecord>, store: Option<nat>, fates: seq<Choice>)
      ensures this.ledger == ledger && this.store == store && this.fates == fates
    {
      this.ledger, this.store, this.fates := ledger, store, fates;
      events, latest := [], None;
      running := FreshRecord(Request(0, 0, false), 0);
    }

    /** Waits for the environment to settle the current step; decisions about other steps pass by. */
    method Await() returns (v: Verdict)
      requires Exec(machine, fates) == goal && Settling(machine)
      modifies `fates, `machine
      ensures Exec(machine, fates) == goal && machine == Advance(old(machine), v)
      ensures |fates| <= |old(fates)|
      ensures v == Killed || machine.pc.Stopped? ==> goal == machine
    {
      while fates != []
        invariant Exec(machine, fates) == goal && machine == old(machine) && |fates| <= |old(fates)|
        decreases |fates|
      {
        var c := fates[0];
        Unroll(machine, fates);
        fates := fates[1..];
        if c == Proceed || c == Fault {
          v := if c == Proceed then Allowed else Denied;
          machine := Advance(machine, v);
          if machine.pc.Stopped? {
            StoppedForEver(machine, fates);
          }
          return;
        }
      }
      v := Killed;
    }

    method RemoveJob() returns (v: Verdict)
      requires Valid() && machine.pc in {RemoveIncompatible, RemovePrevious}
      modifies `fates, `ledger, `machine
      ensures Valid() && machine == Advance(old(machine), v) && SameData(old(machine), machine)
      ensures v == Allowed ==>
        machine.pc == if old(machine).pc == RemovePrevious then CommitRunning else EmitInvalidated
      ensures v == Denied ==> machine.pc == Stopped(false)
      ensures v == Killed || machine.pc.Stopped? ==> goal == machine
    {
      v := Await();
      if v == Allowed {
        ledger := None;
      }
    }

    /** Commits a record unless the environment or the ledger refuses it. */
    method CommitJob(job: JobRecord) returns (v: Verdict, accepted: bool)
      requires Valid() && Committing(machine, job)
      modifies `fates, `ledger, `machine
      ensures Valid() && |fates| <= |old(fates)|
      ensures accepted <==> v == Allowed && Accepts(old(ledger), job)
      ensures ledger == if accepted then Some(job) else old(ledger)
      ensures machine.pc == AfterCommit(old(machine).pc, v, accepted) && SameData(old(machine), machine)
      ensures v == Killed || machine.pc.Stopped? ==> goal == machine
    {
      v := Await();
      accepted := v == Allowed && Accepts(ledger, job);
      if accepted {
        ledger := Some(job);
      }
    }

    method EmitEvent(e: Event) returns (v: Verdict)
      requires Valid() && Emitting(machine, e)
      modifies `fates, `events, `machine
      ensures Valid() && |fates| <= |old(fates)|
      ensures machine.pc == AfterEmission(old(machine).pc, v)
      ensures SameData(if old(machine).pc.EmitBatch? && v == Allowed
                       then old(machine).(latest := Some(old(machine).pc.windows)) else old(machine), machine)
      ensures v == Killed || machine.pc.Stopped? ==> goal == machine
    {
      hide Exec;
      hide Perform;
      hide Refuse;
      ghost var m := machine;
      v := Await();
      EmissionFacts(m, e, v);
      if v == Allowed {
        events := events + [e];
      }
    }

    /** Tells that the old record was discarded. */
    method EmitInvalidation() returns (v: Verdict)
      requires Valid() && machine.pc == EmitInvalidated
      modifies `fates, `events, `machine
      ensures Valid() && machine == Advance(old(machine), v)
      ensures v == Killed || machine.pc.Stopped? ==> goal == machine
    {
      v := Await();
      if v == Allowed {
        events := events + [Invalidated];
      }
    }

    method OpenExport() returns (v: Verdict)
      requires Valid() && machine.pc == OpenSource
      modifies `fates, `machine
      ensures Valid() && SameData(old(machine), machine)
      ensures machine.pc == match v case Allowed => Building case Denied => Stopped(false) case Killed => OpenSource
      ensures v == Killed || machine.pc.Stopped? ==> goal == machine
    {
      v := Await();
    }

    method OpenGeneration() returns (v: Verdict)
      requires Valid() && machine.pc == LoadStore
      modifies `fates, `machine
      ensures Valid() && SameData(old(machine), machine)
      ensures machine.pc == match v
                            case Allowed => if store.Some? then EmitReloaded else Stopped(false)
                            case Denied => Stopped(false)
                            case Killed => LoadStore
      ensures v == Killed || machine.pc.Stopped? ==> goal == machine
    {
      v := Await();
    }

    /** Looks the job up, settles its retries and records the attempt. */
    method Prepare(request: Request) returns (retries: u32, exit: Option<Exit>)
      requires Valid() && machine == Start(Durable(ledger, store), request) && request.maxRetries > 0
      modifies this
      ensures goal == old(goal)
      ensures exit.Some? ==> Ended(exit.value)
      ensures exit.None? ==> Valid() && machine.pc == Building && machine.request == request
      ensures exit.None? ==> machine.retries == retries && machine.running == running
      ensures exit.None? ==> machine.latest == None == latest
    {
      hide AfterCommit;
      hide AfterEmission;
      hide Accepts;
      hide CompletedRecord;
      hide FailedRecord;
      retries := 0;
      ghost var m := machine;
      var v := Await();
      if v != Allowed { return retries, Some(EarlyExit(v)); }
      var previous := ledger;
      m := m.(previous := previous);
      if previous.Some? && !Compatible(previous.value, request.recipe) {
        v, m := Discard();
        if v != Allowed { return retries, Some(EarlyExit(v)); }
        previous := None;
      }
      retries, exit := Begin(request, previous, m);
    }

    /** Discards a record of another protocol or recipe, and tells so. */
    method Discard() returns (v: Verdict, ghost m: Process)
      requires Valid() && machine.pc == RemoveIncompatible
      modifies `fates, `ledger, `events, `machine
      ensures v == Allowed ==>
        Valid() && machine == Decide(m)
        && m.previous == None && m.request == old(machine.request) && m.latest == old(machine.latest)
      ensures v != Allowed ==> Ended(EarlyExit(v))
    {
      hide Exec;
      hide Decide;
      m := machine;
      v := RemoveJob();
      if v != Allowed { return; }
      m := Emit(machine, Invalidated, EmitInvalidated).(previous := None);
      v := EmitInvalidation();
    }

    /** Settles what the previous record allows, and records the attempt. */
    method Begin(request: Request, previous: Option<JobRecord>, ghost m: Process)
      returns (retries: u32, exit: Option<Exit>)
      requires Valid() && machine == Decide(m)
      requires m.previous == previous && m.request == request && m.latest == None
      modifies this
      ensures goal == old(goal)
      ensures exit.Some? ==> Ended(exit.value)
      ensures exit.None? ==> Valid() && machine.pc == Building && machine.request == request
      ensures exit.None? ==> machine.retries == retries && machine.running == running
      ensures exit.None? ==> machine.latest == None == latest
    {
      hide Exec;
      hide Perform;
      hide Refuse;
      hide AfterCommit;
      hide AfterEmission;
      hide Accepts;
      hide CompletedRecord;
      hide FailedRecord;
      retries, latest := 0, None;
      if previous.Some? && previous.value.state == JobState.Completed && !request.collectMetrics {
        var answered := Answer();
        return retries, Some(answered);
      }
      retries := Spent(previous);
      if retries >= request.maxRetries {
        var exhausted := Exhaust(retries);
        return retries, Some(exhausted);
      }
      exit := Retry(request, retries, previous.Some?);
    }

    /** Removes the old record, if there is one, and records the attempt. */
    method Retry(request: Request, retries: u32, again: bool) returns (exit: Option<Exit>)
      requires Valid() && machine.pc == if again then RemovePrevious else CommitRunning
      requires machine.request == request && machine.retries == retries
      requires machine.running == FreshRecord(request, retries)
      modifies `fates, `ledger, `machine, `events, `running
      ensures exit.Some? ==> Ended(exit.value)
      ensures exit.None? ==> Valid() && machine.pc == Building && machine.running == running
      ensures exit.None? ==> machine.request == request && machine.retries == retries
      ensures exit.None? ==> machine.latest == old(machine.latest)
    {
      hide Exec;
      hide Perform;
      hide Refuse;
      if again {
        var v := RemoveJob();
        if v != Allowed { return Some(EarlyExit(v)); }
      }
      running := JobRecord(PROTOCOL_VERSION, request.recipe, 0, 1, retries, request.maxRetries, JobState.Running);
      exit := Announce(retries);
    }

    /** Records the attempt, announces it and opens the source export. */
    method Announce(retries: u32) returns (exit: Option<Exit>)
      requires Valid() && machine.pc == CommitRunning && machine.running == running && machine.retries == retries
      modifies `fates, `ledger, `machine, `events
      ensures exit.Some? ==> Ended(exit.value)
      ensures exit.None? ==> Valid() && machine.pc == Building
      ensures machine.request == old(machine.request) && machine.retries == retries
      ensures machine.running == running && machine.latest == old(machine.latest)
    {
      hide Exec;
      hide Perform;
      hide Refuse;
      hide AfterEmission;
      hide CompletedRecord;
      hide FailedRecord;
      hide Accepts;
      var attempt := if retries < U32_MAX then retries + 1 else retries;
      var v, accepted := CommitJob(running);
      if !accepted { return Some(EarlyExit(v)); }
      exit := StartAttempt(attempt);
    }

    /** Announces the attempt and opens the source export. */
    method StartAttempt(attempt: u32) returns (exit: Option<Exit>)
      requires Valid() && machine.pc == EmitStarted && attempt == Attempt(machine)
      modifies `fates, `machine, `events
      ensures exit.Some? ==> Ended(exit.value)
      ensures exit.None? ==> Valid() && machine.pc == Building
      ensures SameData(old(machine), machine)
    {
      hide Exec;
      hide Perform;
      hide Refuse;
      hide Attempt;
      var v := EmitEvent(Started(attempt));
      if v != Allowed { return Some(EarlyExit(v)); }
      v := OpenExport();
      if v != Allowed { return Some(EarlyExit(v)); }
      exit := None;
    }

    /** Reports that no attempt is left. */
    method Exhaust(retries: u32) returns (exit: Exit)
      requires Valid() && machine.pc == EmitExhausted && machine.retries == retries
      modifies this
      ensures goal == old(goal) && Ended(exit)
    {
      hide Perform;
      hide Refuse;
      var v := EmitEvent(Event.Failed(retries));
      exit := if v == Killed then Died else Failure;
    }

    /** Answers a completed job from the active generation. */
    method Answer() returns (exit: Exit)
      requires Valid() && machine.pc == LoadStore
      modifies this
      ensures goal == old(goal) && Ended(exit)
    {
      hide Exec;
      hide Perform;
      hide Refuse;
      var v := OpenGeneration();
      if v != Allowed { return EarlyExit(v); }
      if store.None? { return Failure; }
      v := EmitEvent(Event.Completed(store.value));
      exit := if v == Killed then Died else if v == Denied then Failure else Success;
    }

    /** Records the raised batch, then acknowledges it. */
    method Checkpoint(windows: u64) returns (v: Verdict)
      requires Valid() && machine.pc == CommitProgress(windows)
      requires machine.running == running && running.nextBatch == windows > 0
      modifies `fates, `ledger, `events, `machine
      ensures Valid() && |fates| <= |old(fates)|
      ensures machine.request == old(machine).request && machine.retries == old(machine).retries
      ensures machine.running == running
      ensures match v
              case Allowed => machine.pc == EmitProgress(windows) && machine.latest == Some(windows)
              case Denied => machine.pc == CommitFailure
              case Killed => goal == machine && !machine.pc.Stopped?
    {
      hide Exec;
      hide Perform;
      hide Refuse;
      var accepted;
      v, accepted := CommitJob(running);
      if !accepted { return if v == Killed then Killed else Denied; }
      v := EmitEvent(BatchCommitted(running.nextBatch - 1));
    }

    /**
     The progress callback. `Allowed` lets the build go on, `Denied` makes it fail, `Killed` ends everything.
     The running record is raised first, so a refused write leaves it ahead of the ledger.
     */
    method OnProgress(windows: u64, retries: u32) returns (v: Verdict)
      requires machine.pc == Building && Exec(OnReport(machine, windows), fates) == goal
      requires machine.durable == Durable(ledger, store) && machine.events == events
      requires machine.running == running && machine.latest == latest && machine.retries == retries
      modifies this
      ensures Valid() && goal == old(goal) && |fates| <= |old(fates)|
      ensures machine.running == running && machine.request == old(machine.request) && machine.retries == retries
      ensures match v
              case Allowed => machine.pc == Building && machine.latest == latest
              case Denied => machine.pc == CommitFailure
              case Killed => goal == machine && !machine.pc.Stopped?
    {
      hide Exec;
      hide Perform;
      hide Refuse;
      hide AfterCommit;
      hide CompletedRecord;
      hide FailedRecord;
      hide Accepts;
      machine := OnReport(machine, windows);
      if windows > running.nextBatch {
        running := running.(nextBatch := windows, totalBatches := SatAdd(windows, 1));
        v := Checkpoint(windows);
        if v != Allowed { return; }
      }
      hide OnReport;
      v := ReportProgress(windows, retries);
    }

    /** Remembers the report and passes it on. */
    method ReportProgress(windows: u64, retries: u32) returns (v: Verdict)
      requires Valid() && machine.pc == EmitProgress(windows)
      requires machine.running == running && machine.latest == Some(windows) && machine.retries == retries
      modifies `latest, `fates, `events, `machine
      ensures Valid() && |fates| <= |old(fates)|
      ensures SameData(old(machine), machine) && latest == Some(windows)
      ensures match v
              case Allowed => machine.pc == Building
              case Denied => machine.pc == CommitFailure
              case Killed => goal == machine && !machine.pc.Stopped?
    {
      hide Exec;
      hide Perform;
      hide Refuse;
      latest := Some(windows);
      v := EmitEvent(Progress(windows, retries));
    }

    /** Drives the build until it ends: `Allowed` when it delivers a store, `Denied` when it fails. */
    method Build(retries: u32) returns (v: Verdict)
      requires Valid() && machine.pc == Building
      requires machine.running == running && machine.latest == latest && machine.retries == retries
      modifies this
      ensures Valid() && goal == old(goal)
      ensures machine.running == running && machine.request == old(machine.request) && machine.retries == retries
      ensures match v
              case Allowed => machine.pc == CommitCompleted && machine.latest == latest && store.Some?
              case Denied => machine.pc == CommitFailure
              case Killed => goal == machine && !machine.pc.Stopped?
    {
      hide OnReport;
      hide Perform;
      hide Refuse;
      while fates != []
        invariant Valid() && goal == old(goal) && machine.pc == Building
        invariant machine.running == running && machine.latest == latest
        invariant machine.request == old(machine.request) && machine.retries == retries
        decreases |fates|
      {
        var c := fates[0];
        Unroll(machine, fates);
        fates := fates[1..];
        match c
        case Report(windows) =>
          v := OnProgress(windows, retries);
          if v != Allowed { return; }
        case Publish(vectors) =>
          store := Some(vectors);
          machine := Next(machine, c);
        case BuildOk =>
          if store.Some? {
            machine := Next(machine, c);
            return Allowed;
          }
        case BuildErr =>
          machine := Next(machine, c);
          return Denied;
        case _ =>
      }
      v := Killed;
    }

    /** The tail of a build that delivered: record the completion, then acknowledge it. */
    method Complete() returns (exit: Exit)
      requires Valid() && machine.pc == CommitCompleted && store.Some?
      requires machine.running == running && machine.latest == latest
      modifies this
      ensures goal == old(goal) && Ended(exit)
    {
      hide Exec;
      hide Perform;
      hide Refuse;
      var batches := if latest.Some? then latest.value else running.nextBatch;
      var completed := running.(nextBatch := batches, totalBatches := batches, state := JobState.Completed);
      var v, accepted := CommitJob(completed);
      if !accepted { return EarlyExit(v); }
      v := EmitEvent(Event.Completed(store.value));
      exit := if v == Killed then Died else if v == Denied then Failure else Success;
    }

    /** The tail of a build that failed: charge the attempt, then report it. */
    method Fail(request: Request, retries: u32) returns (exit: Exit)
      requires Valid() && machine.pc == CommitFailure
      requires machine.running == running && machine.request == request && machine.retries == retries
      modifies this
      ensures goal == old(goal) && Ended(exit)
    {
      hide Exec;
      hide Perform;
      hide Refuse;
      var attempt := if retries < U32_MAX then retries + 1 else retries;
      var failed := running.(
        state := if attempt >= request.maxRetries then JobState.Failed else JobState.Pending, retries := attempt);
      assert failed == FailedRecord(machine);
      hide FailedRecord;
      var v, accepted := CommitJob(failed);
      if !accepted { return EarlyExit(v); }
      exit := ReportFailure(attempt);
    }

    /** Reports that the attempt failed. */
    method ReportFailure(attempt: u32) returns (exit: Exit)
      requires Valid() && machine.pc == EmitFailure && attempt == Attempt(machine)
      modifies `fates, `machine, `events
      ensures Ended(exit)
    {
      hide Exec;
      hide Perform;
      hide Refuse;
      hide Attempt;
      var v := EmitEvent(Event.Failed(attempt));
      exit := if v == Killed then Died else Failure;
    }

    /** One run of the worker, from the request to its exit or its death. */
    method Work(request: Request) returns (exit: Exit)
      modifies this
      ensures var s := Final(Durable(old(ledger), old(store)), Run(request, old(fates)));
        && Durable(ledger, store) == s.durable
        && events == s.events
        && exit == ExitAt(s.pc)
      ensures exit == Success <==> EndsCompleted(events)
      ensures exit == Died ==> WithoutOutcome(events) == events
    {
      RunOn(Durable(ledger, store), Run(request, fates));
      events := [];
      machine := Start(Durable(ledger, store), request);
      goal := Exec(machine, fates);
      if request.maxRetries == 0 {
        StoppedForEver(machine, fates);
        return Failure;
      }
      var retries, early := Prepare(request);
      if early.Some? {
        return early.value;
      }
      var v := Build(retries);
      match v
      case Allowed => exit := Complete();
      case Denied => exit := Fail(request, retries);
      case Killed => exit := Died;
    }
  }
}
