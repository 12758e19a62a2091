/** The retry budget and the other promises of the embedding worker, over any sequence of runs. */
module WorkerBudget {
  import opened Options
  import opened Machine
  import opened JobLedger
  import opened EmbedWorker
  import opened WorkerSafety

  lemma FinalHolds(found: Durable, run: Run)
    ensures Inv(Final(found, run), found)
    ensures Final(found, run).request == run.request
  {
    StartHolds(found, run.request);
    ExecHolds(Start(found, run.request), run.choices, found);
    ExecKeepsRequest(Start(found, run.request), run.choices);
  }

  lemma DecideKeepsRequest(s: Process)
    ensures Decide(s).request == s.request
  {
    hide Spent;
    hide FreshRecord;
  }

  lemma CommitKeepsRequest(s: Process, job: JobRecord, accepted: Pc, refused: Pc)
    ensures Commit(s, job, accepted, refused).request == s.request
  {
    hide Accepts;
  }

  lemma PerformKeepsRequest(s: Process)
    ensures Perform(s).request == s.request
  {
    hide CompletedRecord;
    hide FailedRecord;
    hide Attempt;
    hide Decide;
    hide Commit;
    match s.pc
    case Load => DecideKeepsRequest(s.(previous := s.durable.ledger));
    case EmitInvalidated => DecideKeepsRequest(Emit(s, Invalidated, EmitInvalidated).(previous := None));
    case CommitRunning => CommitKeepsRequest(s, s.running, EmitStarted, Stopped(false));
    case CommitProgress(windows) => CommitKeepsRequest(s, s.running, EmitBatch(windows), CommitFailure);
    case CommitCompleted => CommitKeepsRequest(s, CompletedRecord(s), EmitCompleted, Stopped(false));
    case CommitFailure => CommitKeepsRequest(s, FailedRecord(s), EmitFailure, Stopped(false));
    case _ =>
  }

  lemma NextKeepsRequest(s: Process, c: Choice)
    ensures Next(s, c).request == s.request
  {
    PerformKeepsRequest(s);
    hide Perform;
    hide SatAdd;
  }

  lemma {:induction false} ExecKeepsRequest(s: Process, choices: seq<Choice>)
    ensures Exec(s, choices).request == s.request
    decreases |choices|
  {
    if choices != [] {
      NextKeepsRequest(s, choices[0]);
      hide Next;
      ExecKeepsRequest(Next(s, choices[0]), choices[1..]);
    }
  }

  // ----- One run -----

  /**
   Wherever a run is cut: every emitted event is backed by what is durable, batches were acknowledged in strictly
   increasing order, an attempt number is the charged failures plus one and within the limit, and a record left
   running names one batch more than it has finished.
   */
  lemma EveryCrashPointIsSafe(found: Durable, run: Run)
    ensures var s := Final(found, run);
      && (forall e :: e in s.events ==> Acknowledged(e, s, found))
      && StrictlyIncreasing(Batches(s.events))
      && (forall a: u32 :: Started(a) in s.events ==>
            1 <= a <= run.request.maxRetries && a == Charged(found, run.request) + 1)
      && (forall b: u64 :: BatchCommitted(b) in s.events ==>
            s.durable.ledger.Some? && b + 1 <= s.durable.ledger.value.nextBatch)
      && (forall v: nat :: Event.Completed(v) in s.events ==>
            && s.durable.store == Some(v)
            && s.durable.ledger.Some? && s.durable.ledger.value.state == JobState.Completed)
      && (forall r: u32 :: Event.Failed(r) in s.events ==> Spent(s.durable.ledger) == r)
      && (s.began && s.durable.ledger.Some? && s.durable.ledger.value.state == JobState.Running ==>
            s.durable.ledger.value.totalBatches == SatAdd(s.durable.ledger.value.nextBatch, 1))
      && (s.pc == Building ==> s.durable.ledger.Some? && s.durable.ledger.value.nextBatch == MaxReported(s.reported))
  {
    FinalHolds(found, run);
  }

  /** The record found is the job's own, or there is none. */
  predicate OwnLedger(d: Durable, request: Request) {
    d.ledger.None? || Usable(d, request)
  }

  function One(b: bool): nat {
    if b then 1 else 0
  }

  /** The run stopped after removing a record that stood for failed attempts, before recording its own. */
  predicate LostInWindow(found: Durable, s: Process) {
    s.removed && !s.began && Spent(found.ledger) > 0
  }

  /** Attempts are charged exactly, and a completion forgives its own attempt - unless the run stopped in the window. */
  lemma SpentIsExactIff(found: Durable, run: Run)
    requires OwnLedger(found, run.request)
    ensures var s := Final(found, run);
      && OwnLedger(s.durable, run.request)
      && (Spent(s.durable.ledger) + One(s.finished) == Spent(found.ledger) + One(s.began) <==> !LostInWindow(found, s))
      && (LostInWindow(found, s) ==> s.durable.ledger == None)
      && StartedCount(s.events) <= One(s.began)
  {
    FinalHolds(found, run);
  }

  // ----- The ledger over runs -----

  /** What the ledger can hold when every request sets the same limit. */
  predicate LedgerOk(ledger: Option<JobRecord>, maxRetries: u32) {
    ledger.Some? ==>
      var r := ledger.value;
      && WellFormed(r)
      && r.maxRetries == maxRetries
      && match r.state
         case Pending => 0 < r.retries < maxRetries
         case Running => r.retries < maxRetries
         case Completed => r.retries < maxRetries
         case Failed => r.retries >= maxRetries
         case Cancelled => false
  }

  lemma RunKeepsLedgerOk(found: Durable, run: Run)
    requires LedgerOk(found.ledger, run.request.maxRetries)
    ensures LedgerOk(Final(found, run).durable.ledger, run.request.maxRetries)
  {
    FinalHolds(found, run);
  }

  /** From an empty ledger, over any runs with one limit - whatever their recipes, wherever they were cut. */
  lemma {:induction false} LedgerStaysOk(d: Durable, runs: seq<Run>, maxRetries: u32)
    requires LedgerOk(d.ledger, maxRetries)
    requires forall run :: run in runs ==> run.request.maxRetries == maxRetries
    ensures LedgerOk(AfterRuns(d, runs).ledger, maxRetries)
    decreases |runs|
  {
    if runs != [] {
      assert runs[0] in runs;
      RunKeepsLedgerOk(d, runs[0]);
      LedgerStaysOk(Final(d, runs[0]).durable, runs[1..], maxRetries);
    }
  }

  function TotalBegan(d: Durable, runs: seq<Run>): nat
    decreases |runs|
  {
    if runs == [] then 0
    else var s := Final(d, runs[0]); One(s.began) + TotalBegan(s.durable, runs[1..])
  }

  function TotalFinished(d: Durable, runs: seq<Run>): nat
    decreases |runs|
  {
    if runs == [] then 0
    else var s := Final(d, runs[0]); One(s.finished) + TotalFinished(s.durable, runs[1..])
  }

  function TotalStarted(d: Durable, runs: seq<Run>): nat
    decreases |runs|
  {
    if runs == [] then 0
    else var s := Final(d, runs[0]); StartedCount(s.events) + TotalStarted(s.durable, runs[1..])
  }

  predicate NoneLost(d: Durable, runs: seq<Run>)
    decreases |runs|
  {
    runs == [] || (var s := Final(d, runs[0]); !LostInWindow(d, s) && NoneLost(s.durable, runs[1..]))
  }

  ghost predicate SameJob(runs: seq<Run>, recipe: Recipe, maxRetries: u32) {
    forall run :: run in runs ==> run.request.recipe == recipe && run.request.maxRetries == maxRetries
  }

  /**
   The retry budget. Over any runs of one job with one limit of which none was cut in the window, every attempt is
   charged once and for good, so attempts never exceed the limit by more than the completions they led to.
   */
  lemma {:induction false} RetriesAreBounded(d: Durable, runs: seq<Run>, recipe: Recipe, maxRetries: u32)
    requires SameJob(runs, recipe, maxRetries)
    requires OwnLedger(d, Request(recipe, maxRetries, false))
    requires LedgerOk(d.ledger, maxRetries)
    requires NoneLost(d, runs)
    ensures Spent(d.ledger) + TotalBegan(d, runs) == Spent(AfterRuns(d, runs).ledger) + TotalFinished(d, runs)
    ensures TotalStarted(d, runs) <= TotalBegan(d, runs)
    ensures Spent(d.ledger) + TotalStarted(d, runs) <= maxRetries + TotalFinished(d, runs)
    decreases |runs|
  {
    if runs != [] {
      assert runs[0] in runs;
      SpentIsExactIff(d, runs[0]);
      RunKeepsLedgerOk(d, runs[0]);
      RetriesAreBounded(Final(d, runs[0]).durable, runs[1..], recipe, maxRetries);
    }
  }

  // ----- The window -----

  /** Killed right after announcing its attempt. */
  ghost function StartAndDie(request: Request): Run {
    Run(request, [Proceed, Proceed, Proceed])
  }

  /** Killed between the removal of the old record and the commit of the new one. */
  ghost function DieInWindow(request: Request): Run {
    Run(request, [Proceed, Proceed])
  }

  lemma StartAndDieFrom(d: Durable, request: Request)
    requires d.ledger == None && request.maxRetries > 0
    ensures var s := Final(d, StartAndDie(request));
      && s.durable == d.(ledger := Some(FreshRecord(request, 0)))
      && s.events == [Started(1)] && StartedCount(s.events) == 1 && !s.finished
  {
    var s0 := Start(d, request);
    var s1 := Next(s0, Proceed);
    var s2 := Next(s1, Proceed);
    var s3 := Next(s2, Proceed);
    ExecThree(s0, [Proceed, Proceed, Proceed]);
    assert s3.events == [] + [Started(1)];
    Emitted([], Started(1));
    NothingEmitted();
  }

  lemma DieInWindowFrom(d: Durable, request: Request)
    requires request.maxRetries >= 2 && d.ledger == Some(FreshRecord(request, 0))
    ensures var s := Final(d, DieInWindow(request));
      s.durable == d.(ledger := None) && s.events == [] && StartedCount(s.events) == 0 && !s.finished
  {
    var s0 := Start(d, request);
    var s1 := Next(s0, Proceed);
    assert s1.pc == RemovePrevious;
    ExecTwo(s0, [Proceed, Proceed]);
    NothingEmitted();
  }

  lemma ExecTwo(s: Process, choices: seq<Choice>)
    requires |choices| == 2
    ensures Exec(s, choices) == Next(Next(s, choices[0]), choices[1])
  {
    assert choices[1..][0] == choices[1] && choices[1..][1..] == [];
    assert Exec(Next(s, choices[0]), choices[1..]) == Exec(Next(Next(s, choices[0]), choices[1]), []);
  }

  lemma ExecThree(s: Process, choices: seq<Choice>)
    requires |choices| == 3
    ensures Exec(s, choices) == Next(Next(Next(s, choices[0]), choices[1]), choices[2])
  {
    ExecTwo(Next(s, choices[0]), choices[1..]);
  }

  ghost function Cycles(request: Request, n: nat): seq<Run> {
    if n == 0 then [] else [StartAndDie(request), DieInWindow(request)] + Cycles(request, n - 1)
  }

  /** Two well-timed kills per attempt let a job with a limit of two or more start any number of attempts. */
  lemma {:induction false} CyclesAreUnbounded(d: Durable, request: Request, n: nat)
    requires d.ledger == None && request.maxRetries >= 2
    ensures TotalStarted(d, Cycles(request, n)) == n
    ensures TotalFinished(d, Cycles(request, n)) == 0
    ensures SameJob(Cycles(request, n), request.recipe, request.maxRetries)
  {
    hide *;
    if n == 0 {
      NoCycles(d, request);
    } else {
      var first, second, rest := StartAndDie(request), DieInWindow(request), Cycles(request, n - 1);
      CycleRuns(request, n);
      StartAndDieFrom(d, request);
      var d1 := Final(d, first).durable;
      DieInWindowFrom(d1, request);
      assert Final(d1, second).durable == d;
      CyclesAreUnbounded(d, request, n - 1);
      OneMoreRun(d, first, [second] + rest, request.recipe, request.maxRetries);
      OneMoreRun(d1, second, rest, request.recipe, request.maxRetries);
    }
  }

  lemma NoCycles(d: Durable, request: Request)
    ensures Cycles(request, 0) == []
    ensures TotalStarted(d, []) == 0 == TotalFinished(d, [])
    ensures forall recipe, maxRetries :: SameJob([], recipe, maxRetries)
  {
  }

  lemma CycleRuns(request: Request, n: nat)
    requires n > 0
    ensures Cycles(request, n) == [StartAndDie(request)] + ([DieInWindow(request)] + Cycles(request, n - 1))
    ensures StartAndDie(request).request == request == DieInWindow(request).request
    ensures One(false) == 0
  {
  }

  /** The totals, and the job, of a first run and those that follow. */
  lemma OneMoreRun(d: Durable, run: Run, rest: seq<Run>, recipe: Recipe, maxRetries: u32)
    ensures TotalStarted(d, [run] + rest)
         == StartedCount(Final(d, run).events) + TotalStarted(Final(d, run).durable, rest)
    ensures TotalFinished(d, [run] + rest)
         == One(Final(d, run).finished) + TotalFinished(Final(d, run).durable, rest)
    ensures SameJob([run] + rest, recipe, maxRetries) <==>
      run.request.recipe == recipe && run.request.maxRetries == maxRetries && SameJob(rest, recipe, maxRetries)
  {
    hide Final;
    hide StartedCount;
    assert ([run] + rest)[0] == run && ([run] + rest)[1..] == rest;
    assert forall r :: r in [run] + rest <==> r == run || r in rest;
  }

  /** With a limit of one, a record that may be removed stands for no failure, so nothing can be lost. */
  lemma {:induction false} LimitOneLosesNothing(d: Durable, runs: seq<Run>, recipe: Recipe)
    requires SameJob(runs, recipe, 1)
    requires OwnLedger(d, Request(recipe, 1, false))
    ensures NoneLost(d, runs)
    decreases |runs|
  {
    if runs != [] {
      assert runs[0] in runs;
      FinalHolds(d, runs[0]);
      SpentIsExactIff(d, runs[0]);
      LimitOneLosesNothing(Final(d, runs[0]).durable, runs[1..], recipe);
    }
  }

  ghost predicate BreaksBudget(d: Durable, runs: seq<Run>, recipe: Recipe, maxRetries: u32) {
    && d.ledger == None && SameJob(runs, recipe, maxRetries)
    && TotalFinished(d, runs) == 0 && TotalStarted(d, runs) > maxRetries
  }

  /** Some runs of one job, starting from an empty ledger and completing nothing, start more attempts than the limit. */
  ghost predicate BudgetBreakable(maxRetries: u32) {
    exists d: Durable, runs: seq<Run>, recipe: Recipe :: BreaksBudget(d, runs, recipe, maxRetries)
  }

  lemma LimitOneIsKept(d: Durable, runs: seq<Run>, recipe: Recipe)
    ensures !BreaksBudget(d, runs, recipe, 1)
  {
    hide TotalStarted;
    hide TotalFinished;
    hide AfterRuns;
    hide NoneLost;
    if d.ledger == None && SameJob(runs, recipe, 1) {
      LimitOneLosesNothing(d, runs, recipe);
      RetriesAreBounded(d, runs, recipe, 1);
    }
  }

  lemma CyclesBreakTheBudget(request: Request)
    requires request.maxRetries >= 2
    ensures BreaksBudget(Durable(None, None), Cycles(request, request.maxRetries + 1), request.recipe,
                         request.maxRetries)
  {
    hide TotalStarted;
    hide TotalFinished;
    hide Cycles;
    CyclesAreUnbounded(Durable(None, None), request, request.maxRetries + 1);
  }

  /** The documented budget - finite and durable across invocations - fails exactly for limits above one. */
  lemma BudgetBreakableIff(maxRetries: u32)
    requires maxRetries > 0
    ensures BudgetBreakable(maxRetries) <==> maxRetries >= 2
  {
    hide BreaksBudget;
    if maxRetries >= 2 {
      var request := Request(0, maxRetries, false);
      CyclesBreakTheBudget(request);
      assert BreaksBudget(Durable(None, None), Cycles(request, maxRetries + 1), 0, maxRetries);
    } else {
      forall d: Durable, runs: seq<Run>, recipe: Recipe ensures !BreaksBudget(d, runs, recipe, maxRetries) {
        LimitOneIsKept(d, runs, recipe);
      }
    }
  }

  // ----- Exhaustion and completion are stable -----

  /** No attempt is left for the request, and it cannot be answered from the active generation. */
  predicate Exhausted(d: Durable, request: Request) {
    && Usable(d, request)
    && Spent(d.ledger) >= request.maxRetries > 0
    && (d.ledger.value.state != JobState.Completed || request.collectMetrics)
  }

  predicate AnsweringExhausted(s: Process, d: Durable) {
    && s.durable == d && Exhausted(d, s.request)
    && match s.pc
       case Load => s.events == []
       case EmitExhausted => s.events == [] && s.retries == Spent(d.ledger)
       case Stopped(ok) => !ok && (s.events == [] || s.events == [Event.Failed(Spent(d.ledger))])
       case _ => false
  }

  lemma ExhaustedExecStep(s: Process, c: Choice, d: Durable)
    requires AnsweringExhausted(s, d)
    ensures AnsweringExhausted(Next(s, c), d)
  {
    hide CompletedRecord;
    hide FailedRecord;
    hide OnReport;
    hide Commit;
  }

  lemma {:induction false} ExhaustedExec(s: Process, choices: seq<Choice>, d: Durable)
    requires AnsweringExhausted(s, d)
    ensures AnsweringExhausted(Exec(s, choices), d)
    decreases |choices|
  {
    if choices != [] {
      ExhaustedExecStep(s, choices[0], d);
      hide Next;
      hide AnsweringExhausted;
      ExhaustedExec(Next(s, choices[0]), choices[1..], d);
    }
  }

  /** Later runs of an exhausted job announce the exhaustion at most and leave everything as it is, for ever. */
  lemma {:induction false} ExhaustionIsAbsorbing(d: Durable, runs: seq<Run>)
    requires forall run :: run in runs ==> Exhausted(d, run.request)
    ensures AfterRuns(d, runs) == d
    ensures forall run :: run in runs ==>
      var events := Final(d, run).events; events == [] || events == [Event.Failed(Spent(d.ledger))]
    decreases |runs|
  {
    forall run | run in runs
      ensures Final(d, run).durable == d
      ensures Final(d, run).events == [] || Final(d, run).events == [Event.Failed(Spent(d.ledger))]
    {
      ExhaustedExec(Start(d, run.request), run.choices, d);
    }
    if runs != [] {
      assert runs[0] in runs;
      assert forall run :: run in runs[1..] ==> run in runs;
      ExhaustionIsAbsorbing(d, runs[1..]);
    }
  }

  predicate Done(d: Durable, request: Request) {
    && Usable(d, request) && request.maxRetries > 0
    && d.ledger.value.state == JobState.Completed && !request.collectMetrics
  }

  predicate AnsweringDone(s: Process, d: Durable) {
    && s.durable == d && Done(d, s.request)
    && match s.pc
       case Load => s.events == []
       case LoadStore => s.events == []
       case EmitReloaded => s.events == [] && d.store.Some?
       case Stopped(ok) =>
         if ok then d.store.Some? && s.events == [Event.Completed(d.store.value)] else s.events == []
       case _ => false
  }

  lemma DoneExecStep(s: Process, c: Choice, d: Durable)
    requires AnsweringDone(s, d)
    ensures AnsweringDone(Next(s, c), d)
  {
    hide CompletedRecord;
    hide FailedRecord;
    hide OnReport;
    hide Commit;
  }

  lemma {:induction false} DoneExec(s: Process, choices: seq<Choice>, d: Durable)
    requires AnsweringDone(s, d)
    ensures AnsweringDone(Exec(s, choices), d)
    decreases |choices|
  {
    if choices != [] {
      DoneExecStep(s, choices[0], d);
      hide Next;
      hide AnsweringDone;
      DoneExec(Next(s, choices[0]), choices[1..], d);
    }
  }

  /** A completed job that is asked for again, without metrics, is answered from the store and changes nothing. */
  lemma CompletionIsStable(d: Durable, run: Run)
    requires Done(d, run.request)
    ensures var s := Final(d, run);
      && s.durable == d
      && (s.pc == Stopped(true) <==> s.events != [])
      && (s.events != [] ==> d.store.Some? && s.events == [Event.Completed(d.store.value)])
  {
    DoneExec(Start(d, run.request), run.choices, d);
  }

  // ----- Which outcomes the ledger records -----

  /** A finished build is recorded as completed exactly when its last report was its highest. */
  lemma CompletionIsRecordedIff(found: Durable, run: Run)
    ensures var s := Final(found, run);
      s.pc == CommitCompleted ==>
        var t := Next(s, Proceed);
        && (t.pc == EmitCompleted <==> s.reported == [] || s.reported[|s.reported| - 1] == MaxReported(s.reported))
        && (t.pc != EmitCompleted ==> t.pc == Stopped(false) && t.durable == s.durable)
  {
    FinalHolds(found, run);
    var s := Final(found, run);
    LastIsAtMostMax(s.reported);
  }

  lemma LastIsAtMostMax(reported: seq<u64>)
    ensures reported != [] ==> reported[|reported| - 1] <= MaxReported(reported)
  {
  }

  /** A failed build is recorded as failed exactly when the report it could not record was at most one batch ahead. */
  lemma FailureIsRecordedIff(found: Durable, run: Run)
    ensures var s := Final(found, run);
      s.pc == CommitFailure ==>
        && s.durable.ledger.Some?
        && var t := Next(s, Proceed);
        && (t.pc == EmitFailure <==> MaxReported(s.reported) <= SatAdd(s.durable.ledger.value.nextBatch, 1))
        && (s.durable.ledger.value.nextBatch != MaxReported(s.reported) ==> BehindByOneReport(s))
        && (t.pc != EmitFailure ==> t.pc == Stopped(false) && t.durable == s.durable)
  {
    FinalHolds(found, run);
  }

  /** Each report names the windows finished so far, or one more: what a build that counts its windows does. */
  predicate Steady(reported: seq<u64>) {
    forall i :: 0 <= i < |reported| ==>
      var before := MaxReported(reported[..i]); before <= reported[i] <= before + 1
  }

  /** With steady reports the ledger refuses nothing: only the environment can keep an outcome from being recorded. */
  lemma SteadyBuildsAreRecorded(found: Durable, run: Run)
    ensures var s := Final(found, run); Steady(s.reported) ==>
      && (s.pc == CommitCompleted ==> Next(s, Proceed).pc == EmitCompleted)
      && (s.pc.CommitProgress? ==> Next(s, Proceed).pc == EmitBatch(s.pc.windows))
      && (s.pc == CommitFailure ==> Next(s, Proceed).pc == EmitFailure)
  {
    FinalHolds(found, run);
    CompletionIsRecordedIff(found, run);
    FailureIsRecordedIff(found, run);
    SteadyLast(Final(found, run).reported);
    hide Final;
    hide Steady;
  }

  lemma SteadyLast(r: seq<u64>)
    ensures r != [] && Steady(r) ==>
      MaxReported(r[..|r| - 1]) <= r[|r| - 1] <= MaxReported(r[..|r| - 1]) + 1
  {
    assert r[..|r|] == r;
    hide MaxReported;
  }
}
