/** What a run of the worker tells and how it ends: the whole sequence of its events, and the outcome of its build. */
module WorkerOutcome {
  import opened Sequences
  import opened Machine
  import opened JobLedger
  import opened EmbedWorker
  import opened WorkerSafety
  import opened WorkerBudget

  // ----- The events of a run, in order -----

  /** A discarded record is announced before anything else. */
  function Prelude(found: Durable, request: Request): seq<Event> {
    if found.ledger.Some? && !Usable(found, request) then [Invalidated] else []
  }

  /** Every report is passed on; one that is higher than all before it is first acknowledged as a batch. */
  function ReportEvents(reported: seq<u64>, consumed: u32): seq<Event> {
    if reported == [] then []
    else ReportEvents(reported[..|reported| - 1], consumed) + LastReport(reported, consumed)
  }

  function RaiseEvent(reported: seq<u64>): seq<Event>
    requires reported != []
  {
    var w := reported[|reported| - 1];
    if w > MaxReported(reported[..|reported| - 1]) then [BatchCommitted(w - 1)] else []
  }

  function LastReport(reported: seq<u64>, consumed: u32): seq<Event>
    requires reported != []
  {
    RaiseEvent(reported) + [Progress(reported[|reported| - 1], consumed)]
  }

  /** The attempt is announced with its number, and every report after it. */
  function Story(found: Durable, request: Request, reported: seq<u64>): seq<Event>
    requires Charged(found, request) < request.maxRetries
  {
    var charged := Charged(found, request);
    Prelude(found, request) + [Started(charged + 1)] + ReportEvents(reported, charged)
  }

  /** All events but the outcome. */
  function WithoutOutcome(events: seq<Event>): seq<Event> {
    if events != [] && (events[|events| - 1].Completed? || events[|events| - 1].Failed?) then events[..|events| - 1]
    else events
  }

  predicate EndsCompleted(events: seq<Event>) {
    events != [] && events[|events| - 1].Completed?
  }

  /** Part of the story up to the last report, or without it. */
  ghost predicate PartOfStory(events: seq<Event>, s: Process, found: Durable) {
    var charged := Charged(found, s.request);
    if charged < s.request.maxRetries then events <= Story(found, s.request, s.reported) else events == []
  }

  /** How much has been told at each point. */
  ghost predicate Told(s: Process, found: Durable) {
    var charged := Charged(found, s.request);
    match s.pc
    case Load | RemoveIncompatible | EmitInvalidated | LoadStore | EmitReloaded | EmitExhausted | RemovePrevious =>
      s.events == []
    case CommitRunning | EmitStarted =>
      charged < s.request.maxRetries && s.events == Prelude(found, s.request) && s.reported == []
    case OpenSource | Building | CommitCompleted =>
      charged < s.request.maxRetries && s.events == Story(found, s.request, s.reported)
    case EmitCompleted =>
      s.began && charged < s.request.maxRetries && s.events == Story(found, s.request, s.reported)
    case CommitProgress(_) | EmitBatch(_) =>
      && charged < s.request.maxRetries && s.reported != [] && RaiseEvent(s.reported) != []
      && s.events == Story(found, s.request, s.reported[..|s.reported| - 1])
    case EmitProgress(_) =>
      && charged < s.request.maxRetries && s.reported != []
      && s.events == Story(found, s.request, s.reported[..|s.reported| - 1]) + RaiseEvent(s.reported)
    case CommitFailure | EmitFailure =>
      charged < s.request.maxRetries && s.events <= Story(found, s.request, s.reported)
    case Stopped(ok) =>
      && (ok <==> EndsCompleted(s.events))
      && PartOfStory(WithoutOutcome(s.events), s, found)
      && (ok && s.began && charged < s.request.maxRetries ==>
            WithoutOutcome(s.events) == Story(found, s.request, s.reported))
  }

  // ----- No event of the story is an outcome -----

  ghost predicate NoOutcome(events: seq<Event>) {
    forall e :: e in events ==> !e.Completed? && !e.Failed?
  }

  lemma {:induction false} ReportsTellNoOutcome(reported: seq<u64>, consumed: u32)
    ensures NoOutcome(ReportEvents(reported, consumed))
  {
    if reported != [] {
      ReportsTellNoOutcome(reported[..|reported| - 1], consumed);
    }
  }

  lemma StoryTellsNoOutcome(found: Durable, request: Request, reported: seq<u64>, events: seq<Event>)
    requires Charged(found, request) < request.maxRetries && events <= Story(found, request, reported)
    ensures NoOutcome(events)
  {
    ReportsTellNoOutcome(reported, Charged(found, request));
    forall e | e in events ensures e in Story(found, request, reported) {
    }
    hide ReportEvents;
    hide Charged;
    hide Usable;
  }

  lemma OutcomeComesLast(events: seq<Event>, e: Event)
    requires NoOutcome(events)
    ensures WithoutOutcome(events) == events && !EndsCompleted(events)
    ensures e.Completed? || e.Failed? ==> WithoutOutcome(events + [e]) == events
    ensures EndsCompleted(events + [e]) <==> e.Completed?
  {
    if events != [] {
      assert events[|events| - 1] in events;
    }
    assert (events + [e])[..|events|] == events;
  }

  lemma StoryGrows(found: Durable, request: Request, reported: seq<u64>)
    requires Charged(found, request) < request.maxRetries && reported != []
    ensures var before := Story(found, request, reported[..|reported| - 1]);
      && Story(found, request, reported) == before + LastReport(reported, Charged(found, request))
      && before <= before + RaiseEvent(reported) <= Story(found, request, reported)
  {
    var charged, init := Charged(found, request), reported[..|reported| - 1];
    var head := Prelude(found, request) + [Started(charged + 1)];
    Associative(head, ReportEvents(init, charged), LastReport(reported, charged));
    var before := Story(found, request, init);
    Associative(before, RaiseEvent(reported), [Progress(reported[|reported| - 1], charged)]);
    hide Prelude;
    hide RaiseEvent;
    hide Charged;
  }

  lemma StoryStarts(found: Durable, request: Request)
    requires Charged(found, request) < request.maxRetries
    ensures Story(found, request, []) == Prelude(found, request) + [Started(Charged(found, request) + 1)]
  {
    hide Charged;
    hide Prelude;
  }

  // ----- Every step tells the story -----

  lemma StartTells(found: Durable, request: Request)
    ensures Told(Start(found, request), found)
  {
    hide Charged;
    if request.maxRetries > 0 && Charged(found, request) < request.maxRetries {
      assert [] <= Story(found, request, []);
    }
  }

  /** An exit without an outcome, at a point at which part of the story has been told. */
  lemma ExitTells(s: Process, t: Process, found: Durable)
    requires Charged(found, s.request) < s.request.maxRetries && s.events <= Story(found, s.request, s.reported)
    requires t.pc == Stopped(false) && t.events == s.events && t.request == s.request && t.reported == s.reported
    ensures Told(t, found)
  {
    StoryTellsNoOutcome(found, s.request, s.reported, s.events);
    OutcomeComesLast(s.events, Invalidated);
    hide Story;
    hide Charged;
    hide WithoutOutcome;
  }

  lemma EmptyExitTells(t: Process, found: Durable)
    requires t.pc == Stopped(false) && t.events == []
    ensures Told(t, found)
  {
    hide Charged;
  }

  /** What has been told at each point is part of the story. */
  lemma ToldIsPart(s: Process, found: Durable)
    requires Told(s, found) && !s.pc.Stopped?
    ensures s.events != [] ==>
      Charged(found, s.request) < s.request.maxRetries && s.events <= Story(found, s.request, s.reported)
  {
    if s.events != [] && (s.pc.CommitProgress? || s.pc.EmitBatch? || s.pc.EmitProgress?) {
      StoryGrows(found, s.request, s.reported);
    }
    hide Charged;
    hide ReportEvents;
    hide RaiseEvent;
    hide LastReport;
  }

  lemma RefusalTells(s: Process, found: Durable)
    requires Told(s, found) && !s.pc.Stopped? && !s.pc.Building?
    ensures Told(Refuse(s), found)
  {
    ToldIsPart(s, found);
    var t := Refuse(s);
    if t.pc == Stopped(false) {
      RefusedExit(s);
      hide *;
      if s.events == [] {
        EmptyExitTells(t, found);
      } else {
        ExitTells(s, t, found);
      }
    } else {
      StoryIsPart(s, found);
      hide Story;
      hide Charged;
      hide RaiseEvent;
    }
  }

  lemma RefusedExit(s: Process)
    ensures var t := Refuse(s);
      t.events == s.events && t.request == s.request && t.reported == s.reported && t.began == s.began
  {
  }

  lemma StoryIsPart(s: Process, found: Durable)
    requires Told(s, found) && (s.pc.CommitProgress? || s.pc.EmitBatch? || s.pc.EmitProgress?)
    ensures Charged(found, s.request) < s.request.maxRetries && s.events <= Story(found, s.request, s.reported)
  {
    StoryGrows(found, s.request, s.reported);
    hide Charged;
    hide Story;
    hide RaiseEvent;
    hide LastReport;
  }

  /** An outcome announced at the end of what has been told. */
  lemma OutcomeTells(s: Process, t: Process, e: Event, found: Durable)
    requires s.events == [] ||
      (Charged(found, s.request) < s.request.maxRetries && s.events <= Story(found, s.request, s.reported))
    requires e.Completed? || e.Failed?
    requires t.events == s.events + [e] && t.pc == Stopped(e.Completed?)
    requires t.request == s.request && t.reported == s.reported && t.began == s.began
    requires e.Completed? && s.began ==>
      Charged(found, s.request) < s.request.maxRetries && s.events == Story(found, s.request, s.reported)
    ensures Told(t, found)
  {
    if s.events == [] {
      NothingIsNoOutcome();
    } else {
      StoryTellsNoOutcome(found, s.request, s.reported, s.events);
    }
    OutcomeComesLast(s.events, e);
    hide Story;
    hide Charged;
    hide WithoutOutcome;
    hide EndsCompleted;
    hide NoOutcome;
  }

  lemma NothingIsNoOutcome()
    ensures NoOutcome([])
  {
  }

  lemma OpeningTells(s: Process, found: Durable)
    requires Inv(s, found) && Told(s, found)
    requires s.pc in {Load, RemoveIncompatible, EmitInvalidated, RemovePrevious}
    ensures Told(Perform(s), found)
  {
    PerformHolds(s, found);
    hide Truthful;
    hide Accounted;
    hide Charged;
    hide Story;
    hide Batches;
    hide StartedCount;
    hide Open;
  }

  lemma AnsweringTells(s: Process, found: Durable)
    requires Inv(s, found) && Told(s, found) && s.pc in {LoadStore, EmitReloaded, EmitExhausted}
    ensures Told(Perform(s), found)
  {
    var t := Perform(s);
    if s.pc == LoadStore {
      if t.pc == Stopped(false) {
        EmptyExitTells(t, found);
      }
    } else {
      OutcomeTells(s, t, t.events[0], found);
    }
    hide Truthful;
    hide Accounted;
    hide Charged;
    hide Story;
  }

  lemma BeginningTells(s: Process, found: Durable)
    requires Inv(s, found) && Told(s, found) && s.pc in {CommitRunning, EmitStarted, OpenSource}
    ensures Told(Perform(s), found)
  {
    BeginningFacts(s, found);
    if s.pc == CommitRunning {
      FirstCommitTells(s, found);
    } else {
      FirstEventTells(s, found);
    }
    hide *;
  }

  lemma BeginningFacts(s: Process, found: Durable)
    requires Inv(s, found) && s.pc in {CommitRunning, EmitStarted, OpenSource}
    ensures s.reported == [] && s.retries == Charged(found, s.request) < s.request.maxRetries
  {
    hide Truthful;
    hide Accounted;
    hide Charged;
    hide MaxReported;
    hide Batches;
    hide StartedCount;
  }

  lemma FirstCommitTells(s: Process, found: Durable)
    requires Told(s, found) && s.pc == CommitRunning
    ensures Told(Perform(s), found)
  {
    var t := Perform(s);
    StoryStarts(found, s.request);
    hide Charged;
    hide Story;
    hide Prelude;
    hide Accepts;
    hide Decide;
    if t.pc == Stopped(false) {
      ExitTells(s, t, found);
    }
    hide WithoutOutcome;
    hide EndsCompleted;
  }

  lemma FirstEventTells(s: Process, found: Durable)
    requires Told(s, found) && s.pc in {EmitStarted, OpenSource}
    requires s.reported == [] && s.retries == Charged(found, s.request) < s.request.maxRetries
    ensures Told(Perform(s), found)
  {
    StoryStarts(found, s.request);
    hide Charged;
    hide Story;
    hide Prelude;
    hide Commit;
    hide Decide;
  }

  lemma CallbackTells(s: Process, found: Durable)
    requires Inv(s, found) && Told(s, found)
    requires s.pc.CommitProgress? || s.pc.EmitBatch? || s.pc.EmitProgress?
    ensures Told(Perform(s), found)
  {
    if s.pc.CommitProgress? {
      StoryIsPart(s, found);
      CheckpointTells(s, found);
    } else {
      CallbackFacts(s, found);
      if s.pc.EmitBatch? {
        BatchTells(s, found);
      } else {
        ProgressTells(s, found);
      }
    }
    hide *;
  }

  lemma BatchTells(s: Process, found: Durable)
    requires Told(s, found) && s.pc.EmitBatch? && s.reported != [] && s.reported[|s.reported| - 1] == s.pc.windows
    requires s.running.nextBatch == s.pc.windows > 0
    ensures Told(Perform(s), found)
  {
    hide Charged;
    hide Story;
    hide MaxReported;
    hide Decide;
    hide Commit;
  }

  lemma ProgressTells(s: Process, found: Durable)
    requires Told(s, found) && s.pc.EmitProgress? && s.reported != []
    requires s.reported[|s.reported| - 1] == s.pc.windows && s.retries == Charged(found, s.request)
    ensures Told(Perform(s), found)
  {
    var before := Story(found, s.request, s.reported[..|s.reported| - 1]);
    StoryGrows(found, s.request, s.reported);
    Associative(before, RaiseEvent(s.reported), [Progress(s.pc.windows, s.retries)]);
    assert LastReport(s.reported, s.retries) == RaiseEvent(s.reported) + [Progress(s.pc.windows, s.retries)];
    hide Charged;
    hide Story;
    hide MaxReported;
    hide RaiseEvent;
    hide LastReport;
    hide Decide;
    hide Commit;
  }

  lemma CheckpointTells(s: Process, found: Durable)
    requires Told(s, found) && s.pc.CommitProgress?
    requires Charged(found, s.request) < s.request.maxRetries && s.events <= Story(found, s.request, s.reported)
    ensures Told(Perform(s), found)
  {
    hide Charged;
    hide Story;
    hide RaiseEvent;
    hide Accepts;
  }

  /** What the two emissions of the callback are about. */
  lemma CallbackFacts(s: Process, found: Durable)
    requires Inv(s, found) && (s.pc.EmitBatch? || s.pc.EmitProgress?)
    ensures s.retries == Charged(found, s.request)
    ensures s.reported != [] && s.reported[|s.reported| - 1] == s.pc.windows
    ensures s.pc.EmitBatch? ==> s.running.nextBatch == s.pc.windows > 0
  {
    hide Truthful;
    hide Accounted;
    hide Charged;
    hide MaxReported;
    hide Batches;
  }

  lemma TailTells(s: Process, found: Durable)
    requires Inv(s, found) && Told(s, found)
    requires s.pc in {CommitCompleted, EmitCompleted, CommitFailure, EmitFailure}
    ensures Told(Perform(s), found)
  {
    ToldIsPart(s, found);
    TailFacts(s, found);
    if s.pc == CommitCompleted || s.pc == CommitFailure {
      TailCommitTells(s, found);
    } else {
      TailEmissionTells(s, found);
    }
    hide *;
  }

  lemma TailCommitTells(s: Process, found: Durable)
    requires Told(s, found) && s.pc in {CommitCompleted, CommitFailure} && s.began
    requires s.events != [] ==>
      Charged(found, s.request) < s.request.maxRetries && s.events <= Story(found, s.request, s.reported)
    ensures Told(Perform(s), found)
  {
    var t := Perform(s);
    hide Charged;
    hide Story;
    hide Accepts;
    hide WithoutOutcome;
    hide CompletedRecord;
    hide FailedRecord;
    hide Decide;
    if t.pc.Stopped? {
      if s.events == [] {
        EmptyExitTells(t, found);
      } else {
        ExitTells(s, t, found);
      }
    }
  }

  lemma TailEmissionTells(s: Process, found: Durable)
    requires Told(s, found) && s.pc in {EmitCompleted, EmitFailure} && (s.pc == EmitCompleted ==> s.durable.store.Some?)
    requires s.events != [] ==>
      Charged(found, s.request) < s.request.maxRetries && s.events <= Story(found, s.request, s.reported)
    ensures Told(Perform(s), found)
  {
    var t := Perform(s);
    hide Charged;
    hide Story;
    hide WithoutOutcome;
    hide Decide;
    hide Commit;
    hide Attempt;
    OutcomeTells(s, t, t.events[|s.events|], found);
  }

  lemma TailFacts(s: Process, found: Durable)
    requires Inv(s, found) && s.pc in {CommitCompleted, EmitCompleted, CommitFailure, EmitFailure}
    ensures s.began && (s.pc == EmitCompleted ==> s.durable.store.Some?)
  {
    hide Truthful;
    hide Accounted;
    hide Charged;
  }

  lemma BuildTells(s: Process, c: Choice, found: Durable)
    requires Inv(s, found) && Told(s, found) && s.pc.Building?
    ensures Told(Next(s, c), found)
  {
    if c.Report? {
      RunningIsHighest(s, found);
      ReportTells(s, c.windows, found);
    } else {
      hide Inv;
      hide Charged;
      hide Story;
      hide OnReport;
    }
  }

  lemma ReportTells(s: Process, windows: u64, found: Durable)
    requires Told(s, found) && s.pc.Building? && s.running.nextBatch == MaxReported(s.reported)
    ensures Told(OnReport(s, windows), found)
  {
    var more := s.reported + [windows];
    OneMoreReport(s.reported, windows);
    RaiseIs(s.reported, windows);
    BuildingTold(s, found);
    ReportIs(s, windows);
    hide *;
    if windows > s.running.nextBatch {
      RaisedTold(OnReport(s, windows), s.events, s.reported, found);
    } else {
      NothingMore(s.events);
      PassedOnTold(OnReport(s, windows), s.events, s.reported, found);
    }
  }

  lemma NothingMore(events: seq<Event>)
    ensures events + [] == events
  {
  }

  lemma RaiseIs(reported: seq<u64>, windows: u64)
    ensures RaiseEvent(reported + [windows])
         == if windows > MaxReported(reported) then [BatchCommitted(windows - 1)] else []
  {
    assert (reported + [windows])[..|reported|] == reported;
    hide MaxReported;
  }

  lemma BuildingTold(s: Process, found: Durable)
    requires Told(s, found) && s.pc.Building?
    ensures Charged(found, s.request) < s.request.maxRetries && s.events == Story(found, s.request, s.reported)
  {
    hide Charged;
    hide Story;
  }

  lemma ReportIs(s: Process, windows: u64)
    ensures var t := OnReport(s, windows);
      && t.reported == s.reported + [windows] && t.events == s.events && t.request == s.request
      && t.pc == if windows > s.running.nextBatch then CommitProgress(windows) else EmitProgress(windows)
  {
  }

  lemma RaisedTold(t: Process, events: seq<Event>, reported: seq<u64>, found: Durable)
    requires t.pc.CommitProgress? && t.events == events && t.reported != [] && RaiseEvent(t.reported) != []
    requires t.reported[..|t.reported| - 1] == reported
    requires Charged(found, t.request) < t.request.maxRetries && events == Story(found, t.request, reported)
    ensures Told(t, found)
  {
    hide Charged;
    hide Story;
    hide RaiseEvent;
  }

  lemma PassedOnTold(t: Process, events: seq<Event>, reported: seq<u64>, found: Durable)
    requires t.pc.EmitProgress? && t.reported != [] && t.events == events + RaiseEvent(t.reported)
    requires t.reported[..|t.reported| - 1] == reported
    requires Charged(found, t.request) < t.request.maxRetries && events == Story(found, t.request, reported)
    ensures Told(t, found)
  {
    hide Charged;
    hide Story;
    hide RaiseEvent;
  }

  lemma RunningIsHighest(s: Process, found: Durable)
    requires Inv(s, found) && s.pc.Building?
    ensures s.running.nextBatch == MaxReported(s.reported)
  {
    hide Truthful;
    hide Accounted;
    hide Charged;
    hide MaxReported;
    hide Batches;
  }

  lemma PerformTells(s: Process, found: Durable)
    requires Inv(s, found) && Told(s, found)
    ensures Told(Perform(s), found)
  {
    hide Inv;
    hide Told;
    hide Perform;
    match s.pc
    case Load | RemoveIncompatible | EmitInvalidated | RemovePrevious => OpeningTells(s, found);
    case LoadStore | EmitReloaded | EmitExhausted => AnsweringTells(s, found);
    case CommitRunning | EmitStarted | OpenSource => BeginningTells(s, found);
    case CommitProgress(_) | EmitBatch(_) | EmitProgress(_) => CallbackTells(s, found);
    case CommitCompleted | EmitCompleted | CommitFailure | EmitFailure => TailTells(s, found);
    case Building | Stopped(_) => NothingToPerform(s);
  }

  lemma StepTells(s: Process, c: Choice, found: Durable)
    requires Inv(s, found) && Told(s, found)
    ensures Told(Next(s, c), found)
  {
    if s.pc.Building? {
      BuildTells(s, c, found);
    } else if !s.pc.Stopped? {
      PerformTells(s, found);
      RefusalTells(s, found);
    }
    hide Inv;
    hide Told;
    hide Perform;
    hide Refuse;
  }

  lemma {:induction false} ExecTells(s: Process, choices: seq<Choice>, found: Durable)
    requires Inv(s, found) && Told(s, found)
    ensures Told(Exec(s, choices), found)
    decreases |choices|
  {
    hide Inv;
    hide Told;
    hide Next;
    if choices != [] {
      StepHolds(s, choices[0], found);
      StepTells(s, choices[0], found);
      ExecTells(Next(s, choices[0]), choices[1..], found);
    }
  }

  /**
   Wherever a run is cut, its events are the story of its reports as far as it got, and at most one outcome behind it:
   the announcement of a discarded record, the number of the attempt, and for each report its batch, if it was raised,
   and its progress. A run exits well exactly when its last event is a completion, and one that attempted the build has
   told the whole story by then.
   */
  lemma EventsTellTheRun(found: Durable, run: Run)
    ensures var s := Final(found, run);
      && (s.pc == Stopped(true) <==> EndsCompleted(s.events))
      && (!s.pc.Stopped? ==> WithoutOutcome(s.events) == s.events)
      && PartOfStory(WithoutOutcome(s.events), s, found)
      && (s.pc == Building || s.pc == CommitCompleted ==>
            Charged(found, run.request) < run.request.maxRetries && s.events == Story(found, run.request, s.reported))
      && (s.pc == Stopped(true) && s.began ==>
            && Charged(found, run.request) < run.request.maxRetries && s.durable.store.Some?
            && s.events == Story(found, run.request, s.reported) + [Event.Completed(s.durable.store.value)])
  {
    var s := Final(found, run);
    FinalHolds(found, run);
    FinalTells(found, run);
    NotStoppedTells(s, found);
    if s.pc == Stopped(true) {
      LastIsTrue(s, found);
    }
    hide Final;
    hide Story;
    hide Charged;
    hide Truthful;
  }

  lemma FinalTells(found: Durable, run: Run)
    ensures Told(Final(found, run), found)
  {
    StartHolds(found, run.request);
    StartTells(found, run.request);
    ExecTells(Start(found, run.request), run.choices, found);
    hide Told;
    hide Inv;
  }

  /** The completion announced last names the store. */
  lemma LastIsTrue(s: Process, found: Durable)
    requires Inv(s, found) && EndsCompleted(s.events)
    ensures s.durable.store.Some?
    ensures s.events == WithoutOutcome(s.events) + [Event.Completed(s.durable.store.value)]
    ensures s.began ==> Charged(found, s.request) < s.request.maxRetries
  {
    InitAndLast(s.events);
    assert s.events[|s.events| - 1] in s.events;
    hide Charged;
  }

  lemma NotStoppedTells(s: Process, found: Durable)
    requires Told(s, found) && Inv(s, found)
    ensures !s.pc.Stopped? ==>
      && !EndsCompleted(s.events) && WithoutOutcome(s.events) == s.events
      && PartOfStory(WithoutOutcome(s.events), s, found)
  {
    if !s.pc.Stopped? {
      ToldIsPart(s, found);
      if s.events == [] {
        NothingIsNoOutcome();
      } else {
        StoryTellsNoOutcome(found, s.request, s.reported, s.events);
      }
      OutcomeComesLast(s.events, Invalidated);
      hide Charged;
      hide Told;
      hide Inv;
      hide NoOutcome;
      hide WithoutOutcome;
      hide EndsCompleted;
      EmptyIsPart(s, found);
    }
  }

  lemma EmptyIsPart(s: Process, found: Durable)
    ensures PartOfStory([], s, found)
  {
    hide Charged;
  }
}
