/**
 What holds of an embedding worker at every moment at which it may be killed, whatever record it found,
 and what follows for the ledger over any sequence of runs.
 */
module WorkerSafety {
  import opened Options
  import opened Machine
  import opened JobLedger
  import opened EmbedWorker

  // ----- One run, at every point -----

  /** The record found at the start counts only when its protocol and recipe match. */
  predicate Usable(found: Durable, request: Request) {
    && found.ledger.Some?
    && found.ledger.value.recipe == request.recipe
    && found.ledger.value.protocolVersion == PROTOCOL_VERSION
  }

  /** The failed attempts already charged to the job when the run begins. */
  function Charged(found: Durable, request: Request): u32 {
    if Usable(found, request) then Spent(found.ledger) else 0
  }

  function MaxReported(reported: seq<u64>): u64 {
    if reported == [] then 0
    else
      var m := MaxReported(reported[..|reported| - 1]);
      var w := reported[|reported| - 1];
      if w > m then w else m
  }

  function Batches(events: seq<Event>): seq<u64> {
    if events == [] then []
    else
      var before := Batches(events[..|events| - 1]);
      var e := events[|events| - 1];
      if e.BatchCommitted? then before + [e.batch] else before
  }

  function StartedCount(events: seq<Event>): nat {
    if events == [] then 0
    else StartedCount(events[..|events| - 1]) + if events[|events| - 1].Started? then 1 else 0
  }

  ghost predicate StrictlyIncreasing(s: seq<u64>) {
    forall i, j :: 0 <= i < j < |s| ==> s[i] < s[j]
  }

  /** The record that a process which began its attempt has last written. */
  predicate OwnRecord(s: Process, charged: u32, r: JobRecord) {
    && Compatible(r, s.request.recipe)
    && r.maxRetries == s.request.maxRetries
    && WellFormed(r)
    && charged < s.request.maxRetries
    && if s.finished then r.state == JobState.Completed && r.retries == charged
       else if r.state == JobState.Running then r.retries == charged && r.totalBatches == SatAdd(r.nextBatch, 1)
       else
         && r.retries == charged + 1
         && r.state == if charged + 1 >= s.request.maxRetries then JobState.Failed else JobState.Pending
  }

  /** How the ledger stands to the record that was found. */
  predicate Accounted(s: Process, found: Durable) {
    var charged := Charged(found, s.request);
    if s.began then
      s.durable.ledger.Some? && OwnRecord(s, charged, s.durable.ledger.value)
    else
      && !s.finished
      && s.durable.store == found.store
      && (s.removed ==> Usable(found, s.request) && charged < s.request.maxRetries)
      && if Usable(found, s.request) then s.durable.ledger == if s.removed then None else found.ledger
         else s.durable.ledger == found.ledger || s.durable.ledger == None
  }

  /** What an acknowledgement says, of the durable state. */
  predicate Acknowledged(e: Event, s: Process, found: Durable) {
    var charged := Charged(found, s.request);
    match e
    case Started(attempt) => s.began && attempt == charged + 1 && attempt <= s.request.maxRetries
    case Progress(windows, consumed) => s.began && consumed == charged && windows in s.reported
    case Invalidated => found.ledger.Some? && !Usable(found, s.request)
    case BatchCommitted(batch) => s.began && s.durable.ledger.Some? && s.durable.ledger.value.nextBatch >= batch + 1
    case Completed(vectors) =>
      && s.durable.store == Some(vectors)
      && s.durable.ledger.Some? && s.durable.ledger.value.state == JobState.Completed
    case Failed(retries) => s.durable.ledger.Some? && Spent(s.durable.ledger) == retries
  }

  /** Everything ever emitted in the run is backed by what is durable now. */
  ghost predicate Truthful(s: Process, found: Durable) {
    && (forall e :: e in s.events ==> Acknowledged(e, s, found))
    && StrictlyIncreasing(Batches(s.events))
    && StartedCount(s.events) <= if s.began then 1 else 0
  }

  /** Nothing has been reported, recorded or completed yet. */
  predicate Fresh(s: Process) {
    s.latest == None && s.reported == [] && !s.began && !s.finished && s.request.maxRetries > 0
  }

  predicate Untouched(s: Process, found: Durable) {
    Fresh(s) && !s.removed && s.durable == found && s.events == []
  }

  /** No outcome has been announced. */
  ghost predicate Open(events: seq<Event>) {
    forall e :: e in events ==> !e.Completed? && !e.Failed?
  }

  /** Between the first commit and the last: the ledger follows the running record. */
  ghost predicate Attempting(s: Process, found: Durable) {
    var m := MaxReported(s.reported);
    && s.began && !s.finished && Open(s.events)
    && s.retries == Charged(found, s.request) < s.request.maxRetries
    && s.durable.ledger.Some?
    && var l := s.durable.ledger.value;
    && l == FreshRecord(s.request, s.retries).(nextBatch := l.nextBatch, totalBatches := SatAdd(l.nextBatch, 1))
    && s.running == l.(nextBatch := m, totalBatches := SatAdd(m, 1))
    && l.nextBatch <= m
    && (forall b :: b in Batches(s.events) ==> b < l.nextBatch)
    && (s.latest.Some? ==> s.latest.value in s.reported)
  }

  /** The ledger has taken the running record. */
  ghost predicate InStep(s: Process, found: Durable) {
    Attempting(s, found) && s.running == s.durable.ledger.value
  }

  /** The ledger may be behind by the last report only. */
  predicate BehindByOneReport(s: Process) {
    && s.reported != [] && s.durable.ledger.Some?
    && s.durable.ledger.value.nextBatch == MaxReported(s.reported[..|s.reported| - 1])
  }

  predicate LatestIsLast(s: Process) {
    s.latest == if s.reported == [] then None else Some(s.reported[|s.reported| - 1])
  }

  predicate Reported(s: Process, windows: u64) {
    s.reported != [] && s.reported[|s.reported| - 1] == windows
  }

  ghost predicate AtStep(s: Process, found: Durable) {
    var usable := Usable(found, s.request);
    var charged := Charged(found, s.request);
    match s.pc
    case Load => Untouched(s, found)
    case RemoveIncompatible => Untouched(s, found) && found.ledger.Some? && !usable
    case EmitInvalidated =>
      && Fresh(s) && !s.removed && s.events == []
      && s.durable == found.(ledger := None) && found.ledger.Some? && !usable
    case LoadStore =>
      Untouched(s, found) && usable && found.ledger.value.state == JobState.Completed && !s.request.collectMetrics
    case EmitReloaded =>
      && Untouched(s, found) && usable && found.ledger.value.state == JobState.Completed && !s.request.collectMetrics
      && found.store.Some?
    case EmitExhausted =>
      Untouched(s, found) && usable && s.retries == charged >= s.request.maxRetries
    case RemovePrevious =>
      && Untouched(s, found) && usable && s.retries == charged < s.request.maxRetries
      && s.running == FreshRecord(s.request, s.retries)
    case CommitRunning =>
      && Fresh(s) && s.removed == usable && s.durable == found.(ledger := None)
      && s.retries == charged < s.request.maxRetries
      && s.running == FreshRecord(s.request, s.retries)
      && Open(s.events) && Batches(s.events) == [] && StartedCount(s.events) == 0
    case EmitStarted => InStep(s, found) && s.reported == [] && s.latest == None && StartedCount(s.events) == 0
    case OpenSource => InStep(s, found) && s.reported == [] && s.latest == None
    case Building => InStep(s, found) && LatestIsLast(s)
    case CommitProgress(windows) =>
      && Attempting(s, found) && Reported(s, windows) && s.durable.ledger.value.nextBatch < windows
      && s.running.nextBatch == windows && BehindByOneReport(s)
    case EmitBatch(windows) =>
      && InStep(s, found) && Reported(s, windows) && s.running.nextBatch == windows > 0
      && forall b :: b in Batches(s.events) ==> b < windows - 1
    case EmitProgress(windows) => InStep(s, found) && Reported(s, windows) && LatestIsLast(s)
    case CommitCompleted => InStep(s, found) && LatestIsLast(s) && s.durable.store.Some?
    case EmitCompleted =>
      s.began && s.finished && s.durable.store.Some? && Open(s.events)
    case CommitFailure => Attempting(s, found) && (InStep(s, found) || BehindByOneReport(s))
    case EmitFailure =>
      && s.began && !s.finished && s.retries == charged < s.request.maxRetries && Open(s.events)
      && s.durable.ledger.Some? && s.durable.ledger.value.state != JobState.Running
    case Stopped(_) => true
  }

  ghost predicate Inv(s: Process, found: Durable) {
    Accounted(s, found) && Truthful(s, found) && AtStep(s, found)
  }

  lemma StartHolds(found: Durable, request: Request)
    ensures Inv(Start(found, request), found)
  {
  }

  lemma Emitted(events: seq<Event>, e: Event)
    ensures Batches(events + [e]) == if e.BatchCommitted? then Batches(events) + [e.batch] else Batches(events)
    ensures StartedCount(events + [e]) == StartedCount(events) + if e.Started? then 1 else 0
    ensures
      && StrictlyIncreasing(Batches(events))
      && (e.BatchCommitted? ==> forall b :: b in Batches(events) ==> b < e.batch)
      ==> StrictlyIncreasing(Batches(events + [e]))
  {
    assert (events + [e])[..|events + [e]| - 1] == events;
    var before := Batches(events);
    assert forall i :: 0 <= i < |before| ==> before[i] in before;
  }

  lemma NothingEmitted()
    ensures Batches([]) == [] && StartedCount([]) == 0
  {
  }

  /** A step that emits nothing and keeps the durable state keeps the truth of what was emitted. */
  lemma TruthKept(s: Process, t: Process, found: Durable)
    requires Truthful(s, found)
    requires t.events == s.events && t.request == s.request && t.durable == s.durable && t.began == s.began
    requires s.reported <= t.reported
    ensures Truthful(t, found)
  {
    assert forall w :: w in s.reported ==> w in t.reported;
  }

  /** A step that emits a true event and changes nothing durable. */
  lemma TruthGrows(s: Process, t: Process, e: Event, found: Durable)
    requires Truthful(s, found)
    requires t.events == s.events + [e]
    requires t.request == s.request && t.durable == s.durable && t.began == s.began && s.reported == t.reported
    requires Acknowledged(e, t, found)
    requires e.Started? ==> StartedCount(s.events) == 0
    requires e.BatchCommitted? ==> forall b :: b in Batches(s.events) ==> b < e.batch
    ensures Truthful(t, found)
  {
    Emitted(s.events, e);
  }

  /** A step that changes what is durable before any outcome was announced. */
  lemma TruthThroughCommit(s: Process, t: Process, found: Durable)
    requires Truthful(s, found) && Open(s.events)
    requires t.events == s.events && t.request == s.request && t.reported == s.reported && (s.began ==> t.began)
    requires s.began ==> s.durable.ledger.Some? && t.durable.ledger.Some?
    requires s.began ==> s.durable.ledger.value.nextBatch <= t.durable.ledger.value.nextBatch
    ensures Truthful(t, found)
  {
  }

  lemma ExitHolds(s: Process, found: Durable)
    requires Inv(s, found) && Refuse(s) == s.(pc := Stopped(false))
    ensures Inv(Refuse(s), found)
  {
    hide Truthful;
    hide MaxReported;
    hide Batches;
    TruthKept(s, Refuse(s), found);
    AccountKept(s, Refuse(s), found);
    hide Accounted;
    hide BehindByOneReport;
    hide Charged;
    hide Usable;
    hide SatAdd;
    hide Open;
  }

  lemma RefusalHolds(s: Process, found: Durable)
    requires Inv(s, found) && !s.pc.Building? && !s.pc.Stopped?
    ensures Inv(Refuse(s), found)
  {
    if s.pc.CommitProgress? || s.pc.EmitBatch? || s.pc.EmitProgress? {
      CallbackFailureHolds(s, found);
    } else {
      ExitHolds(s, found);
    }
  }

  lemma CallbackFailureHolds(s: Process, found: Durable)
    requires Inv(s, found) && (s.pc.CommitProgress? || s.pc.EmitBatch? || s.pc.EmitProgress?)
    ensures Inv(Refuse(s), found)
  {
    hide Truthful;
    hide MaxReported;
    hide Batches;
    TruthKept(s, Refuse(s), found);
    AccountKept(s, Refuse(s), found);
    hide Accounted;
    hide BehindByOneReport;
    hide Charged;
    hide Usable;
    hide SatAdd;
    hide Open;
  }

  lemma ReportHolds(s: Process, windows: u64, found: Durable)
    requires Inv(s, found) && s.pc.Building?
    ensures Inv(OnReport(s, windows), found)
  {
    hide Truthful;
    hide Batches;
    hide StartedCount;
    hide MaxReported;
    var t := OnReport(s, windows);
    OneMoreReport(s.reported, windows);
    TruthKept(s, t, found);
    AccountKept(s, t, found);
    ReportKeepsAttempt(s, windows, found);
    ReportIsAtStep(s, windows, found);
    hide AtStep;
    hide Accounted;
    hide OnReport;
  }

  /** Where a report leads, once the attempt is known to hold. */
  lemma ReportIsAtStep(s: Process, windows: u64, found: Durable)
    requires InStep(s, found) && LatestIsLast(s) && s.pc.Building?
    requires var t := OnReport(s, windows);
      && Attempting(t, found) && t.durable == s.durable && t.running.nextBatch == MaxReported(t.reported)
      && s.durable.ledger.Some? && s.durable.ledger.value.nextBatch == MaxReported(s.reported)
      && (windows <= s.running.nextBatch ==> InStep(t, found))
    ensures AtStep(OnReport(s, windows), found)
  {
    hide MaxReported;
    OneMoreReport(s.reported, windows);
    hide Attempting;
    hide Usable;
    hide Charged;
    hide SatAdd;
  }

  lemma AccountKept(s: Process, t: Process, found: Durable)
    requires Accounted(s, found)
    requires t.request == s.request && t.durable == s.durable && t.began == s.began && t.finished == s.finished
    requires t.removed == s.removed
    ensures Accounted(t, found)
  {
  }

  lemma ReportKeepsAttempt(s: Process, windows: u64, found: Durable)
    requires InStep(s, found)
    ensures Attempting(OnReport(s, windows), found)
    ensures var t := OnReport(s, windows);
      && t.durable == s.durable && t.running.nextBatch == MaxReported(t.reported)
      && s.durable.ledger.Some? && s.durable.ledger.value.nextBatch == MaxReported(s.reported)
      && (windows <= s.running.nextBatch ==> InStep(t, found))
  {
    hide Batches;
    hide MaxReported;
    hide SatAdd;
    hide Charged;
    OneMoreReport(s.reported, windows);
  }

  lemma OneMoreReport(reported: seq<u64>, windows: u64)
    ensures var more := reported + [windows];
      && MaxReported(more) == (if windows > MaxReported(reported) then windows else MaxReported(reported))
      && more[..|more| - 1] == reported && more[|more| - 1] == windows
      && windows in more && forall w :: w in reported ==> w in more
  {
    var more := reported + [windows];
    assert more[..|more| - 1] == reported && more[|more| - 1] == windows;
  }

  lemma BuildActionHolds(s: Process, c: Choice, found: Durable)
    requires Inv(s, found) && s.pc.Building?
    ensures Inv(Next(s, c), found)
  {
    hide Truthful;
    if c.Report? {
      ReportHolds(s, c.windows, found);
    } else {
      TruthThroughCommit(s, Next(s, c), found);
    }
  }

  lemma LookupHolds(s: Process, found: Durable)
    requires Inv(s, found) && s.pc in {Load, RemoveIncompatible}
    ensures Inv(Perform(s), found)
  {
    hide Truthful;
    TruthThroughCommit(s, Perform(s), found);
  }

  lemma InvalidationHolds(s: Process, found: Durable)
    requires Inv(s, found) && s.pc == EmitInvalidated
    ensures Inv(Perform(s), found)
  {
    NothingEmitted();
    hide Truthful;
    hide Batches;
    hide StartedCount;
    var t := Perform(s);
    assert t.events == [] + [Invalidated];
    assert t.pc == CommitRunning && t.retries == 0;
    Emitted(s.events, Invalidated);
    TruthGrows(s, t, Invalidated, found);
  }

  lemma ShortcutHolds(s: Process, found: Durable)
    requires Inv(s, found) && s.pc in {LoadStore, EmitReloaded, EmitExhausted}
    ensures Inv(Perform(s), found)
  {
    hide Truthful;
    var t := Perform(s);
    if s.pc == LoadStore {
      TruthKept(s, t, found);
    } else {
      TruthGrows(s, t, t.events[|s.events|], found);
    }
  }

  lemma FirstCommitHolds(s: Process, found: Durable)
    requires Inv(s, found) && s.pc in {RemovePrevious, CommitRunning}
    ensures Inv(Perform(s), found)
  {
    hide Truthful;
    TruthThroughCommit(s, Perform(s), found);
  }

  lemma EmissionHolds(s: Process, found: Durable)
    requires Inv(s, found)
    requires s.pc == EmitStarted || s.pc.EmitBatch? || s.pc.EmitProgress?
    ensures Inv(Perform(s), found)
  {
    if s.pc == EmitStarted {
      StartedHolds(s, found);
    } else {
      AcknowledgementHolds(s, found);
    }
  }

  lemma StartedHolds(s: Process, found: Durable)
    requires Inv(s, found) && s.pc == EmitStarted
    ensures Inv(Perform(s), found)
  {
    hide Truthful;
    hide Batches;
    hide StartedCount;
    var t := Perform(s);
    var e := Started(Attempt(s));
    Emitted(s.events, e);
    TruthGrows(s, t, e, found);
    AccountKept(s, t, found);
    hide Accounted;
    hide MaxReported;
    hide SatAdd;
  }

  lemma AcknowledgementHolds(s: Process, found: Durable)
    requires Inv(s, found) && (s.pc.EmitBatch? || s.pc.EmitProgress?)
    ensures Inv(Perform(s), found)
  {
    if s.pc.EmitBatch? {
      BatchEmissionHolds(s, found);
    } else {
      ProgressEmissionHolds(s, found);
    }
  }

  lemma BatchEmissionHolds(s: Process, found: Durable)
    requires Inv(s, found) && s.pc.EmitBatch?
    ensures Inv(Perform(s), found)
  {
    hide Truthful;
    hide Batches;
    hide StartedCount;
    var t := Perform(s);
    var e := t.events[|s.events|];
    Emitted(s.events, e);
    TruthGrows(s, t, e, found);
    AccountKept(s, t, found);
    hide Accounted;
    hide MaxReported;
    hide SatAdd;
    hide Charged;
  }

  lemma ProgressEmissionHolds(s: Process, found: Durable)
    requires Inv(s, found) && s.pc.EmitProgress?
    ensures Inv(Perform(s), found)
  {
    hide Truthful;
    hide Batches;
    hide StartedCount;
    var t := Perform(s);
    var e := t.events[|s.events|];
    Emitted(s.events, e);
    TruthGrows(s, t, e, found);
    AccountKept(s, t, found);
    hide Accounted;
    hide MaxReported;
    hide SatAdd;
  }

  lemma ProgressCommitHolds(s: Process, found: Durable)
    requires Inv(s, found) && (s.pc.CommitProgress? || s.pc == OpenSource)
    ensures Inv(Perform(s), found)
  {
    hide Truthful;
    hide MaxReported;
    TruthThroughCommit(s, Perform(s), found);
  }

  lemma CompletionCommitHolds(s: Process, found: Durable)
    requires Inv(s, found) && s.pc == CommitCompleted
    ensures Inv(Perform(s), found)
  {
    hide Truthful;
    hide Batches;
    TruthThroughCommit(s, Perform(s), found);
  }

  lemma FailureCommitHolds(s: Process, found: Durable)
    requires Inv(s, found) && s.pc == CommitFailure
    ensures Inv(Perform(s), found)
  {
    if Accepts(s.durable.ledger, FailedRecord(s)) {
      FailureRecorded(s, found);
    } else {
      var t := s.(pc := Stopped(false));
      assert Perform(s) == t;
      TruthKept(s, t, found);
      AccountKept(s, t, found);
      hide Truthful;
      hide Accounted;
    }
  }

  lemma FailureRecorded(s: Process, found: Durable)
    requires Inv(s, found) && s.pc == CommitFailure && Accepts(s.durable.ledger, FailedRecord(s))
    ensures Inv(Perform(s), found)
  {
    hide Truthful;
    hide Batches;
    hide MaxReported;
    hide BehindByOneReport;
    TruthThroughCommit(s, Perform(s), found);
  }

  lemma LastEmissionHolds(s: Process, found: Durable)
    requires Inv(s, found) && s.pc in {EmitCompleted, EmitFailure}
    ensures Inv(Perform(s), found)
  {
    hide Truthful;
    var t := Perform(s);
    TruthGrows(s, t, t.events[|s.events|], found);
  }

  lemma PerformHolds(s: Process, found: Durable)
    requires Inv(s, found)
    ensures Inv(Perform(s), found)
  {
    hide Inv;
    hide Perform;
    match s.pc
    case Load | RemoveIncompatible => LookupHolds(s, found);
    case EmitInvalidated => InvalidationHolds(s, found);
    case LoadStore | EmitReloaded | EmitExhausted => ShortcutHolds(s, found);
    case RemovePrevious | CommitRunning => FirstCommitHolds(s, found);
    case EmitStarted | EmitBatch(_) | EmitProgress(_) => EmissionHolds(s, found);
    case OpenSource | CommitProgress(_) => ProgressCommitHolds(s, found);
    case CommitCompleted => CompletionCommitHolds(s, found);
    case CommitFailure => FailureCommitHolds(s, found);
    case EmitCompleted | EmitFailure => LastEmissionHolds(s, found);
    case Building | Stopped(_) => NothingToPerform(s);
  }

  lemma NothingToPerform(s: Process)
    requires s.pc.Building? || s.pc.Stopped?
    ensures Perform(s) == s
  {
  }

  /** Every step, whatever the environment decides, keeps the invariant. */
  lemma StepHolds(s: Process, c: Choice, found: Durable)
    requires Inv(s, found)
    ensures Inv(Next(s, c), found)
  {
    hide Inv;
    hide Perform;
    hide Refuse;
    if s.pc.Building? {
      BuildActionHolds(s, c, found);
    } else if !s.pc.Stopped? {
      RefusalHolds(s, found);
      PerformHolds(s, found);
    }
  }

  /** The invariant holds wherever a run stops. */
  lemma {:induction false} ExecHolds(s: Process, choices: seq<Choice>, found: Durable)
    requires Inv(s, found)
    ensures Inv(Exec(s, choices), found)
    decreases |choices|
  {
    hide Inv;
    hide Next;
    if choices != [] {
      StepHolds(s, choices[0], found);
      ExecHolds(Next(s, choices[0]), choices[1..], found);
    }
  }
}
