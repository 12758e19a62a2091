/** Threads that share one timeout context: an atomic counter rations the real checks, a flag cancels. */
module Cancellation {
  import opened Machine

  type Thread = nat

  /** How a periodic check ended: no check was due, the check passed, the check reported the timeout. */
  datatype Outcome = Skipped | Passed | Failed

  /** Where a thread stands inside a call. Calls are numbered in counter order. */
  datatype Phase = Idle | AtFlag(call: nat) | AtClock(call: nat)

  /**
   The shared context and its threads. `intervals` lists the calls so far in counter order; the program itself keeps
   only `counter`. A relaxed load may miss a recent store, so `seen` says which threads the cancellation has reached.
   */
  datatype State = State(
    counter: nat,
    cancelled: bool,
    elapsed: nat,
    timeout: nat,
    seen: set<Thread>,
    threads: map<Thread, Phase>,
    intervals: seq<nat>,
    outcomes: map<nat, Outcome>)

  /** What may happen next, in any order. */
  datatype Step =
    | Call(t: Thread, interval: nat)
    | ReadFlag(t: Thread)
    | ReadClock(t: Thread)
    | Cancel(t: Thread)
    | See(t: Thread)
    | Tick(time: nat)

  const WORDS: nat := U64_MAX + 1

  /** Division by zero aside: only zero is a multiple of zero. */
  predicate IsMultipleOf(n: nat, k: nat) {
    if k == 0 then n == 0 else n % k == 0
  }

  /** The counter's next value; it wraps around. */
  function Bump(counter: nat): nat {
    (counter + 1) % WORDS
  }

  /** The counter value a call receives. */
  function Ticket(call: nat): nat {
    call % WORDS
  }

  /** The call has to perform a real check. */
  predicate Due(call: nat, interval: nat) {
    IsMultipleOf(Ticket(call), interval)
  }

  function Finish(s: State, t: Thread, call: nat, outcome: Outcome): State {
    s.(threads := s.threads[t := Idle], outcomes := s.outcomes[call := outcome])
  }

  /** One atomic step; a step that is not possible now changes nothing. */
  function Next(s: State, step: Step): State {
    match step
    case Call(t, k) =>
      if t !in s.threads || s.threads[t] != Idle then s
      else
        var call := |s.intervals|;
        var s' := s.(counter := Bump(s.counter), intervals := s.intervals + [k]);
        if IsMultipleOf(s.counter, k) then s'.(threads := s.threads[t := AtFlag(call)])
        else Finish(s', t, call, Skipped)
    case ReadFlag(t) =>
      if t !in s.threads || !s.threads[t].AtFlag? then s
      else if t in s.seen then Finish(s, t, s.threads[t].call, Failed)
      else s.(threads := s.threads[t := AtClock(s.threads[t].call)])
    case ReadClock(t) =>
      if t !in s.threads || !s.threads[t].AtClock? then s
      else Finish(s, t, s.threads[t].call, if s.elapsed >= s.timeout then Failed else Passed)
    case Cancel(t) => s.(cancelled := true, seen := s.seen + {t})
    case See(t) => if s.cancelled then s.(seen := s.seen + {t}) else s
    case Tick(time) => s.(elapsed := s.elapsed + time)
  }

  function Exec(s: State, steps: seq<Step>): State {
    if steps == [] then s else Next(Exec(s, steps[..|steps| - 1]), steps[|steps| - 1])
  }

  function Init(timeout: nat, threads: set<Thread>): State {
    State(0, false, 0, timeout, {}, map t | t in threads :: Idle, [], map[])
  }

  // ----- What every step keeps -----

  ghost predicate Busy(s: State, t: Thread, call: nat) {
    t in s.threads && s.threads[t] != Idle && s.threads[t].call == call
  }

  ghost predicate CallsAccounted(s: State) {
    && (forall t, j: nat :: Busy(s, t, j) ==> j < |s.intervals| && j !in s.outcomes && Due(j, s.intervals[j]))
    && (forall t, u, j :: Busy(s, t, j) && Busy(s, u, j) ==> t == u)
    && (forall j: nat :: j in s.outcomes ==>
          j < |s.intervals| && (s.outcomes[j] == Skipped <==> !Due(j, s.intervals[j])))
    && (forall j: nat :: j < |s.intervals| && j !in s.outcomes ==> exists t :: Busy(s, t, j))
  }

  /** An error is reported only after a cancellation or the deadline. */
  ghost predicate ErrorsAreLate(s: State) {
    && (s.seen != {} ==> s.cancelled)
    && (forall j: nat :: j in s.outcomes && s.outcomes[j] == Failed ==> s.cancelled || s.elapsed >= s.timeout)
  }

  /**
   Every call is finished or held by exactly one thread, and a check is skipped exactly when it was not due.
   */
  ghost predicate Inv(s: State) {
    && s.counter == Ticket(|s.intervals|)
    && CallsAccounted(s)
    && ErrorsAreLate(s)
  }

  lemma CallAccounted(s: State, t: Thread, k: nat)
    requires CallsAccounted(s) && s.counter == Ticket(|s.intervals|)
    ensures CallsAccounted(Next(s, Call(t, k)))
  {
    hide Bump;
    hide Ticket;
    hide IsMultipleOf;
    var s', n := Next(s, Call(t, k)), |s.intervals|;
    if t in s.threads && s.threads[t] == Idle {
      assert Due(n, k) <==> IsMultipleOf(s.counter, k);
      assert n !in s.outcomes && s'.intervals[n] == k;
      forall u, j | Busy(s', u, j) ensures (u == t && j == n) || (Busy(s, u, j) && u != t) {
      }
      forall j: nat | j < |s'.intervals| && j !in s'.outcomes ensures exists u :: Busy(s', u, j) {
        if j == n {
          assert Busy(s', t, j);
        } else {
          var u :| Busy(s, u, j);
          assert Busy(s', u, j);
        }
      }
    }
  }

  lemma ReadAccounted(s: State, step: Step)
    requires CallsAccounted(s) && !step.Call?
    ensures CallsAccounted(Next(s, step))
  {
    var s' := Next(s, step);
    ReadChanges(s, step);
    hide Due;
    hide Next;
    hide Busy;
    forall j: nat | j < |s'.intervals| && j !in s'.outcomes ensures exists u :: Busy(s', u, j) {
      var u :| Busy(s, u, j);
      assert Busy(s', u, j);
    }
  }

  /** A read finishes at most the call that its thread is busy with. */
  lemma ReadChanges(s: State, step: Step)
    requires CallsAccounted(s) && !step.Call?
    ensures var s' := Next(s, step);
      && s'.intervals == s.intervals
      && (forall u, j :: Busy(s', u, j) <==> Busy(s, u, j) && j !in s'.outcomes)
      && (forall j: nat :: j in s'.outcomes && j !in s.outcomes ==>
            j < |s.intervals| && Due(j, s.intervals[j]) && s'.outcomes[j] != Skipped)
      && (forall j: nat :: j in s.outcomes ==> j in s'.outcomes && s'.outcomes[j] == s.outcomes[j])
  {
    hide Due;
    var s' := Next(s, step);
    if (step.ReadFlag? || step.ReadClock?) && step.t in s.threads && s.threads[step.t] != Idle {
      assert Busy(s, step.t, s.threads[step.t].call);
      forall u, j | Busy(s', u, j) ensures Busy(s, u, j) && j !in s'.outcomes {
      }
      forall u, j | Busy(s, u, j) && j !in s'.outcomes ensures Busy(s', u, j) {
      }
    } else {
      assert s'.threads == s.threads && s'.outcomes == s.outcomes;
      assert forall u, j :: Busy(s', u, j) <==> Busy(s, u, j);
    }
  }

  lemma CounterFollows(s: State, step: Step)
    requires s.counter == Ticket(|s.intervals|)
    ensures Next(s, step).counter == Ticket(|Next(s, step).intervals|)
  {
    TicketBumps(|s.intervals|);
    hide Ticket;
    hide Bump;
    hide IsMultipleOf;
    match step
    case Call(_, _) =>
    case _ =>
  }

  lemma TicketBumps(call: nat)
    ensures Ticket(call + 1) == Bump(Ticket(call))
  {
  }

  lemma ErrorsStayLate(s: State, step: Step)
    requires ErrorsAreLate(s)
    ensures ErrorsAreLate(Next(s, step))
  {
    hide Bump;
    hide IsMultipleOf;
    match step
    case Call(_, _) =>
    case ReadFlag(_) =>
    case ReadClock(_) =>
    case _ =>
  }

  lemma StepKeeps(s: State, step: Step)
    requires Inv(s)
    ensures Inv(Next(s, step))
  {
    if step.Call? {
      CallAccounted(s, step.t, step.interval);
    } else {
      ReadAccounted(s, step);
    }
    CounterFollows(s, step);
    ErrorsStayLate(s, step);
    hide CallsAccounted;
    hide ErrorsAreLate;
    hide Next;
  }

  lemma {:induction false} ExecKeeps(s: State, steps: seq<Step>)
    requires Inv(s)
    ensures Inv(Exec(s, steps))
  {
    if steps != [] {
      ExecKeeps(s, steps[..|steps| - 1]);
      StepKeeps(Exec(s, steps[..|steps| - 1]), steps[|steps| - 1]);
    }
  }

  lemma InitHolds(timeout: nat, threads: set<Thread>)
    ensures Inv(Init(timeout, threads))
  {
  }

  // ----- How many real checks -----

  /** The calls, of the first `n`, that are due. */
  function DueBelow(k: nat, n: nat): set<nat> {
    set j: nat | j < n && Due(j, k)
  }

  /** The calls that performed a real check. */
  function Checked(s: State): set<nat> {
    set j: nat | j in s.outcomes && s.outcomes[j] != Skipped
  }

  /** The calls still under way. */
  function UnderWay(s: State): set<nat> {
    set j: nat | j < |s.intervals| && j !in s.outcomes
  }

  lemma CeilSteps(n: nat, k: nat)
    requires k > 0
    ensures CeilDiv(n + 1, k) == CeilDiv(n, k) + if n % k == 0 then 1 else 0
    ensures CeilDiv(0, k) == 0
  {
    var q, r := n / k, n % k;
    assert n == k * q + r;
    if r + 1 < k {
      DivUnique(n + 1, k, q, r + 1);
    } else {
      DivUnique(n + 1, k, q + 1, 0);
    }
    DivUnique(0, k, 0, 0);
  }

  lemma MultipleIsFar(k: nat, d: int)
    ensures d >= 1 ==> k * d >= k
    ensures d <= -1 ==> k * d + k <= 0
  {
    if d >= 1 {
      Product(k, d - 1);
    } else if d <= -1 {
      Product(k, -d - 1);
    }
  }

  lemma DivUnique(a: nat, k: nat, q: nat, r: nat)
    requires r < k && a == k * q + r
    ensures a / k == q && a % k == r
  {
    var d := a / k - q;
    MultipleIsFar(k, d);
    assert k * d == r - a % k;
  }

  /** Calls in each full turn of the counter, and in the turn under way. */
  function Expected(k: nat, n: nat): nat
    requires k > 0
  {
    Product(n / WORDS, CeilDiv(WORDS, k));
    n / WORDS * CeilDiv(WORDS, k) + CeilDiv(n % WORDS, k)
  }

  lemma {:induction false} DueCount(k: nat, n: nat)
    requires k > 0
    ensures |DueBelow(k, n)| == Expected(k, n)
  {
    if n == 0 {
      assert DueBelow(k, 0) == {};
      CeilSteps(0, k);
    } else {
      DueCount(k, n - 1);
      var last := n - 1;
      ExpectedSteps(k, last);
      hide Due;
      hide Expected;
      assert DueBelow(k, n) == if Due(last, k) then DueBelow(k, last) + {last} else DueBelow(k, last);
    }
  }

  lemma ExpectedSteps(k: nat, n: nat)
    requires k > 0
    ensures Expected(k, n + 1) == Expected(k, n) + if Due(n, k) then 1 else 0
  {
    var q, r := n / WORDS, n % WORDS;
    CeilSteps(r, k);
    TurnsStep(n);
    hide CeilDiv;
    if r + 1 == WORDS {
      CeilSteps(0, k);
      NextTurn(q, CeilDiv(WORDS, k));
    }
  }

  /** The counter goes on, or starts its next turn. */
  lemma TurnsStep(n: nat)
    ensures var q, r := n / WORDS, n % WORDS;
      if r + 1 < WORDS then (n + 1) / WORDS == q && (n + 1) % WORDS == r + 1
      else (n + 1) / WORDS == q + 1 && (n + 1) % WORDS == 0
  {
    var q, r := n / WORDS, n % WORDS;
    assert n == WORDS * q + r;
    if r + 1 < WORDS {
      DivUnique(n + 1, WORDS, q, r + 1);
    } else {
      DivUnique(n + 1, WORDS, q + 1, 0);
    }
  }

  lemma NextTurn(q: nat, turn: nat)
    ensures (q + 1) * turn == q * turn + turn
  {
  }

  lemma ChecksCounted(s: State, k: nat)
    requires Inv(s) && k > 0 && forall j :: 0 <= j < |s.intervals| ==> s.intervals[j] == k
    ensures |Checked(s)| + |UnderWay(s)| == Expected(k, |s.intervals|)
  {
    DueCount(k, |s.intervals|);
    hide Due;
    hide Expected;
    forall j: nat | j < |s.intervals| && j !in s.outcomes ensures Due(j, k) {
      var t :| Busy(s, t, j);
    }
    assert Checked(s) + UnderWay(s) == DueBelow(k, |s.intervals|);
    assert Checked(s) !! UnderWay(s);
  }

  /** The checks made and those still under way are exactly the ones the counter rations, however threads interleave. */
  lemma ChecksAreRationed(timeout: nat, threads: set<Thread>, steps: seq<Step>, k: nat)
    requires k > 0
    requires forall j :: 0 <= j < |Exec(Init(timeout, threads), steps).intervals| ==>
      Exec(Init(timeout, threads), steps).intervals[j] == k
    ensures var s := Exec(Init(timeout, threads), steps);
      && |Checked(s)| + |UnderWay(s)| == Expected(k, |s.intervals|)
      && (|s.intervals| <= WORDS ==> |Checked(s)| + |UnderWay(s)| == CeilDiv(|s.intervals|, k))
  {
    var s := Exec(Init(timeout, threads), steps);
    InitHolds(timeout, threads);
    ExecKeeps(Init(timeout, threads), steps);
    hide Inv;
    hide Expected;
    hide CeilDiv;
    hide Exec;
    ChecksCounted(s, k);
    if |s.intervals| <= WORDS {
      RationBeforeWrap(k, |s.intervals|);
    }
  }

  /** The ration is one check in every `k` calls, rounded up, until the counter wraps. */
  lemma RationBeforeWrap(k: nat, n: nat)
    requires k > 0 && n <= WORDS
    ensures Expected(k, n) == CeilDiv(n, k)
  {
    CeilSteps(0, k);
    if n < WORDS {
      DivUnique(n, WORDS, 0, n);
    } else {
      DivUnique(n, WORDS, 1, 0);
    }
  }

  /** It stays so for ever exactly when the interval divides the number of counter values. */
  lemma RationExactIff(k: nat)
    requires k > 0
    ensures (forall n: nat :: Expected(k, n) == CeilDiv(n, k)) <==> WORDS % k == 0
  {
    if WORDS % k == 0 {
      forall n: nat ensures Expected(k, n) == CeilDiv(n, k) {
        RationWhenDividing(k, n);
      }
    } else {
      RationBeforeWrap(k, WORDS);
      DivUnique(WORDS, WORDS, 1, 0);
      ExpectedSteps(k, WORDS);
      CeilSteps(WORDS, k);
      assert Due(WORDS, k);
      hide Expected;
      hide CeilDiv;
      assert Expected(k, WORDS + 1) != CeilDiv(WORDS + 1, k);
    }
  }

  lemma RationWhenDividing(k: nat, n: nat)
    requires k > 0 && WORDS % k == 0
    ensures Expected(k, n) == CeilDiv(n, k)
  {
    var q, r, m := n / WORDS, n % WORDS, WORDS / k;
    assert WORDS == k * m && n == q * WORDS + r;
    assert CeilDiv(WORDS, k) == m;
    var c, d := r / k, r % k;
    Product(q, m);
    assert n == k * (q * m + c) + d by {
      assert q * WORDS == k * (q * m);
      assert r == k * c + d;
    }
    DivUnique(n, k, q * m + c, d);
  }

  /** An interval of zero checks the first call of every turn of the counter, and no other. */
  lemma ZeroInterval(call: nat)
    ensures Due(call, 0) <==> exists turn: nat :: call == turn * WORDS
  {
    if Due(call, 0) {
      assert call == call / WORDS * WORDS;
    }
    if turn: nat :| call == turn * WORDS {
      DivUnique(call, WORDS, turn, 0);
    }
  }

  // ----- No window without an error -----

  /** The cancellation has reached every thread, or the deadline has passed. */
  predicate Doomed(s: State) {
    s.threads.Keys <= s.seen || s.elapsed >= s.timeout
  }

  /** Nothing from call `n` on passes. */
  ghost predicate NonePassesFrom(s: State, n: nat) {
    && Doomed(s)
    && n <= |s.intervals|
    && (forall j: nat :: j >= n && j in s.outcomes ==> s.outcomes[j] != Passed)
    && (forall t :: t in s.threads && s.threads[t].AtClock? && s.threads[t].call >= n ==> s.elapsed >= s.timeout)
  }

  lemma NonePassesStep(s: State, step: Step, n: nat)
    requires NonePassesFrom(s, n)
    ensures NonePassesFrom(Next(s, step), n)
  {
    hide IsMultipleOf;
    hide Bump;
  }

  lemma {:induction false} NonePasses(s: State, steps: seq<Step>, n: nat)
    requires NonePassesFrom(s, n)
    ensures NonePassesFrom(Exec(s, steps), n)
  {
    if steps != [] {
      NonePasses(s, steps[..|steps| - 1], n);
      NonePassesStep(Exec(s, steps[..|steps| - 1]), steps[|steps| - 1], n);
    }
  }

  /** Among `k` consecutive values of the wrapping counter one is a multiple of `k`. */
  lemma WindowHasMultiple(i: nat, k: nat) returns (j: nat)
    requires 0 < k <= WORDS
    ensures i <= j < i + k && Due(j, k)
  {
    var q, r := i / WORDS, i % WORDS;
    assert i == WORDS * q + r;
    var x := NextMultiple(r, k);
    if x < WORDS {
      j := i + (x - r);
      DivUnique(j, WORDS, q, x);
    } else {
      j := i + (WORDS - r);
      DivUnique(j, WORDS, q + 1, 0);
      DivUnique(0, k, 0, 0);
    }
  }

  lemma NextMultiple(r: nat, k: nat) returns (x: nat)
    requires k > 0
    ensures r <= x < r + k && x % k == 0
  {
    var m := (r + k - 1) / k;
    Product(k, m);
    x := k * m;
    DivUnique(x, k, m, 0);
  }

  /** Once all is doomed, any `k` finished calls that follow each other include one that reported the timeout. */
  lemma DoomedWindowReports(timeout: nat, threads: set<Thread>, before: seq<Step>, after: seq<Step>, i: nat, k: nat)
    requires 0 < k <= WORDS
    requires Doomed(Exec(Init(timeout, threads), before))
    requires i >= |Exec(Init(timeout, threads), before).intervals|
    requires var s := Exec(Exec(Init(timeout, threads), before), after);
      && i + k <= |s.intervals|
      && forall j :: i <= j < i + k ==> s.intervals[j] == k && j in s.outcomes
    ensures var s := Exec(Exec(Init(timeout, threads), before), after);
      exists j :: i <= j < i + k && s.outcomes[j] == Failed
  {
    var s0 := Exec(Init(timeout, threads), before);
    InitHolds(timeout, threads);
    ExecKeeps(Init(timeout, threads), before);
    assert NonePassesFrom(s0, |s0.intervals|) by {
      forall t | t in s0.threads && s0.threads[t].AtClock? ensures s0.threads[t].call < |s0.intervals| {
        assert Busy(s0, t, s0.threads[t].call);
      }
    }
    NonePasses(s0, after, |s0.intervals|);
    ExecKeeps(s0, after);
    var j := WindowHasMultiple(i, k);
    assert Exec(s0, after).outcomes[j] != Skipped;
  }

  // ----- What the steps have done -----

  /** Somebody has cancelled. */
  ghost predicate WasCancelled(steps: seq<Step>) {
    exists c :: 0 <= c < |steps| && steps[c].Cancel?
  }

  /** The thread has cancelled itself, or seen a cancellation that came before. */
  ghost predicate SawCancellation(steps: seq<Step>, u: Thread) {
    exists i :: 0 <= i < |steps| && (steps[i] == Cancel(u) || (steps[i] == See(u) && WasCancelled(steps[..i])))
  }

  /** The time that has passed. */
  function TimeOf(steps: seq<Step>): nat {
    if steps == [] then 0
    else
      var last := steps[|steps| - 1];
      TimeOf(steps[..|steps| - 1]) + if last.Tick? then last.time else 0
  }

  lemma CancelledStep(steps: seq<Step>, last: Step)
    ensures WasCancelled(steps + [last]) <==> WasCancelled(steps) || last.Cancel?
  {
    var all := steps + [last];
    if c :| 0 <= c < |steps| && steps[c].Cancel? {
      assert all[c].Cancel?;
    }
    assert all[|steps|] == last;
  }

  lemma SawStep(steps: seq<Step>, last: Step, u: Thread)
    ensures SawCancellation(steps + [last], u) <==>
      SawCancellation(steps, u) || last == Cancel(u) || (last == See(u) && WasCancelled(steps))
  {
    var all := steps + [last];
    assert all[|steps|] == last && all[..|steps|] == steps;
    assert forall i :: 0 <= i < |steps| ==> all[i] == steps[i] && all[..i] == steps[..i];
    hide WasCancelled;
  }

  /** Flag, sight and clock are what the steps have made of them; nothing takes a cancellation back. */
  lemma {:induction false} StepsDecide(timeout: nat, threads: set<Thread>, steps: seq<Step>)
    ensures var s := Exec(Init(timeout, threads), steps);
      && (s.cancelled <==> WasCancelled(steps))
      && (forall u :: u in s.seen <==> SawCancellation(steps, u))
      && s.elapsed == TimeOf(steps) && s.timeout == timeout && s.threads.Keys == threads
  {
    if steps != [] {
      var init, last := steps[..|steps| - 1], steps[|steps| - 1];
      StepsDecide(timeout, threads, init);
      assert steps == init + [last];
      CancelledStep(init, last);
      forall u ensures SawCancellation(steps, u) <==>
        SawCancellation(init, u) || last == Cancel(u) || (last == See(u) && WasCancelled(init))
      {
        SawStep(init, last, u);
      }
      hide WasCancelled;
      hide SawCancellation;
      OneStepDecides(Exec(Init(timeout, threads), init), last);
    }
  }

  lemma OneStepDecides(s: State, step: Step)
    ensures var t := Next(s, step);
      && (t.cancelled <==> s.cancelled || step.Cancel?)
      && (forall u :: u in t.seen <==> u in s.seen || step == Cancel(u) || (step == See(u) && s.cancelled))
      && t.elapsed == s.elapsed + (if step.Tick? then step.time else 0)
      && t.timeout == s.timeout && t.threads.Keys == s.threads.Keys
  {
    hide IsMultipleOf;
    hide Bump;
  }

  /** The cancellation has reached every thread, or the time is over. */
  ghost predicate IsOver(timeout: nat, threads: set<Thread>, steps: seq<Step>) {
    (forall u :: u in threads ==> SawCancellation(steps, u)) || TimeOf(steps) >= timeout
  }

  /** A cancellation and the sight of it by every other thread, whatever else happens, is the end. */
  lemma CancelAndSeeIsOver(timeout: nat, threads: set<Thread>, before: seq<Step>, t: Thread, after: seq<Step>)
    requires forall u :: u in threads && u != t ==> See(u) in after
    ensures IsOver(timeout, threads, before + [Cancel(t)] + after)
  {
    var steps := before + [Cancel(t)] + after;
    assert steps[|before|] == Cancel(t);
    forall u | u in threads && u != t ensures SawCancellation(steps, u) {
      var i :| 0 <= i < |after| && after[i] == See(u);
      var j := |before| + 1 + i;
      assert steps[j] == See(u) && steps[..j][|before|] == Cancel(t);
      assert WasCancelled(steps[..j]);
    }
  }

  /**
   Once the steps taken include a cancellation that every thread has seen, or the deadline, any `k` calls that follow
   each other in counter order and are finished include one that reported the timeout, even across a wrap of the
   counter.
   */
  lemma EveryWindowReports(timeout: nat, threads: set<Thread>, before: seq<Step>, after: seq<Step>, i: nat, k: nat)
    requires 0 < k <= WORDS
    requires IsOver(timeout, threads, before)
    requires i >= |Exec(Init(timeout, threads), before).intervals|
    requires var s := Exec(Exec(Init(timeout, threads), before), after);
      && i + k <= |s.intervals|
      && forall j :: i <= j < i + k ==> s.intervals[j] == k && j in s.outcomes
    ensures var s := Exec(Exec(Init(timeout, threads), before), after);
      exists j :: i <= j < i + k && s.outcomes[j] == Failed
  {
    StepsDecide(timeout, threads, before);
    DoomedWindowReports(timeout, threads, before, after, i, k);
    hide SawCancellation;
    hide WasCancelled;
    hide Exec;
  }

  /** Without a cancellation and before the deadline nothing is reported; every finished check that was due passed. */
  lemma NothingReportedEarly(timeout: nat, threads: set<Thread>, steps: seq<Step>, j: nat)
    requires !WasCancelled(steps) && TimeOf(steps) < timeout
    requires j in Exec(Init(timeout, threads), steps).outcomes
    ensures var s := Exec(Init(timeout, threads), steps);
      j < |s.intervals| && s.outcomes[j] == if Due(j, s.intervals[j]) then Passed else Skipped
  {
    InitHolds(timeout, threads);
    ExecKeeps(Init(timeout, threads), steps);
    StepsDecide(timeout, threads, steps);
  }

  // ----- One call -----

  /** The step is taken by another thread, or by none. */
  predicate ByOthers(step: Step, t: Thread) {
    match step
    case Call(u, _) => u != t
    case ReadFlag(u) => u != t
    case ReadClock(u) => u != t
    case _ => true
  }

  /** What other threads do leaves a call where it is and the cancellation seen. */
  lemma {:induction false} OthersLeaveCall(s: State, steps: seq<Step>, t: Thread)
    requires t in s.threads && forall i :: 0 <= i < |steps| ==> ByOthers(steps[i], t)
    ensures var r := Exec(s, steps);
      && t in r.threads && r.threads[t] == s.threads[t] && (t in s.seen ==> t in r.seen)
      && r.elapsed >= s.elapsed && r.timeout == s.timeout
  {
    if steps != [] {
      OthersLeaveCall(s, steps[..|steps| - 1], t);
      OtherLeavesCall(Exec(s, steps[..|steps| - 1]), steps[|steps| - 1], t);
      hide Next;
      hide ByOthers;
    }
  }

  lemma OtherLeavesCall(s: State, step: Step, t: Thread)
    requires t in s.threads && ByOthers(step, t)
    ensures var r := Next(s, step);
      && t in r.threads && r.threads[t] == s.threads[t] && (t in s.seen ==> t in r.seen)
      && r.elapsed >= s.elapsed && r.timeout == s.timeout
  {
    hide IsMultipleOf;
    hide Bump;
  }

  /**
   A thread that has seen the cancellation reports it in its next due check, whatever other threads do meanwhile, and so
   does every thread after the deadline.
   */
  lemma OwnCheckReports(s: State, t: Thread, k: nat, others: seq<Step>, more: seq<Step>)
    requires t in s.threads && s.threads[t] == Idle && IsMultipleOf(s.counter, k)
    requires forall i :: 0 <= i < |others| ==> ByOthers(others[i], t)
    requires forall i :: 0 <= i < |more| ==> ByOthers(more[i], t)
    ensures var call := |s.intervals|;
      var r := Next(Exec(Next(s, Call(t, k)), others), ReadFlag(t));
      var r' := Next(Exec(r, more), ReadClock(t));
      && (t in s.seen ==> call in r.outcomes && r.outcomes[call] == Failed)
      && (t !in Exec(Next(s, Call(t, k)), others).seen && s.elapsed >= s.timeout ==>
            call in r'.outcomes && r'.outcomes[call] == Failed)
  {
    var a := Next(s, Call(t, k));
    assert a.threads[t] == AtFlag(|s.intervals|);
    OthersLeaveCall(a, others, t);
    var b := Exec(a, others);
    var r := Next(b, ReadFlag(t));
    OthersLeaveCall(r, more, t);
    hide Exec;
    hide IsMultipleOf;
    hide Bump;
  }
}
