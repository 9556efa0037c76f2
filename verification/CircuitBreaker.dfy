/** The circuit breaker, with any number of operations in flight.

    `execute` suspends while the operation runs, so one call is two steps: a `Begin`, which is
    refused or admitted, and a later `Succeed` or `Fail`.  Other calls, manual `open`, `close` and
    `reset` come in between.

    Every change of state is told to a callback of the user, which may throw.  During `Begin` that keeps
    the operation from running; during `Succeed` it makes the call count as a failure as well. */
module CircuitBreaker {
  import opened Prelude

  datatype BreakerState = Closed | Open | HalfOpen

  datatype Threshold = Count(failures: int) | Percentage(percentage: real, minRequests: Option<int>)

  datatype Config = Config(failureThreshold: Threshold, timeout: Option<int>, successThreshold: Option<int>)

  datatype Stats = Stats(
    state: BreakerState,
    successCount: nat,
    failureCount: nat,
    consecutiveSuccesses: nat,
    consecutiveFailures: nat,
    lastSuccessAt: Option<int>,
    lastFailureAt: Option<int>)

  datatype Breaker = Breaker(state: BreakerState, stats: Stats, nextAttemptAt: int)

  const FRESH_STATS := Stats(Closed, 0, 0, 0, 0, None, None)
  const NEW_BREAKER := Breaker(Closed, FRESH_STATS, 0)

  function Timeout(c: Config): int { c.timeout.GetOr(60000) }

  function SuccessThreshold(c: Config): int { c.successThreshold.GetOr(2) }

  // ---------------------------------------------------------------- one breaker

  function TransitionTo(c: Config, b: Breaker, target: BreakerState, now: int): Breaker {
    if b.state == target then b
    else Breaker(target, b.stats.(state := target), if target == Open then now + Timeout(c) else b.nextAttemptAt)
  }

  predicate ShouldOpen(c: Config, s: Stats) {
    match c.failureThreshold
    case Count(n) => s.consecutiveFailures >= n
    case Percentage(p, min) =>
      var total := s.successCount + s.failureCount;
      && total >= min.GetOr(5)
      && total > 0  // 0/0 is NaN, which no comparison accepts
      && (s.failureCount as real / total as real) * 100.0 >= p
  }

  function OnSuccess(c: Config, b: Breaker, now: int): Breaker {
    var s := b.stats.(successCount := b.stats.successCount + 1,
                      consecutiveSuccesses := b.stats.consecutiveSuccesses + 1,
                      consecutiveFailures := 0,
                      lastSuccessAt := Some(now));
    var b' := b.(stats := s);
    if b.state == HalfOpen && s.consecutiveSuccesses >= SuccessThreshold(c)
    then TransitionTo(c, b', Closed, now) else b'
  }

  function OnFailure(c: Config, b: Breaker, now: int): Breaker {
    var s := b.stats.(failureCount := b.stats.failureCount + 1,
                      consecutiveFailures := b.stats.consecutiveFailures + 1,
                      consecutiveSuccesses := 0,
                      lastFailureAt := Some(now));
    var b' := b.(stats := s);
    if b.state == HalfOpen || ShouldOpen(c, s) then TransitionTo(c, b', Open, now) else b'
  }

  predicate Refuses(b: Breaker, now: int) { b.state == Open && now < b.nextAttemptAt }

  /** The operation is run: the breaker does not refuse, and no callback about leaving `Open` throws. */
  predicate Admits(b: Breaker, now: int, throws: bool) {
    !Refuses(b, now) && !(b.state == Open && throws)
  }

  function OnBegin(c: Config, b: Breaker, now: int): Breaker {
    if b.state == Open && !Refuses(b, now) then TransitionTo(c, b, HalfOpen, now) else b
  }

  // ---------------------------------------------------------------- interleaved calls

  /** `throws` tells whether the callback throws if it is called. */
  datatype Event =
    | Begin(call: nat, at: int, throws: bool)
    | Succeed(call: nat, at: int, throws: bool)
    | Fail(call: nat, at: int)
    | ManualOpen(at: int)
    | ManualClose(at: int)
    | Reset(at: int)

  /** An outcome counted for a call, and the step at which the call had begun. */
  datatype Finish = Finish(ok: bool, began: nat)

  /** The breaker with its calls in flight (each with the step at which it began), the outcomes
      counted since the last reset, and the step at which the breaker last left `Open`. */
  datatype System = System(
    breaker: Breaker,
    inFlight: map<nat, nat>,
    finished: seq<Finish>,
    leftOpenAt: nat,
    steps: nat)

  const START := System(NEW_BREAKER, map[], [], 0, 0)

  predicate Enabled(s: System, e: Event) {
    match e
    case Begin(call, _, _) => call !in s.inFlight
    case Succeed(call, _, _) => call in s.inFlight
    case Fail(call, _) => call in s.inFlight
    case _ => true
  }

  /** A success closes the breaker, and the callback throws. */
  predicate Interrupts(c: Config, b: Breaker, e: Event) {
    e.Succeed? && e.throws && OnSuccess(c, b, e.at).state != b.state
  }

  function BreakerAfter(c: Config, b: Breaker, e: Event): Breaker {
    match e
    case Begin(_, at, _) => OnBegin(c, b, at)
    case Succeed(_, at, throws) =>
      if Interrupts(c, b, e) then OnFailure(c, OnSuccess(c, b, at), at) else OnSuccess(c, b, at)
    case Fail(_, at) => OnFailure(c, b, at)
    case ManualOpen(at) => TransitionTo(c, b, Open, at)
    case ManualClose(at) => TransitionTo(c, b, Closed, at)
    case Reset(at) => TransitionTo(c, b.(stats := FRESH_STATS), Closed, at)
  }

  /** The outcomes once the success of `e` is counted. */
  function WithSuccess(s: System, e: Event): seq<Finish>
    requires Enabled(s, e) && e.Succeed?
  {
    s.finished + [Finish(true, s.inFlight[e.call])]
  }

  function Step(c: Config, s: System, e: Event): System
    requires Enabled(s, e)
  {
    var b := BreakerAfter(c, s.breaker, e);
    System(
      b,
      match e
      case Begin(call, at, throws) => if Admits(s.breaker, at, throws) then s.inFlight[call := s.steps] else s.inFlight
      case Succeed(call, _, _) => s.inFlight - {call}
      case Fail(call, _) => s.inFlight - {call}
      case _ => s.inFlight,
      match e
      case Succeed(call, _, _) =>
        WithSuccess(s, e) + if Interrupts(c, s.breaker, e) then [Finish(false, s.inFlight[call])] else []
      case Fail(call, _) => s.finished + [Finish(false, s.inFlight[call])]
      case Reset(_) => []
      case _ => s.finished,
      if s.breaker.state == Open && b.state != Open then s.steps else s.leftOpenAt,
      s.steps + 1)
  }

  /** A run: `states[i + 1]` is what event `i` makes of `states[i]`, under a clock that never runs
      backwards. */
  ghost predicate Trace(c: Config, events: seq<Event>, states: seq<System>) {
    && |states| == |events| + 1
    && states[0] == START
    && (forall i :: 0 <= i < |events| ==> Moves(c, states[i], events[i], states[i + 1]))
    && (forall i :: 0 < i < |events| ==> events[i - 1].at <= events[i].at)
  }

  ghost predicate Moves(c: Config, s: System, e: Event, s': System) {
    Enabled(s, e) && s' == Step(c, s, e)
  }

  // ---------------------------------------------------------------- counters are history

  function CountOutcome(finished: seq<Finish>, ok: bool): nat {
    if finished == [] then 0
    else CountOutcome(finished[..|finished| - 1], ok) + if finished[|finished| - 1].ok == ok then 1 else 0
  }

  /** The length of the longest suffix of `finished` whose outcomes are all `ok`. */
  function Trailing(finished: seq<Finish>, ok: bool): (n: nat)
    ensures n <= |finished|
    ensures forall i :: |finished| - n <= i < |finished| ==> finished[i].ok == ok
    ensures n < |finished| ==> finished[|finished| - n - 1].ok != ok
  {
    if finished == [] || finished[|finished| - 1].ok != ok then 0
    else Trailing(finished[..|finished| - 1], ok) + 1
  }

  predicate Counted(b: Breaker, finished: seq<Finish>) {
    && b.stats.state == b.state
    && b.stats.successCount == CountOutcome(finished, true)
    && b.stats.failureCount == CountOutcome(finished, false)
    && b.stats.successCount + b.stats.failureCount == |finished|
    && b.stats.consecutiveSuccesses == Trailing(finished, true)
    && b.stats.consecutiveFailures == Trailing(finished, false)
  }

  predicate CountersAreHistory(s: System) { Counted(s.breaker, s.finished) }

  lemma CountsOneMore(finished: seq<Finish>, f: Finish)
    ensures CountOutcome(finished + [f], true) == CountOutcome(finished, true) + if f.ok then 1 else 0
    ensures CountOutcome(finished + [f], false) == CountOutcome(finished, false) + if f.ok then 0 else 1
    ensures Trailing(finished + [f], true) == if f.ok then Trailing(finished, true) + 1 else 0
    ensures Trailing(finished + [f], false) == if f.ok then 0 else Trailing(finished, false) + 1
  {
    assert (finished + [f])[..|finished|] == finished;
  }

  lemma SuccessCounted(c: Config, b: Breaker, finished: seq<Finish>, f: Finish, at: int)
    requires Counted(b, finished) && f.ok
    ensures Counted(OnSuccess(c, b, at), finished + [f])
  {
    CountsOneMore(finished, f);
  }

  lemma FailureCounted(c: Config, b: Breaker, finished: seq<Finish>, f: Finish, at: int)
    requires Counted(b, finished) && !f.ok
    ensures Counted(OnFailure(c, b, at), finished + [f])
  {
    CountsOneMore(finished, f);
  }

  lemma SuccessCounts(c: Config, s: System, e: Event)
    requires Enabled(s, e) && e.Succeed? && CountersAreHistory(s)
    ensures CountersAreHistory(Step(c, s, e))
  {
    var ok := Finish(true, s.inFlight[e.call]);
    SuccessCounted(c, s.breaker, s.finished, ok, e.at);
    FailureCounted(c, OnSuccess(c, s.breaker, e.at), WithSuccess(s, e), ok.(ok := false), e.at);
    assert WithSuccess(s, e) + [] == WithSuccess(s, e);
  }

  /** Every step keeps the counters, and so in every reachable interleaved state they are functions of the
      outcomes counted since the last reset, and the statistics show the breaker's state. */
  lemma {:induction false} RunCounts(c: Config, events: seq<Event>, states: seq<System>, k: nat)
    requires Trace(c, events, states) && k <= |events|
    ensures CountersAreHistory(states[k])
    ensures states[k].steps == k
  {
    if k == 0 {
    } else {
      var s, e := states[k - 1], events[k - 1];
      RunCounts(c, events, states, k - 1);
      assert Moves(c, s, e, states[k]);
      if e.Succeed? {
        SuccessCounts(c, s, e);
      } else if e.Fail? {
        FailureCounted(c, s.breaker, s.finished, Finish(false, s.inFlight[e.call]), e.at);
      }
    }
  }

  // ---------------------------------------------------------------- what a closed breaker has seen

  /** Among the first `k` events, the last that is a finish, a reset or a manual close is a manual close. */
  predicate ClosedByHandLast(events: seq<Event>, k: nat)
    requires k <= |events|
  {
    k > 0 &&
    (match events[k - 1]
     case ManualClose(_) => true
     case Succeed(_, _, _) => false
     case Fail(_, _) => false
     case Reset(_) => false
     case _ => ClosedByHandLast(events, k - 1))
  }

  /** With a numeric threshold of at least 1, a closed breaker has fewer consecutive failures than
      the threshold, except between a manual close and the next finish or reset. */
  lemma {:induction false} ClosedIsBelowThreshold(c: Config, events: seq<Event>, states: seq<System>, k: nat)
    requires Trace(c, events, states) && k <= |events|
    requires c.failureThreshold.Count? && c.failureThreshold.failures >= 1
    requires states[k].breaker.state == Closed
    ensures states[k].breaker.stats.consecutiveFailures < c.failureThreshold.failures || ClosedByHandLast(events, k)
  {
    if k == 0 {
    } else {
      var s, e := states[k - 1], events[k - 1];
      assert Moves(c, s, e, states[k]);
      RunCounts(c, events, states, k - 1);
      if e.Begin? || e.ManualOpen? {
        ClosedIsBelowThreshold(c, events, states, k - 1);
      }
    }
  }

  predicate NoManualClose(events: seq<Event>) {
    forall i :: 0 <= i < |events| ==> !events[i].ManualClose?
  }

  lemma {:induction false} NotClosedByHand(events: seq<Event>, k: nat)
    requires NoManualClose(events) && k <= |events|
    ensures !ClosedByHandLast(events, k)
  {
    if k == 0 {
    } else {
      NotClosedByHand(events, k - 1);
    }
  }

  lemma PercentageRearranged(failures: nat, total: nat, p: real)
    requires 0 < total
    ensures (failures as real / total as real) * 100.0 >= p <==> 100.0 * failures as real >= p * total as real
  {
    var ratio := failures as real / total as real;
    var t := total as real;
    assert ratio * t == failures as real;
    assert (ratio * 100.0) * t == 100.0 * failures as real;
    if ratio * 100.0 >= p {
      assert (ratio * 100.0) * t >= p * t;
    } else {
      assert (ratio * 100.0) * t < p * t;
    }
  }

  /** A breaker that is closed right after a failure had no reason to open: too few failures in a
      row, too few requests, or a failure share below the percentage. */
  lemma ClosedAfterFailure(c: Config, events: seq<Event>, states: seq<System>, k: nat)
    requires Trace(c, events, states) && k < |events| && events[k].Fail?
    requires states[k + 1].breaker.state == Closed
    ensures var finished := states[k + 1].finished;
            var failures := CountOutcome(finished, false);
            match c.failureThreshold
            case Count(n) => Trailing(finished, false) < n
            case Percentage(p, min) =>
              |finished| < min.GetOr(5) || 100.0 * failures as real < p * |finished| as real
  {
    RunCounts(c, events, states, k + 1);
    assert Moves(c, states[k], events[k], states[k + 1]);
    StayedClosed(c, states[k], events[k]);
  }

  lemma StayedClosed(c: Config, s: System, e: Event)
    requires Enabled(s, e) && e.Fail? && Step(c, s, e).breaker.state == Closed
    ensures var stats := Step(c, s, e).breaker.stats;
            match c.failureThreshold
            case Count(n) => stats.consecutiveFailures < n
            case Percentage(p, min) =>
              var total := stats.successCount + stats.failureCount;
              total < min.GetOr(5) || 100.0 * stats.failureCount as real < p * total as real
  {
    var stats := Step(c, s, e).breaker.stats;
    assert !ShouldOpen(c, stats);
    if c.failureThreshold.Percentage? {
      PercentageRearranged(stats.failureCount, stats.successCount + stats.failureCount, c.failureThreshold.percentage);
    }
  }

  // ---------------------------------------------------------------- an open breaker stays open

  predicate LeavesOpen(e: Event, retryAt: int) {
    e.ManualClose? || e.Reset? || (e.Begin? && e.at >= retryAt)
  }

  /** From `Open`, exactly a close, a reset, or an attempt at the retry time or later leads out;
      nothing else moves the retry time, and attempts before it start no call. */
  lemma OpenStep(c: Config, s: System, e: Event)
    requires Enabled(s, e) && s.breaker.state == Open
    ensures Step(c, s, e).breaker.state == Open <==> !LeavesOpen(e, s.breaker.nextAttemptAt)
    ensures Step(c, s, e).breaker.nextAttemptAt == s.breaker.nextAttemptAt
    ensures e.Begin? && e.at < s.breaker.nextAttemptAt ==> Step(c, s, e).inFlight == s.inFlight
  {
  }

  lemma {:induction false} TimesAscend(c: Config, events: seq<Event>, states: seq<System>, i: nat, j: nat)
    requires Trace(c, events, states) && i <= j < |events|
    ensures events[i].at <= events[j].at
    decreases j
  {
    if i == j {
    } else {
      TimesAscend(c, events, states, i, j - 1);
    }
  }

  /** If event `i` opens the breaker at time t, then until a `close` or `reset`, and before
      t + timeout, the breaker is open with that same retry time, whatever calls begun earlier
      finish meanwhile, and no call begins. */
  lemma {:induction false} OpenIsHeld(c: Config, events: seq<Event>, states: seq<System>, i: nat, k: nat)
    requires Trace(c, events, states) && i < k <= |events|
    requires states[i].breaker.state != Open && states[i + 1].breaker.state == Open
    requires forall j :: i < j < k ==> !events[j].ManualClose? && !events[j].Reset?
    requires k == i + 1 || events[k - 1].at < events[i].at + Timeout(c)
    ensures states[k].breaker.state == Open
    ensures states[k].breaker.nextAttemptAt == events[i].at + Timeout(c)
    ensures forall call :: call in states[k].inFlight ==>
              call in states[i + 1].inFlight && states[k].inFlight[call] == states[i + 1].inFlight[call]
    decreases k
  {
    assert Moves(c, states[k - 1], events[k - 1], states[k]);
    if k == i + 1 {
    } else {
      TimesAscend(c, events, states, k - 2, k - 1);
      OpenIsHeld(c, events, states, i, k - 1);
      OpenStep(c, states[k - 1], events[k - 1]);
    }
  }

  // ---------------------------------------------------------------- what closes a half-open breaker

  /** `e` is a success that closes the half-open breaker, if only until its callback throws. */
  predicate Closes(c: Config, s: System, e: Event) {
    e.Succeed? && s.breaker.state == HalfOpen && OnSuccess(c, s.breaker, e.at).state == Closed
  }

  predicate ClosedByItself(s: System, e: Event, s': System) {
    s.breaker.state == HalfOpen && s'.breaker.state == Closed && !e.ManualClose? && !e.Reset?
  }

  /** Every automatic move from half-open to closed is made by a success that completes at least
      `successThreshold` consecutive successful outcomes. */
  lemma ClosesAfterSuccesses(c: Config, events: seq<Event>, states: seq<System>, k: nat)
    requires Trace(c, events, states) && k < |events|
    ensures ClosedByItself(states[k], events[k], states[k + 1]) ==> Closes(c, states[k], events[k])
    ensures Closes(c, states[k], events[k]) ==>
              Enabled(states[k], events[k]) && Trailing(WithSuccess(states[k], events[k]), true) >= SuccessThreshold(c)
  {
    var s, e := states[k], events[k];
    RunCounts(c, events, states, k);
    assert Moves(c, s, e, states[k + 1]);
    ClosedIsClosing(c, s, e);
    if Closes(c, s, e) {
      SuccessCounted(c, s.breaker, s.finished, Finish(true, s.inFlight[e.call]), e.at);
    }
  }

  lemma ClosedIsClosing(c: Config, s: System, e: Event)
    requires Enabled(s, e)
    ensures ClosedByItself(s, e, Step(c, s, e)) ==> Closes(c, s, e)
  {
    if e.Fail? {
      assert OnFailure(c, s.breaker, e.at).state == Open || s.breaker.state != HalfOpen;
    }
  }

  /** A closing success whose callback throws is counted as a failure too, and opens the breaker again
      exactly when that failure meets the threshold. */
  lemma ThrowingCallbackReopensExactly(c: Config, s: System, e: Event)
    requires Enabled(s, e) && Closes(c, s, e) && e.throws
    ensures Step(c, s, e).breaker.stats.failureCount == s.breaker.stats.failureCount + 1
    ensures Step(c, s, e).breaker.stats.successCount == s.breaker.stats.successCount + 1
    ensures Step(c, s, e).breaker.state == Open <==>
            match c.failureThreshold
            case Count(n) => n <= 1
            case Percentage(p, min) =>
              var failures := s.breaker.stats.failureCount + 1;
              var total := s.breaker.stats.successCount + 1 + failures;
              total >= min.GetOr(5) && 100.0 * failures as real >= p * total as real
  {
    var total := s.breaker.stats.successCount + s.breaker.stats.failureCount + 2;
    if c.failureThreshold.Percentage? {
      PercentageRearranged(s.breaker.stats.failureCount + 1, total, c.failureThreshold.percentage);
    }
  }

  /** No call begins while another is in flight. */
  predicate Sequential(events: seq<Event>, states: seq<System>)
    requires |states| == |events| + 1
  {
    forall i :: 0 <= i < |events| && events[i].Begin? ==> states[i].inFlight == map[]
  }

  predicate NoManualOpen(events: seq<Event>) {
    forall i :: 0 <= i < |events| ==> !events[i].ManualOpen?
  }

  /** The trailing successes all began at step `since` or later. */
  predicate RecentSince(finished: seq<Finish>, since: nat) {
    var n := Trailing(finished, true);
    forall i :: |finished| - n <= i < |finished| ==> finished[i].began >= since
  }

  predicate ProbeInvariant(s: System) {
    && s.leftOpenAt <= s.steps
    && (forall a, b :: a in s.inFlight && b in s.inFlight ==> a == b)
    && (s.breaker.state == Open ==> s.inFlight == map[] && Trailing(s.finished, true) == 0)
    && (s.breaker.state == HalfOpen ==>
          && RecentSince(s.finished, s.leftOpenAt)
          && forall a :: a in s.inFlight ==> s.inFlight[a] >= s.leftOpenAt)
  }

  lemma RecentWithOneMore(finished: seq<Finish>, f: Finish, since: nat)
    requires RecentSince(finished, since) && f.began >= since
    ensures RecentSince(finished + [f], since)
  {
    var more := finished + [f];
    CountsOneMore(finished, f);
    forall i | |more| - Trailing(more, true) <= i < |more|
      ensures more[i].began >= since
    {
      if i < |finished| {
        assert more[i] == finished[i];
      }
    }
  }

  lemma ProbeSucceeds(c: Config, s: System, e: Event)
    requires Enabled(s, e) && e.Succeed? && ProbeInvariant(s)
    ensures ProbeInvariant(Step(c, s, e))
    ensures s.breaker.state == HalfOpen ==> RecentSince(WithSuccess(s, e), s.leftOpenAt)
  {
    var began := s.inFlight[e.call];
    var s' := Step(c, s, e);
    assert s'.inFlight == map[];
    if s.breaker.state == HalfOpen {
      RecentWithOneMore(s.finished, Finish(true, began), s.leftOpenAt);
    }
    if Interrupts(c, s.breaker, e) {
      CountsOneMore(WithSuccess(s, e), Finish(false, began));
    } else {
      assert s'.finished == WithSuccess(s, e);
    }
  }

  lemma ProbeFails(c: Config, s: System, e: Event)
    requires Enabled(s, e) && e.Fail? && ProbeInvariant(s)
    ensures ProbeInvariant(Step(c, s, e))
  {
    CountsOneMore(s.finished, Finish(false, s.inFlight[e.call]));
    assert Step(c, s, e).inFlight == map[];
  }

  lemma ProbeBegins(c: Config, s: System, e: Event)
    requires Enabled(s, e) && e.Begin? && ProbeInvariant(s) && s.inFlight == map[]
    ensures ProbeInvariant(Step(c, s, e))
  {
    var s' := Step(c, s, e);
    assert s'.finished == s.finished;
    assert forall a :: a in s'.inFlight ==> a == e.call && s'.inFlight[a] == s.steps;
  }

  lemma ProbeStep(c: Config, s: System, e: Event)
    requires Enabled(s, e) && ProbeInvariant(s)
    requires !e.ManualOpen? && (e.Begin? ==> s.inFlight == map[])
    ensures ProbeInvariant(Step(c, s, e))
    ensures s.breaker.state == HalfOpen && e.Succeed? ==> RecentSince(WithSuccess(s, e), s.leftOpenAt)
  {
    match e
    case Succeed(_, _, _) => ProbeSucceeds(c, s, e);
    case Fail(_, _) => ProbeFails(c, s, e);
    case Begin(_, _, _) => ProbeBegins(c, s, e);
    case _ =>
  }

  lemma {:induction false} ProbeRun(c: Config, events: seq<Event>, states: seq<System>, k: nat)
    requires Trace(c, events, states) && k <= |events| && Sequential(events, states) && NoManualOpen(events)
    ensures ProbeInvariant(states[k])
  {
    if k == 0 {
    } else {
      ProbeRun(c, events, states, k - 1);
      assert Moves(c, states[k - 1], events[k - 1], states[k]);
      ProbeStep(c, states[k - 1], events[k - 1]);
    }
  }

  /** The successes that close the breaker all began after it last left `Open`. */
  predicate ClosesOnRecent(c: Config, s: System, e: Event) {
    Closes(c, s, e) ==> Enabled(s, e) && RecentSince(WithSuccess(s, e), s.leftOpenAt)
  }

  /** In runs with no manual open and no overlapping calls, all the successes that close a
      half-open breaker began after it last left `Open`. */
  lemma ClosingSuccessesAreRecent(c: Config, events: seq<Event>, states: seq<System>, k: nat)
    requires Trace(c, events, states) && k < |events| && Sequential(events, states) && NoManualOpen(events)
    ensures ClosesOnRecent(c, states[k], events[k])
  {
    ProbeRun(c, events, states, k);
    RunCounts(c, events, states, k);
    assert Moves(c, states[k], events[k], states[k + 1]);
    ProbeStep(c, states[k], events[k]);
  }

  // ---------------------------------------------------------------- under which policies they are recent

  ghost predicate Follows(c: Config, events: seq<Event>, states: seq<System>, overlap: bool, manual: bool) {
    Trace(c, events, states) && (overlap || Sequential(events, states)) && (manual || NoManualOpen(events))
  }

  /** On every run, with or without overlapping calls and manual opens. */
  ghost predicate AlwaysRecent(c: Config, overlap: bool, manual: bool) {
    forall events, states, k ::
      Follows(c, events, states, overlap, manual) && 0 <= k < |events| ==> ClosesOnRecent(c, states[k], events[k])
  }

  /** No number of failures reaches the threshold. */
  predicate NeverOpens(c: Config) {
    c.failureThreshold.Percentage? && c.failureThreshold.percentage > 100.0
  }

  lemma NeverReached(c: Config, s: Stats)
    requires NeverOpens(c)
    ensures !ShouldOpen(c, s)
  {
    var total := s.successCount + s.failureCount;
    if total > 0 {
      PercentageRearranged(s.failureCount, total, c.failureThreshold.percentage);
      var p, t := c.failureThreshold.percentage, total as real;
      assert 100.0 * t <= p * t && p * t > 100.0 * t;
      assert 100.0 * s.failureCount as real <= 100.0 * t;
    }
  }

  lemma {:induction false} StaysClosed(c: Config, events: seq<Event>, states: seq<System>, k: nat)
    requires Trace(c, events, states) && NoManualOpen(events) && NeverOpens(c) && k <= |events|
    ensures states[k].breaker.state == Closed
  {
    if k == 0 {
    } else {
      StaysClosed(c, events, states, k - 1);
      assert Moves(c, states[k - 1], events[k - 1], states[k]);
      NeverReached(c, states[k].breaker.stats);
    }
  }

  /** A run with what is to be extended: all events so far happened at time 0. */
  ghost predicate RunAtZero(c: Config, events: seq<Event>, states: seq<System>) {
    Trace(c, events, states) && forall i :: 0 <= i < |events| ==> events[i].at == 0
  }

  lemma Extend(c: Config, events: seq<Event>, states: seq<System>, e: Event)
    returns (events': seq<Event>, states': seq<System>)
    requires Trace(c, events, states) && Enabled(states[|events|], e)
    requires events != [] ==> events[|events| - 1].at <= e.at
    ensures events' == events + [e] && states' == states + [Step(c, states[|events|], e)] && Trace(c, events', states')
  {
    events', states' := events + [e], states + [Step(c, states[|events|], e)];
    forall i | 0 <= i < |events'|
      ensures Moves(c, states'[i], events'[i], states'[i + 1])
    {
      if i < |events| {
        assert Moves(c, states[i], events[i], states[i + 1]);
      }
    }
  }

  /** A half-open breaker that closes with the next success, on outcomes that end in an old success. */
  predicate AboutToClose(c: Config, s: System, probe: nat) {
    && s.breaker.state == HalfOpen && probe in s.inFlight
    && s.breaker.stats.consecutiveSuccesses + 1 >= SuccessThreshold(c)
    && s.finished != [] && s.finished[|s.finished| - 1].ok && s.finished[|s.finished| - 1].began < s.leftOpenAt
  }

  lemma ClosesOnOld(c: Config, s: System, probe: nat, at: int)
    requires AboutToClose(c, s, probe)
    ensures Enabled(s, Succeed(probe, at, false)) && !ClosesOnRecent(c, s, Succeed(probe, at, false))
  {
    var f := Finish(true, s.inFlight[probe]);
    CountsOneMore(s.finished, f);
    assert (s.finished + [f])[|s.finished| - 1] == s.finished[|s.finished| - 1];
  }

  /** An open breaker whose outcomes end in enough old successes: at the retry time a probe begins. */
  lemma ProbeAfterOldSuccess(c: Config, events: seq<Event>, states: seq<System>, probe: nat)
    returns (events': seq<Event>, states': seq<System>)
    requires RunAtZero(c, events, states) && events != []
    requires var s := states[|events|];
             && s.breaker.state == Open && s.breaker.nextAttemptAt == Timeout(c) && probe !in s.inFlight
             && s.breaker.stats.consecutiveSuccesses + 1 >= SuccessThreshold(c)
             && s.finished != [] && s.finished[|s.finished| - 1].ok && s.finished[|s.finished| - 1].began < s.steps
    ensures Trace(c, events', states') && |events'| == |events| + 2
    ensures events'[..|events|] == events && states'[..|states|] == states
    ensures events'[|events|].Begin? && events'[|events| + 1].Succeed?
    ensures !ClosesOnRecent(c, states'[|events| + 1], events'[|events| + 1])
  {
    var at := if Timeout(c) > 0 then Timeout(c) else 0;
    events', states' := Extend(c, events, states, Begin(probe, at, false));
    var s := states'[|events'|];
    assert AboutToClose(c, s, probe);
    ClosesOnOld(c, s, probe, at);
    events', states' := Extend(c, events', states', Succeed(probe, at, false));
  }

  /** `n` calls have succeeded one after the other. */
  lemma {:induction false} Successes(c: Config, n: nat) returns (events: seq<Event>, states: seq<System>)
    ensures RunAtZero(c, events, states) && |events| == 2 * n && Sequential(events, states)
    ensures var s := states[|events|];
            && s.breaker.state == Closed && s.inFlight == map[] && s.steps == 2 * n
            && s.breaker.stats.consecutiveSuccesses == n && |s.finished| == n
            && (n > 0 ==> s.finished[n - 1].ok && s.finished[n - 1].began < 2 * n)
  {
    if n == 0 {
      events, states := [], [START];
    } else {
      events, states := Successes(c, n - 1);
      events, states := Extend(c, events, states, Begin(0, 0, false));
      events, states := Extend(c, events, states, Succeed(0, 0, false));
    }
  }

  function Enough(c: Config): nat {
    if SuccessThreshold(c) > 1 then SuccessThreshold(c) else 1
  }

  /** A manual open keeps the success count of the closed period: for every configuration a sequential run
      closes on old successes. */
  lemma ManualOpenKeepsOldSuccesses(c: Config) returns (events: seq<Event>, states: seq<System>, k: nat)
    ensures Trace(c, events, states) && Sequential(events, states) && k < |events|
    ensures !ClosesOnRecent(c, states[k], events[k])
  {
    var before, reached := Successes(c, Enough(c));
    var start, startStates := Extend(c, before, reached, ManualOpen(0));
    events, states := ProbeAfterOldSuccess(c, start, startStates, 0);
    k := |start| + 1;
    forall i | 0 <= i < |events| && events[i].Begin?
      ensures states[i].inFlight == map[]
    {
      if i < |start| {
        assert events[..|start|][i] == start[i] && states[..|startStates|][i] == startStates[i];
        assert i < |before|;
      } else {
        assert i == |start| && states[..|startStates|][i] == startStates[i];
      }
    }
  }

  /** `n` calls are in flight, each begun at its own step. */
  lemma {:induction false} Beginnings(c: Config, n: nat) returns (events: seq<Event>, states: seq<System>)
    ensures RunAtZero(c, events, states) && |events| == n && NoManualOpen(events)
    ensures var s := states[n];
            && s.breaker == NEW_BREAKER && s.finished == [] && s.steps == n
            && (forall call: nat :: call in s.inFlight <==> call < n)
            && forall call :: call in s.inFlight ==> s.inFlight[call] == call
  {
    if n == 0 {
      events, states := [], [START];
    } else {
      events, states := Beginnings(c, n - 1);
      var before := states[n - 1];
      events, states := Extend(c, events, states, Begin(n - 1, 0, false));
      assert states[n].inFlight == before.inFlight[n - 1 := n - 1];
    }
  }

  /** Of `total` calls in flight the first `n` have failed. */
  ghost predicate FirstFailed(c: Config, s: System, total: nat, n: nat) {
    && s.breaker.state != HalfOpen && s.steps == total + n
    && s.breaker.stats.successCount == 0 && s.breaker.stats.failureCount == n
    && s.breaker.stats.consecutiveFailures == n && s.breaker.stats.consecutiveSuccesses == 0
    && (s.breaker.state == Open ==> s.breaker.nextAttemptAt == Timeout(c))
    && (forall call :: call in s.inFlight <==> n <= call < total)
    && forall call :: call in s.inFlight ==> s.inFlight[call] == call
  }

  lemma OneMoreFails(c: Config, s: System, total: nat, n: nat)
    requires n < total && FirstFailed(c, s, total, n)
    ensures var s' := Step(c, s, Fail(n, 0));
            FirstFailed(c, s', total, n + 1) && (ShouldOpen(c, s'.breaker.stats) ==> s'.breaker.state == Open)
  {
  }

  lemma {:induction false} Failures(c: Config, total: nat, n: nat) returns (events: seq<Event>, states: seq<System>)
    requires n <= total
    ensures RunAtZero(c, events, states) && |events| == total + n && NoManualOpen(events)
    ensures FirstFailed(c, states[|events|], total, n)
    ensures n > 0 && ShouldOpen(c, states[|events|].breaker.stats) ==> states[|events|].breaker.state == Open
  {
    if n == 0 {
      events, states := Beginnings(c, total);
    } else {
      events, states := Failures(c, total, n - 1);
      OneMoreFails(c, states[|events|], total, n - 1);
      events, states := Extend(c, events, states, Fail(n - 1, 0));
    }
  }

  /** How many failures in a row open the breaker. */
  function FailuresToOpen(c: Config): nat
    requires !NeverOpens(c)
  {
    var n := match c.failureThreshold case Count(n) => n case Percentage(_, min) => min.GetOr(5);
    if n > 1 then n else 1
  }

  lemma FailuresOpen(c: Config, s: Stats)
    requires !NeverOpens(c) && s.successCount == 0
    requires s.failureCount == s.consecutiveFailures == FailuresToOpen(c)
    ensures ShouldOpen(c, s)
  {
    if c.failureThreshold.Percentage? {
      var n := FailuresToOpen(c);
      PercentageRearranged(n, n, c.failureThreshold.percentage);
      assert c.failureThreshold.percentage * n as real <= 100.0 * n as real;
    }
  }

  /** All but the last of the old calls have succeeded since the breaker opened. */
  ghost predicate OldSucceeded(c: Config, s: System, failed: nat, n: nat, total: nat) {
    && s.breaker.state == Open && s.breaker.nextAttemptAt == Timeout(c) && s.steps == total + failed + n
    && s.breaker.stats.consecutiveSuccesses == n
    && (forall call :: call in s.inFlight <==> failed + n <= call < total)
    && (forall call :: call in s.inFlight ==> s.inFlight[call] == call)
    && (n > 0 ==> s.finished != [] && s.finished[|s.finished| - 1].ok && s.finished[|s.finished| - 1].began < total)
  }

  lemma {:induction false} OldSuccesses(c: Config, failed: nat, n: nat, total: nat)
    returns (events: seq<Event>, states: seq<System>)
    requires !NeverOpens(c) && failed == FailuresToOpen(c) && failed + n <= total
    ensures RunAtZero(c, events, states) && |events| == total + failed + n && NoManualOpen(events)
    ensures OldSucceeded(c, states[|events|], failed, n, total)
  {
    if n == 0 {
      events, states := Failures(c, total, failed);
      FailuresOpen(c, states[|events|].breaker.stats);
    } else {
      events, states := OldSuccesses(c, failed, n - 1, total);
      events, states := Extend(c, events, states, Succeed(failed + n - 1, 0, false));
    }
  }

  /** With overlapping calls, for every configuration that can open at all, successes of calls begun before
      the breaker opened help to close it. */
  lemma OverlapCountsOldSuccesses(c: Config) returns (events: seq<Event>, states: seq<System>, k: nat)
    requires !NeverOpens(c)
    ensures Trace(c, events, states) && NoManualOpen(events) && k < |events|
    ensures !ClosesOnRecent(c, states[k], events[k])
  {
    var failed, n := FailuresToOpen(c), Enough(c);
    var before, reached := OldSuccesses(c, failed, n, failed + n);
    events, states := ProbeAfterOldSuccess(c, before, reached, 0);
    k := |before| + 1;
    forall i | 0 <= i < |events|
      ensures !events[i].ManualOpen?
    {
      if i < |before| {
        assert events[..|before|][i] == before[i];
      }
    }
  }

  /** The successes that close the breaker are recent on all runs exactly when there are no manual opens and,
      besides, calls do not overlap or no number of failures opens the breaker. */
  lemma RecencyPolicyExactly(c: Config, overlap: bool, manual: bool)
    ensures AlwaysRecent(c, overlap, manual) <==> !manual && (!overlap || NeverOpens(c))
  {
    if manual {
      var events, states, k := ManualOpenKeepsOldSuccesses(c);
      assert !ClosesOnRecent(c, states[k], events[k]);
    } else if overlap && !NeverOpens(c) {
      var events, states, k := OverlapCountsOldSuccesses(c);
      assert !ClosesOnRecent(c, states[k], events[k]);
    } else {
      forall events: seq<Event>, states: seq<System>, k: nat |
        Follows(c, events, states, overlap, manual) && k < |events|
        ensures ClosesOnRecent(c, states[k], events[k])
      {
        if !overlap {
          ClosingSuccessesAreRecent(c, events, states, k);
        } else {
          StaysClosed(c, events, states, k);
        }
      }
    }
  }

  // ---------------------------------------------------------------- when closed means below the threshold

  /** On every run, with or without manual closes. */
  ghost predicate ClosedMeansBelow(c: Config, manual: bool)
    requires c.failureThreshold.Count?
  {
    forall events, states: seq<System> ::
      Trace(c, events, states) && (manual || NoManualClose(events)) && states[|events|].breaker.state == Closed ==>
        states[|events|].breaker.stats.consecutiveFailures < c.failureThreshold.failures
  }

  /** Enough failures in a row and a manual close leave the breaker closed at the threshold. */
  lemma ClosedByHandAboveThreshold(c: Config) returns (events: seq<Event>, states: seq<System>)
    requires c.failureThreshold.Count? && c.failureThreshold.failures >= 1
    ensures Trace(c, events, states) && states[|events|].breaker.state == Closed
    ensures states[|events|].breaker.stats.consecutiveFailures >= c.failureThreshold.failures
  {
    var n := c.failureThreshold.failures;
    events, states := Failures(c, n, n);
    events, states := Extend(c, events, states, ManualClose(0));
  }

  /** "Closed means fewer consecutive failures than the threshold" holds on all runs exactly for thresholds
      of at least 1 and without manual closes. */
  lemma BelowThresholdExactly(c: Config, manual: bool)
    requires c.failureThreshold.Count?
    ensures ClosedMeansBelow(c, manual) <==> c.failureThreshold.failures >= 1 && !manual
  {
    if c.failureThreshold.failures < 1 {
      var none: seq<Event> := [];
      var states := [START];
      assert Trace(c, none, states) && NoManualClose(none) && states[|none|].breaker == NEW_BREAKER;
    } else if manual {
      var events, states := ClosedByHandAboveThreshold(c);
    } else {
      forall events, states: seq<System> |
        Trace(c, events, states) && NoManualClose(events) && states[|events|].breaker.state == Closed
        ensures states[|events|].breaker.stats.consecutiveFailures < c.failureThreshold.failures
      {
        NotClosedByHand(events, |events|);
        ClosedIsBelowThreshold(c, events, states, |events|);
      }
    }
  }

  // ---------------------------------------------------------------- every move, from the history

  /** With these outcomes a failure opens a closed breaker: enough failures in a row, or a large enough share
      of enough requests. */
  predicate Trips(threshold: Threshold, finished: seq<Finish>) {
    match threshold
    case Count(n) => Trailing(finished, false) >= n
    case Percentage(p, min) =>
      && |finished| >= min.GetOr(5)
      && 100.0 * CountOutcome(finished, false) as real >= p * |finished| as real
  }

  /** `e` completes as many successes in a row as a half-open breaker needs. */
  predicate CompletesProbe(c: Config, s: System, e: Event)
    requires Enabled(s, e)
  {
    e.Succeed? && s.breaker.state == HalfOpen && Trailing(WithSuccess(s, e), true) >= c.successThreshold.GetOr(2)
  }

  /** A counted failure opens the breaker: in half-open state any, in closed state one that trips; or one that a
      throwing callback makes of the success that has just closed it. */
  predicate FailureOpens(c: Config, s: System, e: Event)
    requires Enabled(s, e)
  {
    match e
    case Fail(call, _) =>
      s.breaker.state == HalfOpen || Trips(c.failureThreshold, s.finished + [Finish(false, s.inFlight[call])])
    case Succeed(call, _, throws) =>
      && CompletesProbe(c, s, e) && throws
      && Trips(c.failureThreshold, WithSuccess(s, e) + [Finish(false, s.inFlight[call])])
    case _ => false
  }

  lemma ShouldOpenTrips(c: Config, b: Breaker, finished: seq<Finish>)
    requires Counted(b, finished) && finished != []
    ensures ShouldOpen(c, b.stats) <==> Trips(c.failureThreshold, finished)
  {
    if c.failureThreshold.Percentage? {
      PercentageRearranged(b.stats.failureCount, |finished|, c.failureThreshold.percentage);
    }
  }

  lemma FailureMoves(c: Config, b: Breaker, finished: seq<Finish>, f: Finish, at: int)
    requires Counted(b, finished) && !f.ok
    ensures var b' := OnFailure(c, b, at);
            if b.state != Open && (b.state == HalfOpen || Trips(c.failureThreshold, finished + [f]))
            then b'.state == Open && b'.nextAttemptAt == at + c.timeout.GetOr(60000)
            else b'.state == b.state && b'.nextAttemptAt == b.nextAttemptAt
    ensures OnFailure(c, b, at).stats.lastFailureAt == Some(at)
    ensures OnFailure(c, b, at).stats.lastSuccessAt == b.stats.lastSuccessAt
  {
    FailureCounted(c, b, finished, f, at);
    var stats := OnFailure(c, b, at).stats;
    assert Counted(b.(stats := stats.(state := b.state)), finished + [f]);
    ShouldOpenTrips(c, b.(stats := stats.(state := b.state)), finished + [f]);
  }

  lemma SuccessMoves(c: Config, b: Breaker, finished: seq<Finish>, f: Finish, at: int)
    requires Counted(b, finished) && f.ok
    ensures OnSuccess(c, b, at).state ==
            if b.state == HalfOpen && Trailing(finished + [f], true) >= c.successThreshold.GetOr(2)
            then Closed else b.state
    ensures OnSuccess(c, b, at).nextAttemptAt == b.nextAttemptAt
    ensures OnSuccess(c, b, at).stats.lastSuccessAt == Some(at)
    ensures OnSuccess(c, b, at).stats.lastFailureAt == b.stats.lastFailureAt
  {
    SuccessCounted(c, b, finished, f, at);
  }

  /** The state that `e` leads to. */
  function NextState(c: Config, s: System, e: Event): BreakerState
    requires Enabled(s, e)
  {
    if e.ManualOpen? then Open
    else if e.ManualClose? || e.Reset? then Closed
    else if s.breaker.state == Open then
      if e.Begin? && e.at >= s.breaker.nextAttemptAt then HalfOpen else Open
    else if FailureOpens(c, s, e) then Open
    else if CompletesProbe(c, s, e) then Closed
    else s.breaker.state
  }

  /** In every run the next state is determined by the present one and the outcomes since the last reset, and
      the retry time moves exactly when the breaker opens. */
  lemma MovesExactly(c: Config, events: seq<Event>, states: seq<System>, k: nat)
    requires Trace(c, events, states) && k < |events|
    ensures Enabled(states[k], events[k])
    ensures states[k + 1].breaker.state == NextState(c, states[k], events[k])
    ensures states[k + 1].breaker.nextAttemptAt ==
            if states[k].breaker.state != Open && states[k + 1].breaker.state == Open
            then events[k].at + c.timeout.GetOr(60000) else states[k].breaker.nextAttemptAt
  {
    var s, e := states[k], events[k];
    RunCounts(c, events, states, k);
    assert Moves(c, s, e, states[k + 1]);
    match e
    case Succeed(call, at, throws) =>
      var b := OnSuccess(c, s.breaker, at);
      SuccessCounted(c, s.breaker, s.finished, Finish(true, s.inFlight[call]), at);
      SuccessMoves(c, s.breaker, s.finished, Finish(true, s.inFlight[call]), at);
      FailureMoves(c, b, WithSuccess(s, e), Finish(false, s.inFlight[call]), at);
    case Fail(call, at) => FailureMoves(c, s.breaker, s.finished, Finish(false, s.inFlight[call]), at);
    case _ =>
  }

  /** In particular a failure in half-open state opens the breaker again, for the whole timeout. */
  lemma FailedProbeReopens(c: Config, events: seq<Event>, states: seq<System>, k: nat)
    requires Trace(c, events, states) && k < |events| && events[k].Fail? && states[k].breaker.state == HalfOpen
    ensures states[k + 1].breaker.state == Open
    ensures states[k + 1].breaker.nextAttemptAt == events[k].at + c.timeout.GetOr(60000)
  {
    MovesExactly(c, events, states, k);
  }

  /** Exactly the manual opens and the failures that trip, or come in half-open state, open the breaker. */
  lemma OpensExactly(c: Config, events: seq<Event>, states: seq<System>, k: nat)
    requires Trace(c, events, states) && k < |events| && states[k].breaker.state != Open
    ensures Enabled(states[k], events[k])
    ensures states[k + 1].breaker.state == Open <==>
            events[k].ManualOpen? || FailureOpens(c, states[k], events[k])
  {
    MovesExactly(c, events, states, k);
  }

  /** A call begins exactly when the breaker is not open, or its retry time has come and the callback about
      leaving the open state does not throw. */
  lemma BeginsExactly(c: Config, events: seq<Event>, states: seq<System>, k: nat)
    requires Trace(c, events, states) && k < |events| && events[k].Begin?
    ensures events[k].call !in states[k].inFlight
    ensures events[k].call in states[k + 1].inFlight <==>
            states[k].breaker.state != Open || (events[k].at >= states[k].breaker.nextAttemptAt && !events[k].throws)
  {
    assert Moves(c, states[k], events[k], states[k + 1]);
  }

  /** Each outcome is counted for the call that ends, a reset forgets all of them, and nothing else changes
      them; the times of the last ones follow. */
  lemma OutcomesFollowEvents(c: Config, events: seq<Event>, states: seq<System>, k: nat)
    requires Trace(c, events, states) && k < |events|
    ensures var s, e, s' := states[k], events[k], states[k + 1];
            var last, last' := s.breaker.stats, s'.breaker.stats;
            match e
            case Succeed(call, at, throws) =>
              && call in s.inFlight && call !in s'.inFlight && last'.lastSuccessAt == Some(at)
              && var f := Finish(true, s.inFlight[call]);
                 if throws && s.breaker.state == HalfOpen
                    && Trailing(s.finished + [f], true) >= c.successThreshold.GetOr(2)
                 then s'.finished == s.finished + [f] + [f.(ok := false)] && last'.lastFailureAt == Some(at)
                 else s'.finished == s.finished + [f] && last'.lastFailureAt == last.lastFailureAt
            case Fail(call, at) =>
              && call in s.inFlight && call !in s'.inFlight
              && s'.finished == s.finished + [Finish(false, s.inFlight[call])]
              && last'.lastFailureAt == Some(at) && last'.lastSuccessAt == last.lastSuccessAt
            case Reset(_) => s'.finished == [] && last' == Stats(Closed, 0, 0, 0, 0, None, None)
            case _ => s'.finished == s.finished && last'.(state := last.state) == last
  {
    var s, e := states[k], events[k];
    RunCounts(c, events, states, k);
    assert Moves(c, s, e, states[k + 1]);
    match e
    case Succeed(call, at, throws) =>
      var f := Finish(true, s.inFlight[call]);
      SuccessCounted(c, s.breaker, s.finished, f, at);
      SuccessMoves(c, s.breaker, s.finished, f, at);
      FailureMoves(c, OnSuccess(c, s.breaker, at), WithSuccess(s, e), f.(ok := false), at);
      assert WithSuccess(s, e) + [] == WithSuccess(s, e);
    case Fail(call, at) => FailureMoves(c, s.breaker, s.finished, Finish(false, s.inFlight[call]), at);
    case _ =>
  }

  // ---------------------------------------------------------------- the breaker object

  class CircuitBreaker {
    const config: Config
    var state: BreakerState
    var stats: Stats
    var nextAttemptAt: int

    function Value(): Breaker
      reads this
    {
      Breaker(state, stats, nextAttemptAt)
    }

    constructor (config: Config)
      ensures this.config == config && Value() == NEW_BREAKER
    {
      this.config := config;
      state, stats, nextAttemptAt := Closed, FRESH_STATS, 0;
    }

    /** The part of `execute` before the operation runs; `throws` tells whether the callback throws if it is
        called. */
    method BeginExecute(now: int, throws: bool) returns (admitted: bool)
      modifies this
      ensures admitted <==> Admits(old(Value()), now, throws)
      ensures Value() == BreakerAfter(config, old(Value()), Begin(0, now, throws))
    {
      if state == Open {
        if now < nextAttemptAt {
          return false;
        }
        var threw := Transition(HalfOpen, now, throws);
        return !threw;
      }
      return true;
    }

    /** The part of `execute` after the operation has settled. */
    method FinishExecute(succeeded: bool, now: int, throws: bool)
      modifies this
      ensures Value() == BreakerAfter(config, old(Value()), if succeeded then Succeed(0, now, throws) else Fail(0, now))
    {
      if succeeded {
        var threw := Success(now, throws);
        if threw {
          var _ := Failure(now, throws);
        }
      } else {
        var _ := Failure(now, throws);
      }
    }

    method OpenManually(now: int, throws: bool) returns (threw: bool)
      modifies this
      ensures Value() == BreakerAfter(config, old(Value()), ManualOpen(now))
      ensures threw <==> throws && old(state) != Open
    {
      threw := Transition(Open, now, throws);
    }

    method CloseManually(now: int, throws: bool) returns (threw: bool)
      modifies this
      ensures Value() == BreakerAfter(config, old(Value()), ManualClose(now))
      ensures threw <==> throws && old(state) != Closed
    {
      threw := Transition(Closed, now, throws);
    }

    method ResetAll(now: int, throws: bool) returns (threw: bool)
      modifies this
      ensures Value() == BreakerAfter(config, old(Value()), Reset(now))
      ensures threw <==> throws && old(state) != Closed
    {
      stats := FRESH_STATS;
      threw := Transition(Closed, now, throws);
    }

    method Success(now: int, throws: bool) returns (threw: bool)
      modifies this
      ensures Value() == OnSuccess(config, old(Value()), now)
      ensures threw <==> throws && state != old(state)
    {
      threw := false;
      stats := stats.(successCount := stats.successCount + 1);
      stats := stats.(consecutiveSuccesses := stats.consecutiveSuccesses + 1);
      stats := stats.(consecutiveFailures := 0);
      stats := stats.(lastSuccessAt := Some(now));
      if state == HalfOpen {
        var threshold := config.successThreshold.GetOr(2);
        if stats.consecutiveSuccesses >= threshold {
          threw := Transition(Closed, now, throws);
        }
      }
    }

    method Failure(now: int, throws: bool) returns (threw: bool)
      modifies this
      ensures Value() == OnFailure(config, old(Value()), now)
      ensures threw <==> throws && state != old(state)
    {
      threw := false;
      stats := stats.(failureCount := stats.failureCount + 1);
      stats := stats.(consecutiveFailures := stats.consecutiveFailures + 1);
      stats := stats.(consecutiveSuccesses := 0);
      stats := stats.(lastFailureAt := Some(now));
      if state == HalfOpen || ShouldOpen(config, stats) {
        threw := Transition(Open, now, throws);
      }
    }

    /** The state has changed by the time the callback is called. */
    method Transition(newState: BreakerState, now: int, throws: bool) returns (threw: bool)
      modifies this
      ensures Value() == TransitionTo(config, old(Value()), newState, now)
      ensures threw <==> throws && old(state) != newState
    {
      if state == newState {
        return false;
      }
      state := newState;
      stats := stats.(state := newState);
      if newState == Open {
        nextAttemptAt := now + config.timeout.GetOr(60000);
      }
      return throws;
    }
  }
}
