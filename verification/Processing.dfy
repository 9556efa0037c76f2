/** Processing one job: events to handlers, metrics, a tracing span, and the retry decision, in the
    order in which the orchestrator performs them, whatever throws on the way. */
module Processing {
  import opened Prelude
  import Backoff

  datatype Event =
    | JobAdded | JobStarted | JobCompleted | JobFailed | JobRetrying
    | JobStalled | JobProgress | JobDlq | QueueError

  /** A handler's identity. */
  type Handler = nat

  // ---------------------------------------------------------------- the handler registry

  type Registry = map<Event, seq<Handler>>

  function HandlersOf(r: Registry, e: Event): seq<Handler> {
    if e in r then r[e] else []
  }

  datatype RegistryOp =
    | Register(event: Event, handler: Handler)
    | Unregister(event: Event, handler: Handler)
    | Clear(event: Event)

  function Without(handlers: seq<Handler>, h: Handler): (rest: seq<Handler>)
    ensures forall x :: x in rest <==> x in handlers && x != h
  {
    if handlers == [] then []
    else (if handlers[0] == h then [] else [handlers[0]]) + Without(handlers[1..], h)
  }

  /** Insertion-ordered sets: registering a handler again changes nothing. */
  function Apply(r: Registry, op: RegistryOp): Registry {
    match op
    case Register(e, h) =>
      if h in HandlersOf(r, e) then r else r[e := HandlersOf(r, e) + [h]]
    case Unregister(e, h) =>
      if e in r then r[e := Without(r[e], h)] else r
    case Clear(e) => r - {e}
  }

  /** The registry after the first `n` operations on `r`. */
  function AfterOps(r: Registry, ops: seq<RegistryOp>, n: nat): Registry
    requires n <= |ops|
  {
    if n == 0 then r else Apply(AfterOps(r, ops, n - 1), ops[n - 1])
  }

  /** The operation since which `h` has been registered for `e` without interruption. */
  function Since(ops: seq<RegistryOp>, n: nat, e: Event, h: Handler): (i: Option<nat>)
    requires n <= |ops|
    ensures i.Some? ==> i.value < n
  {
    if n == 0 then None
    else
      var before := Since(ops, n - 1, e, h);
      var op := ops[n - 1];
      if op == Register(e, h) && before == None then Some(n - 1)
      else if op == Unregister(e, h) || op == Clear(e) then None
      else before
  }

  ghost predicate InOrder(ops: seq<RegistryOp>, n: nat, e: Event, handlers: seq<Handler>)
    requires n <= |ops|
  {
    && (forall h :: h in handlers <==> Since(ops, n, e, h).Some?)
    && forall i, j :: 0 <= i < j < |handlers| ==>
         Since(ops, n, e, handlers[i]).GetOr(0) < Since(ops, n, e, handlers[j]).GetOr(0)
  }

  ghost predicate Increasing(handlers: seq<Handler>, time: Handler -> nat) {
    forall i, j :: 0 <= i < j < |handlers| ==> time(handlers[i]) < time(handlers[j])
  }

  /** Removing a handler keeps the others in their order. */
  lemma {:induction false} WithoutKeepsOrder(handlers: seq<Handler>, h: Handler, time: Handler -> nat)
    requires Increasing(handlers, time)
    ensures Increasing(Without(handlers, h), time)
  {
    if handlers == [] {
    } else {
      var tail := Without(handlers[1..], h);
      assert Increasing(handlers[1..], time);
      WithoutKeepsOrder(handlers[1..], h, time);
      if handlers[0] == h {
        assert Without(handlers, h) == tail;
      } else {
        forall x | x in tail
          ensures time(handlers[0]) < time(x)
        {
          assert x in handlers[1..];
          var k :| 0 <= k < |handlers[1..]| && handlers[1..][k] == x;
          assert handlers[k + 1] == x;
        }
        PrependKeepsOrder(handlers[0], tail, time);
      }
    }
  }

  lemma PrependKeepsOrder(first: Handler, tail: seq<Handler>, time: Handler -> nat)
    requires Increasing(tail, time) && forall x :: x in tail ==> time(first) < time(x)
    ensures Increasing([first] + tail, time)
  {
    var rest := [first] + tail;
    forall i, j | 0 <= i < j < |rest|
      ensures time(rest[i]) < time(rest[j])
    {
      assert rest[j] == tail[j - 1] && tail[j - 1] in tail;
      if i > 0 {
        assert rest[i] == tail[i - 1];
      }
    }
  }

  lemma RegisterInOrder(ops: seq<RegistryOp>, n: nat, e: Event, before: seq<Handler>)
    requires 0 < n <= |ops| && ops[n - 1].Register? && ops[n - 1].event == e && InOrder(ops, n - 1, e, before)
    ensures var h := ops[n - 1].handler; InOrder(ops, n, e, if h in before then before else before + [h])
  {
    var h := ops[n - 1].handler;
    forall x | x in before
      ensures Since(ops, n, e, x) == Since(ops, n - 1, e, x)
    {
    }
    var after := if h in before then before else before + [h];
    forall i, j | 0 <= i < j < |after|
      ensures Since(ops, n, e, after[i]).GetOr(0) < Since(ops, n, e, after[j]).GetOr(0)
    {
      assert after[i] == before[i] && before[i] in before;
      if j < |before| {
        assert after[j] == before[j] && before[j] in before;
      }
    }
  }

  lemma UnregisterInOrder(ops: seq<RegistryOp>, n: nat, e: Event, before: seq<Handler>)
    requires 0 < n <= |ops| && ops[n - 1].Unregister? && ops[n - 1].event == e && InOrder(ops, n - 1, e, before)
    ensures InOrder(ops, n, e, Without(before, ops[n - 1].handler))
  {
    var h := ops[n - 1].handler;
    var time := (x: Handler) => Since(ops, n - 1, e, x).GetOr(0);
    assert Increasing(before, time);
    WithoutKeepsOrder(before, h, time);
    var after := Without(before, h);
    forall x | x != h
      ensures Since(ops, n, e, x) == Since(ops, n - 1, e, x)
    {
    }
    forall i, j | 0 <= i < j < |after|
      ensures Since(ops, n, e, after[i]).GetOr(0) < Since(ops, n, e, after[j]).GetOr(0)
    {
      assert after[i] in after && after[j] in after;
      assert time(after[i]) < time(after[j]);
    }
  }

  lemma OtherwiseInOrder(ops: seq<RegistryOp>, n: nat, e: Event, before: seq<Handler>)
    requires 0 < n <= |ops| && ops[n - 1].event != e && InOrder(ops, n - 1, e, before)
    ensures InOrder(ops, n, e, before)
  {
    forall x
      ensures Since(ops, n, e, x) == Since(ops, n - 1, e, x)
    {
    }
  }

  /** After any registrations and removals the handlers of an event are exactly those registered and
      not removed since, in the order of their registrations. */
  lemma {:induction false} HandlersInOrder(ops: seq<RegistryOp>, n: nat, e: Event)
    requires n <= |ops|
    ensures InOrder(ops, n, e, HandlersOf(AfterOps(map[], ops, n), e))
  {
    if n == 0 {
    } else {
      HandlersInOrder(ops, n - 1, e);
      var before, op := HandlersOf(AfterOps(map[], ops, n - 1), e), ops[n - 1];
      if op.event != e {
        OtherwiseInOrder(ops, n, e, before);
      } else if op.Register? {
        RegisterInOrder(ops, n, e, before);
      } else if op.Unregister? {
        UnregisterInOrder(ops, n, e, before);
        assert Without([], op.handler) == [];
      }
    }
  }

  // ---------------------------------------------------------------- what one run performs

  datatype Metric = StartedCount | CompletedCount | RetriedCount | FailedCount | Duration

  datatype Effect =
    | Emit(event: Event)
    | Call(event: Event, handler: Handler)
    | Record(metric: Metric)
    | SpanStart | SpanException | SpanEnd
    | Run

  datatype Processor = Missing | Returns | Throws

  datatype Job = Job(name: string, attemptsMade: nat)

  /** Everything outside the orchestrator that can throw. */
  datatype Env = Env(
    strategyThrows: bool,
    adapterThrows: Metric -> bool,
    recordExceptionThrows: bool,
    endThrows: nat -> bool)

  datatype Decision = Retry | GiveUp | Fails

  function Decide(job: Job, c: Backoff.RetryConfig, env: Env): Decision {
    if env.strategyThrows then Fails
    else if Backoff.ShouldRetry(job.attemptsMade, c) then Retry
    else GiveUp
  }

  function Calls(e: Event, handlers: seq<Handler>): seq<Effect> {
    if handlers == [] then [] else [Call(e, handlers[0])] + Calls(e, handlers[1..])
  }

  /** Emitting an event calls each of its handlers, in registration order. */
  function Emission(r: Registry, e: Event): seq<Effect> {
    [Emit(e)] + Calls(e, HandlersOf(r, e))
  }

  /** The adapter calls of one recording, up to the first that throws. */
  function Recording(first: Metric, withDuration: bool, env: Env): seq<Effect> {
    [Record(first)] + if withDuration && !env.adapterThrows(first) then [Record(Duration)] else []
  }

  function Failure(r: Registry, job: Job, c: Backoff.RetryConfig, env: Env): seq<Effect> {
    match Decide(job, c, env)
    case Fails => []
    case Retry => Emission(r, JobRetrying) + Recording(RetriedCount, false, env)
    case GiveUp => Emission(r, JobFailed) + Recording(FailedCount, true, env)
  }

  /** From the catch block on; `ends` is the number of earlier attempts to end the span. */
  function Caught(r: Registry, job: Job, c: Backoff.RetryConfig, env: Env, ends: nat): seq<Effect> {
    [SpanException] +
    if env.recordExceptionThrows then []
    else
      [SpanEnd] + if env.endThrows(ends) then [] else Failure(r, job, c, env)
  }

  /** What a run performs.  `r` has for each event the handlers that it has when it is emitted. */
  function Processed(r: Registry, job: Job, c: Backoff.RetryConfig, p: Processor, env: Env): seq<Effect> {
    [SpanStart] + (Emission(r, JobStarted) + (Recording(StartedCount, false, env) + AfterStart(r, job, c, p, env)))
  }

  /** The handlers of each event when it is emitted, if the registry is `before` at the start of a run and
      `after` from the end of the processor on. */
  function AtEmission(before: Registry, after: Registry): Registry {
    after[JobStarted := HandlersOf(before, JobStarted)]
  }

  function AfterStart(r: Registry, job: Job, c: Backoff.RetryConfig, p: Processor, env: Env): seq<Effect> {
    match p
    case Missing => Caught(r, job, c, env, 0)
    case Throws => [Run] + Caught(r, job, c, env, 0)
    case Returns => [Run] + Completed(r, job, c, env)
  }

  function Completed(r: Registry, job: Job, c: Backoff.RetryConfig, env: Env): seq<Effect> {
    Emission(r, JobCompleted) + (Recording(CompletedCount, true, env) +
    ([SpanEnd] + if env.endThrows(0) then Caught(r, job, c, env, 1) else []))
  }

  // ---------------------------------------------------------------- what a run looks like from outside

  /** One view of a run: what `view` sees of each effect, in order. */
  function Collect<T>(effects: seq<Effect>, view: Effect -> seq<T>): seq<T> {
    if effects == [] then [] else view(effects[0]) + Collect(effects[1..], view)
  }

  function EventOf(x: Effect): seq<Event> { if x.Emit? then [x.event] else [] }

  function CallOf(x: Effect): seq<(Event, Handler)> { if x.Call? then [(x.event, x.handler)] else [] }

  function EndOf(x: Effect): seq<()> { if x.SpanEnd? then [()] else [] }

  /** The emitted events of a run, in order. */
  function Events(effects: seq<Effect>): seq<Event> { Collect(effects, EventOf) }

  /** The handler calls of a run, in order. */
  function HandlerCalls(effects: seq<Effect>): seq<(Event, Handler)> { Collect(effects, CallOf) }

  function SpanEnds(effects: seq<Effect>): nat { |Collect(effects, EndOf)| }

  /** Every handler of every event once, event by event. */
  function AllHandlers(r: Registry, events: seq<Event>): seq<(Event, Handler)> {
    if events == [] then []
    else Pairs(events[0], HandlersOf(r, events[0])) + AllHandlers(r, events[1..])
  }

  function Pairs(e: Event, handlers: seq<Handler>): (pairs: seq<(Event, Handler)>)
    ensures |pairs| == |handlers|
    ensures forall i :: 0 <= i < |pairs| ==> pairs[i] == (e, handlers[i])
  {
    seq(|handlers|, i requires 0 <= i < |handlers| => (e, handlers[i]))
  }

  lemma {:induction false} CollectConcat<T>(a: seq<Effect>, b: seq<Effect>, view: Effect -> seq<T>)
    ensures Collect(a + b, view) == Collect(a, view) + Collect(b, view)
  {
    if a == [] {
      assert a + b == b;
    } else {
      calc {
        Collect(a + b, view);
        { assert (a + b)[1..] == a[1..] + b; }
        view(a[0]) + Collect(a[1..] + b, view);
        { CollectConcat(a[1..], b, view); }
        view(a[0]) + (Collect(a[1..], view) + Collect(b, view));
        Collect(a, view) + Collect(b, view);
      }
    }
  }

  lemma ViewsOfConcat(a: seq<Effect>, b: seq<Effect>)
    ensures Events(a + b) == Events(a) + Events(b)
    ensures HandlerCalls(a + b) == HandlerCalls(a) + HandlerCalls(b)
    ensures SpanEnds(a + b) == SpanEnds(a) + SpanEnds(b)
  {
    CollectConcat(a, b, EventOf);
    CollectConcat(a, b, CallOf);
    CollectConcat(a, b, EndOf);
  }

  lemma {:induction false} ViewsOfCalls(e: Event, handlers: seq<Handler>)
    ensures Events(Calls(e, handlers)) == [] && SpanEnds(Calls(e, handlers)) == 0
    ensures HandlerCalls(Calls(e, handlers)) == Pairs(e, handlers)
  {
    if handlers == [] {
    } else {
      ViewsOfCalls(e, handlers[1..]);
      assert Calls(e, handlers)[1..] == Calls(e, handlers[1..]);
      assert Pairs(e, handlers) == [(e, handlers[0])] + Pairs(e, handlers[1..]);
    }
  }

  /** The events that may end a job, as the environment has them emitted. */
  function CaughtEvents(job: Job, c: Backoff.RetryConfig, env: Env, ends: nat): seq<Event> {
    if env.recordExceptionThrows || env.endThrows(ends) then []
    else
      match Decide(job, c, env)
      case Fails => []
      case Retry => [JobRetrying]
      case GiveUp => [JobFailed]
  }

  function FinalEvents(job: Job, c: Backoff.RetryConfig, p: Processor, env: Env): seq<Event> {
    if p == Returns then [JobCompleted] + if env.endThrows(0) then CaughtEvents(job, c, env, 1) else []
    else CaughtEvents(job, c, env, 0)
  }

  lemma {:induction false} AllHandlersConcat(r: Registry, a: seq<Event>, b: seq<Event>)
    ensures AllHandlers(r, a + b) == AllHandlers(r, a) + AllHandlers(r, b)
  {
    if a == [] {
      assert a + b == b;
    } else {
      calc {
        AllHandlers(r, a + b);
        { assert (a + b)[1..] == a[1..] + b; }
        Pairs(a[0], HandlersOf(r, a[0])) + AllHandlers(r, a[1..] + b);
        { AllHandlersConcat(r, a[1..], b); }
        Pairs(a[0], HandlersOf(r, a[0])) + (AllHandlers(r, a[1..]) + AllHandlers(r, b));
        AllHandlers(r, a) + AllHandlers(r, b);
      }
    }
  }

  /** `effects` emits `events`, calls every handler of each once and in order, and ends the span
      `ends` times. */
  ghost predicate Performs(r: Registry, effects: seq<Effect>, events: seq<Event>, ends: nat) {
    Events(effects) == events && HandlerCalls(effects) == AllHandlers(r, events) && SpanEnds(effects) == ends
  }

  lemma PerformsConcat(r: Registry, a: seq<Effect>, b: seq<Effect>, ea: seq<Event>, eb: seq<Event>, na: nat, nb: nat)
    requires Performs(r, a, ea, na) && Performs(r, b, eb, nb)
    ensures Performs(r, a + b, ea + eb, na + nb)
  {
    ViewsOfConcat(a, b);
    AllHandlersConcat(r, ea, eb);
  }

  lemma PerformsNothing(r: Registry, x: Effect)
    requires !x.Emit? && !x.Call?
    ensures Performs(r, [], [], 0)
    ensures Performs(r, [x], [], if x.SpanEnd? then 1 else 0)
  {
    CollectOne(x, EventOf);
    CollectOne(x, CallOf);
    CollectOne(x, EndOf);
  }

  lemma CollectOne<T>(x: Effect, view: Effect -> seq<T>)
    ensures Collect([x], view) == view(x)
  {
    assert [x][1..] == [];
    assert view(x) + [] == view(x);
  }

  lemma PerformsEmission(r: Registry, e: Event)
    ensures Performs(r, Emission(r, e), [e], 0)
  {
    var calls := Calls(e, HandlersOf(r, e));
    ViewsOfCalls(e, HandlersOf(r, e));
    ViewsOfConcat([Emit(e)], calls);
    CollectOne(Emit(e), EventOf);
    CollectOne(Emit(e), CallOf);
    CollectOne(Emit(e), EndOf);
    assert [e][1..] == [];
    assert AllHandlers(r, [e]) == Pairs(e, HandlersOf(r, e)) + [];
  }

  lemma PerformsRecording(r: Registry, m: Metric, withDuration: bool, env: Env)
    ensures Performs(r, Recording(m, withDuration, env), [], 0)
  {
    PerformsNothing(r, Record(m));
    PerformsNothing(r, Record(Duration));
    PerformsConcat(r, [Record(m)], [Record(Duration)], [], [], 0, 0);
    assert [Record(m)] + [] == [Record(m)];
  }

  /** An emission and a recording in front of more effects. */
  lemma PerformsAnnounced(r: Registry, e: Event, m: Metric, withDuration: bool, env: Env,
                          tail: seq<Effect>, events: seq<Event>, ends: nat)
    requires Performs(r, tail, events, ends)
    ensures Performs(r, Emission(r, e) + (Recording(m, withDuration, env) + tail), [e] + events, ends)
  {
    PerformsRecording(r, m, withDuration, env);
    PerformsConcat(r, Recording(m, withDuration, env), tail, [], events, 0, ends);
    PerformsEmission(r, e);
    PerformsConcat(r, Emission(r, e), Recording(m, withDuration, env) + tail, [e], [] + events, 0, ends);
    assert [] + events == events;
  }

  lemma PerformsFailure(r: Registry, job: Job, c: Backoff.RetryConfig, env: Env)
    ensures Performs(r, Failure(r, job, c, env),
                     match Decide(job, c, env)
                     case Fails => []
                     case Retry => [JobRetrying]
                     case GiveUp => [JobFailed], 0)
  {
    match Decide(job, c, env)
    case Fails => PerformsNothing(r, Run);
    case Retry =>
      PerformsEmission(r, JobRetrying);
      PerformsRecording(r, RetriedCount, false, env);
      PerformsConcat(r, Emission(r, JobRetrying), Recording(RetriedCount, false, env), [JobRetrying], [], 0, 0);
      assert [JobRetrying] + [] == [JobRetrying];
    case GiveUp =>
      PerformsEmission(r, JobFailed);
      PerformsRecording(r, FailedCount, true, env);
      PerformsConcat(r, Emission(r, JobFailed), Recording(FailedCount, true, env), [JobFailed], [], 0, 0);
      assert [JobFailed] + [] == [JobFailed];
  }

  lemma PerformsCaught(r: Registry, job: Job, c: Backoff.RetryConfig, env: Env, ends: nat)
    ensures Performs(r, Caught(r, job, c, env, ends), CaughtEvents(job, c, env, ends),
                     if env.recordExceptionThrows then 0 else 1)
  {
    var events := CaughtEvents(job, c, env, ends);
    PerformsNothing(r, SpanException);
    PerformsNothing(r, SpanEnd);
    if env.recordExceptionThrows {
      assert [SpanException] + [] == [SpanException];
    } else {
      var rest := if env.endThrows(ends) then [] else Failure(r, job, c, env);
      PerformsFailure(r, job, c, env);
      PerformsConcat(r, [SpanEnd], rest, [], events, 1, 0);
      PerformsConcat(r, [SpanException], [SpanEnd] + rest, [], [] + events, 0, 1);
      assert [] + ([] + events) == events;
    }
  }

  lemma PerformsCompleted(r: Registry, job: Job, c: Backoff.RetryConfig, env: Env)
    ensures Performs(r, Completed(r, job, c, env), FinalEvents(job, c, Returns, env),
                     if env.endThrows(0) && !env.recordExceptionThrows then 2 else 1)
  {
    var late := if env.endThrows(0) then Caught(r, job, c, env, 1) else [];
    var lateEvents := if env.endThrows(0) then CaughtEvents(job, c, env, 1) else [];
    var lateEnds := if env.endThrows(0) && !env.recordExceptionThrows then 1 else 0;
    PerformsNothing(r, SpanEnd);
    PerformsCaught(r, job, c, env, 1);
    PerformsConcat(r, [SpanEnd], late, [], lateEvents, 1, lateEnds);
    PerformsAnnounced(r, JobCompleted, CompletedCount, true, env, [SpanEnd] + late, [] + lateEvents, 1 + lateEnds);
    assert [] + lateEvents == lateEvents;
  }

  /** Only the registry as it is after the processor matters from there on. */
  lemma LateRegistryMatters(before: Registry, after: Registry, job: Job, c: Backoff.RetryConfig, p: Processor, env: Env)
    ensures AfterStart(AtEmission(before, after), job, c, p, env) == AfterStart(after, job, c, p, env)
  {
    var r := AtEmission(before, after);
    assert Emission(r, JobCompleted) == Emission(after, JobCompleted);
    assert Failure(r, job, c, env) == Failure(after, job, c, env);
  }

  /** How often a run ends its span. */
  function Ends(p: Processor, env: Env): nat {
    if p == Returns then (if env.endThrows(0) && !env.recordExceptionThrows then 2 else 1)
    else if env.recordExceptionThrows then 0 else 1
  }

  /** Whatever throws, a run emits STARTED first and then its final events, and calls every handler of
      each emitted event once, in registration order.  No event is emitted twice, so that `r` can have for
      each the handlers it has when it is emitted, however these change meanwhile. */
  lemma RunPerforms(r: Registry, job: Job, c: Backoff.RetryConfig, p: Processor, env: Env)
    ensures Performs(r, Processed(r, job, c, p, env), [JobStarted] + FinalEvents(job, c, p, env), Ends(p, env))
    ensures NoDup([JobStarted] + FinalEvents(job, c, p, env))
  {
    EmittedOnce(job, c, p, env);
    AfterStartPerforms(r, job, c, p, env);
    StartPerforms(r, env, AfterStart(r, job, c, p, env), FinalEvents(job, c, p, env), Ends(p, env));
  }

  lemma EmittedOnce(job: Job, c: Backoff.RetryConfig, p: Processor, env: Env)
    ensures NoDup([JobStarted] + FinalEvents(job, c, p, env))
  {
    assert |FinalEvents(job, c, p, env)| <= 2;
  }

  lemma AfterStartPerforms(r: Registry, job: Job, c: Backoff.RetryConfig, p: Processor, env: Env)
    ensures Performs(r, AfterStart(r, job, c, p, env), FinalEvents(job, c, p, env), Ends(p, env))
  {
    var final, ends := FinalEvents(job, c, p, env), Ends(p, env);
    PerformsNothing(r, Run);
    PerformsCaught(r, job, c, env, 0);
    PerformsCompleted(r, job, c, env);
    if p == Throws {
      PerformsConcat(r, [Run], Caught(r, job, c, env, 0), [], final, 0, ends);
    } else if p == Returns {
      PerformsConcat(r, [Run], Completed(r, job, c, env), [], final, 0, ends);
    }
    assert [] + final == final;
  }

  lemma StartPerforms(r: Registry, env: Env, tail: seq<Effect>, final: seq<Event>, ends: nat)
    requires Performs(r, tail, final, ends)
    ensures Performs(r, [SpanStart] + (Emission(r, JobStarted) + (Recording(StartedCount, false, env) + tail)),
                     [JobStarted] + final, ends)
  {
    var rest := Emission(r, JobStarted) + (Recording(StartedCount, false, env) + tail);
    PerformsAnnounced(r, JobStarted, StartedCount, false, env, tail, final, ends);
    PerformsNothing(r, SpanStart);
    PerformsConcat(r, [SpanStart], rest, [], [JobStarted] + final, 0, ends);
    assert [] + ([JobStarted] + final) == [JobStarted] + final;
  }

  /** A span whose calls return. */
  ghost predicate QuietSpan(env: Env) { !env.recordExceptionThrows && forall i :: !env.endThrows(i) }

  /** With a span that does not throw and a retry strategy that decides, every run has exactly one
      final event, and ends its span exactly once: COMPLETED when the processor returns, RETRYING when
      it does not and attempts remain, FAILED otherwise. */
  lemma ExactlyOneFinalEvent(job: Job, c: Backoff.RetryConfig, p: Processor, env: Env)
    requires QuietSpan(env) && !env.strategyThrows
    ensures FinalEvents(job, c, p, env) ==
            [if p == Returns then JobCompleted
             else if Backoff.CanRetry(job.attemptsMade, c) then JobRetrying else JobFailed]
    ensures Ends(p, env) == 1
  {
  }

  /** Exactly when a run has one final event, for any environment. */
  lemma OneFinalEventExactly(job: Job, c: Backoff.RetryConfig, p: Processor, env: Env)
    ensures |FinalEvents(job, c, p, env)| == 1 <==>
            if p == Returns
            then !env.endThrows(0) || env.recordExceptionThrows || env.endThrows(1) || env.strategyThrows
            else !env.recordExceptionThrows && !env.endThrows(0) && !env.strategyThrows
  {
  }

  lemma Associate(t: seq<Effect>, a: seq<Effect>, b: seq<Effect>)
    ensures t + a + b == t + (a + b)
  {
  }

  /** Steps appended one after the other, read as one run. */
  lemma Reassociate(t: seq<Effect>, a: seq<Effect>, b: seq<Effect>, c: seq<Effect>, d: seq<Effect>)
    ensures t + a + b + c + d == t + (a + (b + (c + d)))
  {
  }

  // ---------------------------------------------------------------- a run in full

  /** An event emitted, its handlers called, and its metrics recorded: the ends of a job also have their
      duration observed, unless the adapter has thrown before that. */
  function Announced(r: Registry, e: Event, env: Env): seq<Effect> {
    var handlers := HandlersOf(r, e);
    [Emit(e)] + seq(|handlers|, i requires 0 <= i < |handlers| => Call(e, handlers[i])) + Counting(e, env)
  }

  function Counting(e: Event, env: Env): seq<Effect> {
    match e
    case JobStarted => [Record(StartedCount)]
    case JobRetrying => [Record(RetriedCount)]
    case JobCompleted => [Record(CompletedCount)] + if env.adapterThrows(CompletedCount) then [] else [Record(Duration)]
    case JobFailed => [Record(FailedCount)] + if env.adapterThrows(FailedCount) then [] else [Record(Duration)]
    case _ => []
  }

  /** After an error: the span records it and ends, and then the job is retried while attempts remain, up to the
      first of these calls that throws. */
  function Rescue(r: Registry, job: Job, c: Backoff.RetryConfig, env: Env, ends: nat): seq<Effect> {
    if env.recordExceptionThrows then [SpanException]
    else if env.endThrows(ends) || env.strategyThrows then [SpanException, SpanEnd]
    else
      [SpanException, SpanEnd] +
      Announced(r, if job.attemptsMade < c.maxAttempts.GetOr(3) then JobRetrying else JobFailed, env)
  }

  lemma {:induction false} CallsAre(e: Event, handlers: seq<Handler>)
    ensures Calls(e, handlers) == seq(|handlers|, i requires 0 <= i < |handlers| => Call(e, handlers[i]))
  {
    if handlers == [] {
    } else {
      CallsAre(e, handlers[1..]);
    }
  }

  lemma AnnouncedIs(r: Registry, e: Event, first: Metric, withDuration: bool, env: Env)
    requires Counting(e, env) == Recording(first, withDuration, env)
    ensures Emission(r, e) + Recording(first, withDuration, env) == Announced(r, e, env)
  {
    CallsAre(e, HandlersOf(r, e));
  }

  lemma RescueIs(r: Registry, job: Job, c: Backoff.RetryConfig, env: Env, ends: nat)
    ensures Caught(r, job, c, env, ends) == Rescue(r, job, c, env, ends)
  {
    if Backoff.ShouldRetry(job.attemptsMade, c) {
      AnnouncedIs(r, JobRetrying, RetriedCount, false, env);
    } else {
      AnnouncedIs(r, JobFailed, FailedCount, true, env);
    }
  }

  /** What follows STARTED: the processor, if there is one; when it returns, COMPLETED and the end of the span;
      after an error, the rescue. */
  function Outcome(r: Registry, job: Job, c: Backoff.RetryConfig, p: Processor, env: Env): seq<Effect> {
    if p != Returns then Rescue(r, job, c, env, 0)
    else Announced(r, JobCompleted, env) + [SpanEnd] + if env.endThrows(0) then Rescue(r, job, c, env, 1) else []
  }

  lemma CompletedInFull(r: Registry, job: Job, c: Backoff.RetryConfig, env: Env)
    ensures Completed(r, job, c, env) == Outcome(r, job, c, Returns, env)
  {
    var late := if env.endThrows(0) then Rescue(r, job, c, env, 1) else [];
    RescueIs(r, job, c, env, 1);
    AnnouncedIs(r, JobCompleted, CompletedCount, true, env);
    Associate(Emission(r, JobCompleted), Recording(CompletedCount, true, env), [SpanEnd] + late);
    Associate(Announced(r, JobCompleted, env), [SpanEnd], late);
  }

  lemma AfterStartInFull(r: Registry, job: Job, c: Backoff.RetryConfig, p: Processor, env: Env)
    ensures AfterStart(r, job, c, p, env) == (if p == Missing then [] else [Run]) + Outcome(r, job, c, p, env)
  {
    RescueIs(r, job, c, env, 0);
    CompletedInFull(r, job, c, env);
  }

  /** A run in full: the span starts, STARTED is announced, the processor runs, if there is one, and the rest
      follows. */
  lemma RunInFull(r: Registry, job: Job, c: Backoff.RetryConfig, p: Processor, env: Env)
    ensures Processed(r, job, c, p, env) ==
            [SpanStart] + Announced(r, JobStarted, env) + (if p == Missing then [] else [Run]) +
            Outcome(r, job, c, p, env)
  {
    AnnouncedIs(r, JobStarted, StartedCount, false, env);
    AfterStartInFull(r, job, c, p, env);
    Reassociate([SpanStart], Emission(r, JobStarted), Recording(StartedCount, false, env),
                if p == Missing then [] else [Run], Outcome(r, job, c, p, env));
    Associate([SpanStart], Emission(r, JobStarted), Recording(StartedCount, false, env));
  }

  predicate Concerns(x: Effect, e: Event) { (x.Emit? || x.Call?) && x.event == e }

  /** Neither the processor nor STARTED. */
  predicate LateOnly(effects: seq<Effect>) {
    forall x :: x in effects ==> x != Run && !Concerns(x, JobStarted)
  }

  lemma AnnouncedConcerns(r: Registry, e: Event, env: Env)
    ensures forall x :: x in Announced(r, e, env) ==> x.Record? || Concerns(x, e)
  {
    var handlers := HandlersOf(r, e);
    var calls := seq(|handlers|, i requires 0 <= i < |handlers| => Call(e, handlers[i]));
    forall x | x in Announced(r, e, env)
      ensures x.Record? || Concerns(x, e)
    {
      assert x == Emit(e) || x in calls || x in Counting(e, env);
    }
  }

  lemma OutcomeIsLate(r: Registry, job: Job, c: Backoff.RetryConfig, p: Processor, env: Env)
    ensures LateOnly(Outcome(r, job, c, p, env))
  {
    AnnouncedConcerns(r, JobCompleted, env);
    AnnouncedConcerns(r, JobRetrying, env);
    AnnouncedConcerns(r, JobFailed, env);
    assert LateOnly(Rescue(r, job, c, env, 0)) && LateOnly(Rescue(r, job, c, env, 1));
  }

  /** Without a processor none runs; otherwise it runs once, behind STARTED with all its handler calls and before
      every other event and its handlers. */
  lemma ProcessorRunsOnce(r: Registry, job: Job, c: Backoff.RetryConfig, p: Processor, env: Env) returns (i: nat)
    ensures var effects := Processed(r, job, c, p, env);
            && (p == Missing ==> Run !in effects)
            && (p != Missing ==>
                  && i < |effects| && effects[i] == Run
                  && forall j :: 0 <= j < |effects| && j != i ==>
                       && effects[j] != Run
                       && (Concerns(effects[j], JobStarted) ==> j < i)
                       && (effects[j].Emit? || effects[j].Call? ==> Concerns(effects[j], JobStarted) || i < j))
  {
    var before := [SpanStart] + Announced(r, JobStarted, env);
    var after := Outcome(r, job, c, p, env);
    RunInFull(r, job, c, p, env);
    AnnouncedConcerns(r, JobStarted, env);
    OutcomeIsLate(r, job, c, p, env);
    i := |before|;
    RunBetween(before, if p == Missing then [] else [Run], after);
  }

  lemma RunBetween(before: seq<Effect>, run: seq<Effect>, after: seq<Effect>)
    requires LateOnly(after) && (run == [] || run == [Run])
    requires forall x :: x in before ==> x != Run && (x.Emit? || x.Call? ==> Concerns(x, JobStarted))
    ensures var effects, i := before + run + after, |before|;
            && (run == [] ==> Run !in effects)
            && (run == [Run] ==>
                  && effects[i] == Run
                  && forall j :: 0 <= j < |effects| && j != i ==>
                       && effects[j] != Run
                       && (Concerns(effects[j], JobStarted) ==> j < i)
                       && (effects[j].Emit? || effects[j].Call? ==> Concerns(effects[j], JobStarted) || i < j))
  {
    var effects, i := before + run + after, |before|;
    if run == [Run] {
      forall j | 0 <= j < |effects| && j != i
        ensures effects[j] in if j < i then before else after
      {
        assert effects[j] == if j < i then before[j] else after[j - i - 1];
      }
    }
  }

  // ---------------------------------------------------------------- many jobs at once

  /** Runs of several jobs interleave: each emits STARTED when it begins and its final events later. */
  datatype Step = Begin(run: nat) | Finish(run: nat, job: Job, p: Processor, env: Env)

  datatype Tally = Tally(inFlight: set<nat>, started: nat, completed: nat, retried: nat, failed: nat)

  function CountOf(events: seq<Event>, e: Event): nat {
    if events == [] then 0 else (if events[0] == e then 1 else 0) + CountOf(events[1..], e)
  }

  predicate CanStep(t: Tally, s: Step) {
    match s
    case Begin(run) => run !in t.inFlight
    case Finish(run, _, _, _) => run in t.inFlight
  }

  function TallyStep(c: Backoff.RetryConfig, t: Tally, s: Step): Tally {
    match s
    case Begin(run) => t.(inFlight := t.inFlight + {run}, started := t.started + 1)
    case Finish(run, job, p, env) =>
      var final := FinalEvents(job, c, p, env);
      Tally(t.inFlight - {run}, t.started,
            t.completed + CountOf(final, JobCompleted),
            t.retried + CountOf(final, JobRetrying),
            t.failed + CountOf(final, JobFailed))
  }

  ghost predicate Steps(c: Backoff.RetryConfig, steps: seq<Step>, tallies: seq<Tally>) {
    && |tallies| == |steps| + 1 && tallies[0] == Tally({}, 0, 0, 0, 0)
    && forall i :: 0 <= i < |steps| ==>
         CanStep(tallies[i], steps[i]) && tallies[i + 1] == TallyStep(c, tallies[i], steps[i])
  }

  lemma CountOne(e: Event, e': Event)
    ensures CountOf([e], e') == if e == e' then 1 else 0
  {
    assert [e][1..] == [];
  }

  /** Over any interleaving of well-behaved runs, started = completed + retried + failed + in flight. */
  lemma {:induction false} StartedAreAccountedFor(c: Backoff.RetryConfig, steps: seq<Step>, tallies: seq<Tally>, k: nat)
    requires Steps(c, steps, tallies) && k <= |steps|
    requires forall i :: 0 <= i < |steps| && steps[i].Finish? ==>
               QuietSpan(steps[i].env) && !steps[i].env.strategyThrows
    ensures tallies[k].started ==
            tallies[k].completed + tallies[k].retried + tallies[k].failed + |tallies[k].inFlight|
  {
    if k == 0 {
    } else {
      StartedAreAccountedFor(c, steps, tallies, k - 1);
      var t, s := tallies[k - 1], steps[k - 1];
      if s.Finish? {
        ExactlyOneFinalEvent(s.job, c, s.p, s.env);
        var e := FinalEvents(s.job, c, s.p, s.env)[0];
        CountOne(e, JobCompleted);
        CountOne(e, JobRetrying);
        CountOne(e, JobFailed);
        assert t.inFlight == (t.inFlight - {s.run}) + {s.run};
      }
    }
  }

  // ---------------------------------------------------------------- the objects

  class EventHandlerRegistry {
    var handlers: Registry

    constructor ()
      ensures handlers == map[]
    {
      handlers := map[];
    }

    method Register(event: Event, handler: Handler)
      modifies this
      ensures handlers == Apply(old(handlers), RegistryOp.Register(event, handler))
    {
      var current := GetHandlers(event);
      if handler !in current {
        handlers := handlers[event := current + [handler]];
      }
    }

    method Unregister(event: Event, handler: Handler) returns (removed: bool)
      modifies this
      ensures handlers == Apply(old(handlers), RegistryOp.Unregister(event, handler))
      ensures removed <==> handler in HandlersOf(old(handlers), event)
    {
      if event !in handlers {
        return false;
      }
      removed := handler in handlers[event];
      handlers := handlers[event := Without(handlers[event], handler)];
    }

    method GetHandlers(event: Event) returns (list: seq<Handler>)
      ensures list == HandlersOf(handlers, event)
    {
      if event in handlers {
        return handlers[event];
      }
      return [];
    }

    method ClearEvent(event: Event)
      modifies this
      ensures handlers == Apply(old(handlers), RegistryOp.Clear(event))
    {
      handlers := handlers - {event};
    }

    /** The calls that other code makes, one after the other. */
    method Change(ops: seq<RegistryOp>)
      modifies this
      ensures handlers == AfterOps(old(handlers), ops, |ops|)
    {
      for k := 0 to |ops|
        invariant handlers == AfterOps(old(handlers), ops, k)
      {
        match ops[k]
        case Register(event, handler) => Register(event, handler);
        case Unregister(event, handler) => var _ := Unregister(event, handler);
        case Clear(event) => ClearEvent(event);
      }
    }
  }

  lemma {:induction false} CallsGrow(e: Event, handlers: seq<Handler>, k: nat)
    requires k < |handlers|
    ensures Calls(e, handlers[..k + 1]) == Calls(e, handlers[..k]) + [Call(e, handlers[k])]
  {
    if k > 0 {
      CallsGrow(e, handlers[1..], k - 1);
      assert handlers[..k + 1][1..] == handlers[1..][..k];
      assert handlers[..k][1..] == handlers[1..][..k - 1];
    } else {
      assert handlers[..1] == [handlers[0]] && [handlers[0]][1..] == [];
    }
  }

  /** The orchestrator with its event coordinator; `trace` is what they have performed so far. */
  class JobProcessingOrchestrator {
    const registry: EventHandlerRegistry
    const retryConfig: Backoff.RetryConfig
    var processors: set<string>
    var trace: seq<Effect>

    constructor (registry: EventHandlerRegistry, retryConfig: Backoff.RetryConfig)
      ensures this.registry == registry && this.retryConfig == retryConfig && processors == {} && trace == []
    {
      this.registry, this.retryConfig := registry, retryConfig;
      processors, trace := {}, [];
    }

    method RegisterProcessor(jobName: string) returns (ok: bool)
      modifies this`processors
      ensures ok <==> jobName !in old(processors)
      ensures processors == old(processors) + {jobName}
    {
      if jobName in processors {
        return false;
      }
      processors := processors + {jobName};
      return true;
    }

    /** Call the handlers one after the other; a handler that throws is logged and passed over. */
    method EmitEvent(event: Event, handlerThrows: Handler -> bool) returns (logged: nat)
      modifies this`trace
      ensures trace == old(trace) + Emission(registry.handlers, event)
    {
      trace := trace + [Emit(event)];
      logged := 0;
      var handlers := registry.GetHandlers(event);
      ghost var before := trace;
      assert handlers[..0] == [];
      for k := 0 to |handlers|
        invariant trace == before + Calls(event, handlers[..k])
      {
        trace := trace + [Call(event, handlers[k])];
        CallsGrow(event, handlers, k);
        if handlerThrows(handlers[k]) {
          logged := logged + 1;
        }
      }
      assert handlers[..|handlers|] == handlers;
    }

    /** The collector's calls to the metrics adapter; the first that throws ends the recording. */
    method RecordMetric(first: Metric, withDuration: bool, env: Env)
      modifies this`trace
      ensures trace == old(trace) + Recording(first, withDuration, env)
    {
      trace := trace + [Record(first)];
      if env.adapterThrows(first) {
        return;
      }
      if withDuration {
        trace := trace + [Record(Duration)];
      }
    }

    method HandleJobFailure(job: Job, env: Env, handlerThrows: Handler -> bool)
      modifies this`trace
      ensures trace == old(trace) + Failure(registry.handlers, job, retryConfig, env)
    {
      if env.strategyThrows {
        return;
      }
      if Backoff.ShouldRetry(job.attemptsMade, retryConfig) {
        var _ := EmitEvent(JobRetrying, handlerThrows);
        RecordMetric(RetriedCount, false, env);
      } else {
        var _ := EmitEvent(JobFailed, handlerThrows);
        RecordMetric(FailedCount, true, env);
      }
    }

    /** The catch block of `processJob`; `ends` is the number of earlier attempts to end the span. */
    method CatchFailure(job: Job, env: Env, ends: nat, handlerThrows: Handler -> bool)
      modifies this`trace
      ensures trace == old(trace) + Caught(registry.handlers, job, retryConfig, env, ends)
    {
      trace := trace + [SpanException];
      if env.recordExceptionThrows {
        return;
      }
      trace := trace + [SpanEnd];
      if env.endThrows(ends) {
        return;
      }
      HandleJobFailure(job, env, handlerThrows);
    }

    /** The steps before the processor runs. */
    method StartJob(env: Env, handlerThrows: Handler -> bool)
      modifies this`trace
      ensures trace == old(trace) + [SpanStart] + Emission(registry.handlers, JobStarted)
                       + Recording(StartedCount, false, env)
    {
      trace := trace + [SpanStart];
      var _ := EmitEvent(JobStarted, handlerThrows);
      RecordMetric(StartedCount, false, env);
    }

    /** The steps after the processor has returned; `ended` when the span ends without throwing. */
    method CompleteJob(job: Job, env: Env, handlerThrows: Handler -> bool) returns (ended: bool)
      modifies this`trace
      ensures trace == old(trace) + Completed(registry.handlers, job, retryConfig, env)
      ensures ended <==> !env.endThrows(0)
    {
      ghost var t0 := trace;
      var _ := EmitEvent(JobCompleted, handlerThrows);
      RecordMetric(CompletedCount, true, env);
      trace := trace + [SpanEnd];
      ended := !env.endThrows(0);
      if env.endThrows(0) {
        CatchFailure(job, env, 1, handlerThrows);
      }
      ghost var late := if env.endThrows(0) then Caught(registry.handlers, job, retryConfig, env, 1) else [];
      Reassociate(t0, Emission(registry.handlers, JobCompleted), Recording(CompletedCount, true, env), [SpanEnd], late);
    }

    /** `returnsNormally` tells whether the job's processor, if there is one, returns; `meanwhile` is what other
        code does to the registry after STARTED and before the next event. */
    method ProcessJob(job: Job, returnsNormally: bool, meanwhile: seq<RegistryOp>, env: Env,
                      handlerThrows: Handler -> bool)
      returns (ok: bool)
      modifies this`trace, registry
      ensures registry.handlers == AfterOps(old(registry.handlers), meanwhile, |meanwhile|)
      ensures var p := if job.name !in processors then Missing else if returnsNormally then Returns else Throws;
              var r := AtEmission(old(registry.handlers), registry.handlers);
              && trace == old(trace) + Processed(r, job, retryConfig, p, env)
              && (ok <==> p == Returns && !env.endThrows(0))
    {
      ghost var t0, before := trace, registry.handlers;
      StartJob(env, handlerThrows);
      registry.Change(meanwhile);
      ok := RunJob(job, returnsNormally, env, handlerThrows);
      ghost var p := if job.name !in processors then Missing else if returnsNormally then Returns else Throws;
      LateRegistryMatters(before, registry.handlers, job, retryConfig, p, env);
      Reassociate(t0, [SpanStart], Emission(before, JobStarted), Recording(StartedCount, false, env),
                  AfterStart(registry.handlers, job, retryConfig, p, env));
    }

    /** The processor and everything after it. */
    method RunJob(job: Job, returnsNormally: bool, env: Env, handlerThrows: Handler -> bool) returns (ok: bool)
      modifies this`trace
      ensures var p := if job.name !in processors then Missing else if returnsNormally then Returns else Throws;
              && trace == old(trace) + AfterStart(registry.handlers, job, retryConfig, p, env)
              && (ok <==> p == Returns && !env.endThrows(0))
    {
      if job.name !in processors {
        CatchFailure(job, env, 0, handlerThrows);
        return false;
      }
      if returnsNormally {
        ok := RunToCompletion(job, env, handlerThrows);
      } else {
        RunToFailure(job, env, handlerThrows);
        return false;
      }
    }

    method RunToCompletion(job: Job, env: Env, handlerThrows: Handler -> bool) returns (ended: bool)
      modifies this`trace
      ensures trace == old(trace) + ([Run] + Completed(registry.handlers, job, retryConfig, env))
      ensures ended <==> !env.endThrows(0)
    {
      ghost var t0 := trace;
      trace := trace + [Run];
      ended := CompleteJob(job, env, handlerThrows);
      Associate(t0, [Run], Completed(registry.handlers, job, retryConfig, env));
    }

    method RunToFailure(job: Job, env: Env, handlerThrows: Handler -> bool)
      modifies this`trace
      ensures trace == old(trace) + ([Run] + Caught(registry.handlers, job, retryConfig, env, 0))
    {
      ghost var t0 := trace;
      trace := trace + [Run];
      CatchFailure(job, env, 0, handlerThrows);
      Associate(t0, [Run], Caught(registry.handlers, job, retryConfig, env, 0));
    }
  }
}
