/** Webhooks: the registry of endpoints, the broadcast of an event to them, and the delivery loop with
    its growing pauses. */
module Webhooks {
  import opened Prelude
  import KeyPattern

  datatype EventType =
    | JobCompleted | JobFailed | JobStarted | JobProgress | JobRetrying | WorkflowCompleted | WorkflowFailed

  datatype Strategy = BestEffort | Reliable | Guaranteed

  datatype Webhook = Webhook(
    url: string,
    events: seq<EventType>,
    strategy: Option<Strategy>,
    maxRetries: Option<int>,
    active: bool)

  /** The fields of a webhook that an update sets. */
  datatype Patch = Patch(
    url: Option<string>,
    events: Option<seq<EventType>>,
    strategy: Option<Strategy>,
    maxRetries: Option<int>,
    active: Option<bool>)

  function Merge(w: Webhook, p: Patch): Webhook {
    Webhook(
      p.url.GetOr(w.url),
      p.events.GetOr(w.events),
      if p.strategy.Some? then p.strategy else w.strategy,
      if p.maxRetries.Some? then p.maxRetries else w.maxRetries,
      p.active.GetOr(w.active))
  }

  // ---------------------------------------------------------------- one delivery

  /** What the endpoint does with one request. */
  datatype Reply = Responds(status: int) | Throws

  predicate Accepted(r: Reply) { r.Responds? && 200 <= r.status < 300 }

  datatype Attempt = Attempt(
    eventId: string,
    webhookUrl: string,
    status: Option<int>,
    attemptNumber: nat,
    timestamp: int,
    nextRetryAt: Option<int>)

  /** The environment of one delivery: reply and latency of request i = 1, 2, ..., and the time that
      recording it takes. */
  datatype Endpoint = Endpoint(reply: nat -> Reply, latency: nat -> nat, recording: nat -> nat)

  /** The time at which attempt `i` starts when the delivery starts at `t0`. */
  function StartOf(t0: int, ep: Endpoint, i: nat): int
    requires i >= 1
  {
    if i == 1 then t0 else StartOf(t0, ep, i - 1) + ep.latency(i - 1) + ep.recording(i - 1) + 5000 * (i - 1)
  }

  /** What is recorded about attempt `i`, begun at `start`. */
  function AttemptFrom(w: Webhook, eventId: string, ep: Endpoint, start: int, i: nat): Attempt {
    var timestamp := start + ep.latency(i);
    match ep.reply(i)
    case Responds(status) => Attempt(eventId, w.url, Some(status), i, timestamp, None)
    case Throws =>
      Attempt(eventId, w.url, None, i, timestamp,
              if w.strategy.GetOr(Reliable) == BestEffort then None else Some(timestamp + 5000 * i))
  }

  function AttemptAt(w: Webhook, eventId: string, ep: Endpoint, t0: int, i: nat): Attempt
    requires i >= 1
  {
    AttemptFrom(w, eventId, ep, StartOf(t0, ep, i), i)
  }

  /** The records of attempts 1..n. */
  function Attempts(w: Webhook, eventId: string, ep: Endpoint, t0: int, n: nat): (attempts: seq<Attempt>)
    ensures |attempts| == n
  {
    if n == 0 then [] else Attempts(w, eventId, ep, t0, n - 1) + [AttemptAt(w, eventId, ep, t0, n)]
  }

  /** Record i is that of attempt i: it tells the event, the url, the status if the endpoint responded, the time
      of the reply, and the next retry exactly when the request threw and another one may follow. */
  lemma {:induction false} AttemptsAreNumbered(w: Webhook, eventId: string, ep: Endpoint, t0: int, n: nat, i: nat)
    requires 1 <= i <= n
    ensures Attempts(w, eventId, ep, t0, n)[i - 1] == AttemptAt(w, eventId, ep, t0, i)
    ensures var a := Attempts(w, eventId, ep, t0, n)[i - 1];
            && a.attemptNumber == i && a.eventId == eventId && a.webhookUrl == w.url
            && a.timestamp == StartOf(t0, ep, i) + ep.latency(i)
            && (match ep.reply(i)
                case Responds(status) => a.status == Some(status)
                case Throws => a.status == None)
            && (a.nextRetryAt.Some? <==> ep.reply(i).Throws? && w.strategy.GetOr(Reliable) != BestEffort)
  {
    if i == n {
    } else {
      AttemptsAreNumbered(w, eventId, ep, t0, n - 1, i);
    }
  }

  /** A delivery makes `k` attempts: none when no attempt is allowed, one with best effort, otherwise
      up to the first accepted one or the allowed number. */
  ghost predicate AttemptsMade(w: Webhook, ep: Endpoint, k: nat) {
    var n := w.maxRetries.GetOr(3);
    if n < 1 then k == 0
    else if w.strategy.GetOr(Reliable) == BestEffort then k == 1
    else
      && 1 <= k <= n
      && (forall i :: 1 <= i < k ==> !Accepted(ep.reply(i)))
      && (k == n || Accepted(ep.reply(k)))
  }

  /** At the head of the delivery loop: the attempts before attempt `i` have not ended the delivery,
      and, unless they were the last ones, attempt `i` starts now. */
  ghost predicate Underway(w: Webhook, ep: Endpoint, t0: int, i: nat, now: int, pause: int) {
    var n := w.maxRetries.GetOr(3);
    && 1 <= i && (i == 1 || i <= n + 1)
    && (i > 1 ==> w.strategy.GetOr(Reliable) != BestEffort)
    && (forall j :: 1 <= j < i ==> !Accepted(ep.reply(j)))
    && (i <= n ==> now == StartOf(t0, ep, i))
    && pause == Pauses(if i <= n then i else i - 1)
  }

  lemma DeliveryStarts(w: Webhook, ep: Endpoint, t0: int)
    ensures Underway(w, ep, t0, 1, t0, 0)
  {
  }

  lemma DeliveryStops(w: Webhook, ep: Endpoint, t0: int, i: nat, now: int, pause: int)
    requires i <= w.maxRetries.GetOr(3) && Underway(w, ep, t0, i, now, pause)
    requires Accepted(ep.reply(i)) || w.strategy.GetOr(Reliable) == BestEffort
    ensures AttemptsMade(w, ep, i) && now == StartOf(t0, ep, i) && pause == Pauses(i)
  {
  }

  /** How long to sleep before the given attempt: not at all when there is none. */
  function PauseBefore(attemptNumber: nat, maxRetries: int): nat
    requires attemptNumber >= 1
  {
    if attemptNumber > maxRetries then 0 else 5000 * (attemptNumber - 1)
  }

  /** One round of the loop: attempt `i` is made and recorded, and the pause before the next one kept. */
  lemma DeliveryGoesOn(w: Webhook, ep: Endpoint, t0: int, i: nat, now: int, pause: int, now': int, pause': int)
    requires i <= w.maxRetries.GetOr(3) && Underway(w, ep, t0, i, now, pause)
    requires !Accepted(ep.reply(i)) && w.strategy.GetOr(Reliable) != BestEffort
    requires pause' == pause + PauseBefore(i + 1, w.maxRetries.GetOr(3))
    requires now' == now + ep.latency(i) + ep.recording(i) + PauseBefore(i + 1, w.maxRetries.GetOr(3))
    ensures Underway(w, ep, t0, i + 1, now', pause')
  {
  }

  lemma DeliveryExhausted(w: Webhook, ep: Endpoint, t0: int, i: nat, now: int, pause: int)
    requires i > w.maxRetries.GetOr(3) && Underway(w, ep, t0, i, now, pause)
    ensures AttemptsMade(w, ep, i - 1) && pause == Pauses(i - 1)
  {
  }

  /** The number of attempts is determined by the replies. */
  lemma AttemptsMadeUnique(w: Webhook, ep: Endpoint, k: nat, k': nat)
    requires AttemptsMade(w, ep, k) && AttemptsMade(w, ep, k')
    ensures k == k'
  {
    assert 1 <= k < k' ==> !Accepted(ep.reply(k));
    assert 1 <= k' < k ==> !Accepted(ep.reply(k'));
  }

  /** How a delivery went can be read from its records: no more than are allowed, only the last one can have a
      status from 200 to 299, and when there are fewer it has, or the strategy is best effort; there is at least
      one when any is allowed. */
  lemma DeliveryInRecords(w: Webhook, eventId: string, ep: Endpoint, t0: int, attempts: seq<Attempt>)
    requires AttemptsMade(w, ep, |attempts|) && attempts == Attempts(w, eventId, ep, t0, |attempts|)
    ensures attempts == [] <==> w.maxRetries.GetOr(3) <= 0
    ensures attempts != [] ==> |attempts| <= w.maxRetries.GetOr(3)
    ensures forall i :: 0 <= i < |attempts| - 1 ==> !(200 <= attempts[i].status.GetOr(0) < 300)
    ensures |attempts| < w.maxRetries.GetOr(3) ==>
              200 <= attempts[|attempts| - 1].status.GetOr(0) < 300 || w.strategy == Some(BestEffort)
    ensures w.strategy == Some(BestEffort) ==> |attempts| <= 1
  {
    var k := |attempts|;
    forall i | 0 <= i < k
      ensures attempts[i].status.GetOr(0) == if ep.reply(i + 1).Responds? then ep.reply(i + 1).status else 0
    {
      AttemptsAreNumbered(w, eventId, ep, t0, k, i + 1);
    }
  }

  /** The pauses before attempts 2..k add up. */
  function Pauses(k: nat): nat {
    if k <= 1 then 0 else Pauses(k - 1) + 5000 * (k - 1)
  }

  lemma {:induction false} PausesClosedForm(k: nat)
    ensures Pauses(k) == if k == 0 then 0 else 2500 * k * (k - 1)
  {
    if k <= 1 {
    } else {
      PausesClosedForm(k - 1);
      assert 2500 * (k - 1) * (k - 2) + 5000 * (k - 1) == 2500 * k * (k - 1);
    }
  }

  /** Every thrown attempt of a delivery announces a retry: one that comes late by exactly the time the
      recording takes, and that is made exactly when the attempt was not the last one allowed. */
  lemma AnnouncedRetryExactly(w: Webhook, eventId: string, ep: Endpoint, t0: int, k: nat, i: nat)
    requires AttemptsMade(w, ep, k) && 1 <= i <= k && ep.reply(i).Throws? && w.strategy.GetOr(Reliable) != BestEffort
    ensures AttemptAt(w, eventId, ep, t0, i).nextRetryAt == Some(StartOf(t0, ep, i + 1) - ep.recording(i))
    ensures i < k <==> i < w.maxRetries.GetOr(3)
  {
  }

  /** Attempts start after all earlier latencies, recordings and pauses. */
  lemma {:induction false} StartIsWorkPlusPauses(t0: int, ep: Endpoint, i: nat)
    requires i >= 1
    ensures StartOf(t0, ep, i) == t0 + WorkTime(ep, i - 1) + Pauses(i)
  {
    if i == 1 {
    } else {
      StartIsWorkPlusPauses(t0, ep, i - 1);
    }
  }

  function WorkTime(ep: Endpoint, n: nat): nat {
    if n == 0 then 0 else WorkTime(ep, n - 1) + ep.latency(n) + ep.recording(n)
  }

  // ---------------------------------------------------------------- keys

  function Colons(s: string): nat {
    if s == "" then 0 else (if s[0] == ':' then 1 else 0) + Colons(s[1..])
  }

  lemma {:induction false} ColonsConcat(a: string, b: string)
    ensures Colons(a + b) == Colons(a) + Colons(b)
  {
    if a == "" {
      assert a + b == b;
    } else {
      ColonsConcat(a[1..], b);
      assert (a + b)[1..] == a[1..] + b;
    }
  }

  /** Registration makes ids of the form webhook:<time>:<random>. */
  predicate IsWebhookId(id: string) { "webhook:" <= id && Colons(id) == 2 && KeyPattern.Plain(id) }

  function Decimal(n: nat): string {
    if n < 10 then [('0' as int + n) as char] else Decimal(n / 10) + Decimal(n % 10)
  }

  function Root(prefix: string): string { prefix + ":" }

  function WebhookKey(prefix: string, id: string): string { Root(prefix) + id }

  function AttemptTail(a: Attempt): string {
    a.webhookUrl + ":attempts:" + (a.eventId + ":" + Decimal(a.attemptNumber))
  }

  function AttemptKey(prefix: string, a: Attempt): string { Root(prefix) + AttemptTail(a) }

  lemma ColonsBetween(s: string)
    requires |s| >= 2 && s[0] == ':' && s[|s| - 1] == ':'
    ensures Colons(s) >= 2
  {
    assert s[1..] == s[1..|s| - 1] + [s[|s| - 1]];
    ColonsConcat(s[1..|s| - 1], [s[|s| - 1]]);
  }

  lemma AttemptTailHasThreeColons(a: Attempt)
    ensures Colons(AttemptTail(a)) >= 3
  {
    var infix, number := ":attempts:", Decimal(a.attemptNumber);
    ColonsBetween(infix);
    ColonsConcat(a.webhookUrl + infix, a.eventId + ":" + number);
    ColonsConcat(a.webhookUrl, infix);
    ColonsConcat(a.eventId + ":", number);
    ColonsConcat(a.eventId, ":");
  }

  /** Attempt records share the scanned prefix with the webhooks but never a key. */
  lemma AttemptKeyIsNoWebhookKey(prefix: string, id: string, a: Attempt)
    requires IsWebhookId(id)
    ensures WebhookKey(prefix, id) != AttemptKey(prefix, a)
  {
    AttemptTailHasThreeColons(a);
    var root := Root(prefix);
    assert (root + id)[|root|..] == id;
    assert (root + AttemptTail(a))[|root|..] == AttemptTail(a);
  }

  lemma WebhookKeysDiffer(prefix: string, id: string, id': string)
    requires WebhookKey(prefix, id) == WebhookKey(prefix, id')
    ensures id == id'
  {
    var root := Root(prefix);
    assert id == (root + id)[|root|..] == (root + id')[|root|..] == id';
  }

  lemma {:induction false} DecimalsDiffer(m: nat, n: nat)
    requires Decimal(m) == Decimal(n)
    ensures m == n
  {
    OneDigit(m % 10);
    OneDigit(n % 10);
    DecimalLength(m);
    DecimalLength(n);
    if m < 10 || n < 10 {
      assert |Decimal(m)| == 1;
    } else {
      assert Decimal(m)[|Decimal(m)| - 1] == Decimal(m % 10)[0];
      assert Decimal(n)[|Decimal(n)| - 1] == Decimal(n % 10)[0];
      assert Decimal(m)[..|Decimal(m)| - 1] == Decimal(m / 10);
      assert Decimal(n)[..|Decimal(n)| - 1] == Decimal(n / 10);
      DecimalsDiffer(m / 10, n / 10);
    }
  }

  lemma OneDigit(d: nat)
    requires d < 10
    ensures Decimal(d) == [('0' as int + d) as char]
  {
  }

  lemma {:induction false} DecimalLength(n: nat)
    ensures |Decimal(n)| >= 1 && (|Decimal(n)| == 1 <==> n < 10)
  {
    if n < 10 {
    } else {
      DecimalLength(n / 10);
    }
  }

  /** Attempts of one delivery with different numbers are filed under different keys. */
  lemma AttemptKeysDiffer(prefix: string, a: Attempt, b: Attempt)
    requires a.webhookUrl == b.webhookUrl && a.eventId == b.eventId && AttemptKey(prefix, a) == AttemptKey(prefix, b)
    ensures a.attemptNumber == b.attemptNumber
  {
    var stem := Root(prefix) + (a.webhookUrl + ":attempts:" + (a.eventId + ":"));
    var m, n := Decimal(a.attemptNumber), Decimal(b.attemptNumber);
    assert AttemptKey(prefix, a) == stem + m && AttemptKey(prefix, b) == stem + n;
    assert m == (stem + m)[|stem|..] == (stem + n)[|stem|..] == n;
    DecimalsDiffer(a.attemptNumber, b.attemptNumber);
  }

  /** The pattern by which `getDeliveryHistory(id)` looks for attempts. */
  function HistoryPattern(prefix: string, id: string): string { Root(prefix) + (id + ":attempts:") + "*" }

  predicate InHistory(prefix: string, id: string, a: Attempt) {
    KeyPattern.Matches(HistoryPattern(prefix, id), AttemptKey(prefix, a))
  }

  /** Attempts are filed under the webhook's url, so the history of a webhook id has an attempt exactly when
      url, event id and number happen to continue the id. */
  lemma InHistoryExactly(prefix: string, id: string, a: Attempt)
    requires KeyPattern.Plain(prefix) && IsWebhookId(id)
    ensures InHistory(prefix, id, a) <==>
            id + ":attempts:" <= a.webhookUrl + ":attempts:" + (a.eventId + ":" + Decimal(a.attemptNumber))
  {
    var root, stem, tail := Root(prefix), id + ":attempts:", AttemptTail(a);
    KeyPattern.PlainPrefix(root + stem, root + tail);
    if root + stem <= root + tail {
      assert stem == (root + tail)[..|root + stem|][|root|..] == tail[..|stem|];
    }
    if stem <= tail {
      assert (root + tail)[..|root + stem|] == root + tail[..|stem|];
    }
  }

  /** A url that does not begin like a webhook id. */
  predicate OrdinaryUrl(url: string) { !("webhook:" <= url + ":attempts:") }

  lemma HistoryNeedsIdLikeUrl(prefix: string, id: string, a: Attempt)
    requires KeyPattern.Plain(prefix) && IsWebhookId(id)
    ensures InHistory(prefix, id, a) ==> !OrdinaryUrl(a.webhookUrl)
  {
    InHistoryExactly(prefix, id, a);
    var stem, tail, head := id + ":attempts:", AttemptTail(a), a.webhookUrl + ":attempts:";
    if stem <= tail {
      assert tail[..8] == stem[..8] == id[..8];
      assert head[..8] == tail[..8];
    }
  }

  // ---------------------------------------------------------------- the manager

  datatype Record = Config(webhook: Webhook) | Delivery(attempt: Attempt)

  datatype Result<+T> = Ok(value: T) | InvalidUrl | NoEvents | NotFound | Unreachable

  predicate Wants(w: Webhook, e: EventType) { w.active && e in w.events }

  /** A stored record read as a webhook: an attempt has no `active` field and is never sent to. */
  predicate RecordWants(r: Record, e: EventType) { r.Config? && Wants(r.webhook, e) }

  /** The store after recording the first `k` of `attempts`; a failing write is ignored. */
  function Recorded(prefix: string, store: map<string, Record>, attempts: seq<Attempt>, writes: nat -> bool, k: nat)
    : map<string, Record>
    requires k <= |attempts|
  {
    if k == 0 then store
    else
      var before := Recorded(prefix, store, attempts, writes, k - 1);
      if writes(attempts[k - 1].attemptNumber)
      then before[AttemptKey(prefix, attempts[k - 1]) := Delivery(attempts[k - 1])] else before
  }

  /** No record of a delivery overwrites another one: what has been written of it is all in the store. */
  lemma {:induction false} DeliveryIsRecorded(prefix: string, store: map<string, Record>, w: Webhook, eventId: string,
                                              ep: Endpoint, t0: int, n: nat, writes: nat -> bool, k: nat, i: nat)
    requires 1 <= i <= k <= n && writes(i)
    ensures var attempts := Attempts(w, eventId, ep, t0, n);
            var after, key := Recorded(prefix, store, attempts, writes, k), AttemptKey(prefix, attempts[i - 1]);
            key in after && after[key] == Delivery(attempts[i - 1])
    decreases k
  {
    var attempts := Attempts(w, eventId, ep, t0, n);
    AttemptsAreNumbered(w, eventId, ep, t0, n, i);
    AttemptsAreNumbered(w, eventId, ep, t0, n, k);
    if i == k {
    } else {
      DeliveryIsRecorded(prefix, store, w, eventId, ep, t0, n, writes, k - 1, i);
      if AttemptKey(prefix, attempts[k - 1]) == AttemptKey(prefix, attempts[i - 1]) {
        AttemptKeysDiffer(prefix, attempts[k - 1], attempts[i - 1]);
      }
    }
  }

  /** The store holds the registered webhooks under their keys and, apart from them, only attempts. */
  ghost predicate Represents(prefix: string, store: map<string, Record>, registered: map<string, Webhook>) {
    && (forall id :: id in registered ==>
          IsWebhookId(id) && WebhookKey(prefix, id) in store && store[WebhookKey(prefix, id)] == Config(registered[id]))
    && (forall key :: key in store && store[key].Config? ==>
          exists id :: id in registered && key == WebhookKey(prefix, id))
    && (forall key :: key in store && store[key].Delivery? ==> key == AttemptKey(prefix, store[key].attempt))
  }

  lemma {:induction false} RecordingKeepsWebhooks(prefix: string, store: map<string, Record>, attempts: seq<Attempt>,
                                                  writes: nat -> bool, k: nat, registered: map<string, Webhook>)
    requires k <= |attempts| && Represents(prefix, store, registered)
    ensures Represents(prefix, Recorded(prefix, store, attempts, writes, k), registered)
  {
    if k == 0 {
    } else {
      RecordingKeepsWebhooks(prefix, store, attempts, writes, k - 1, registered);
      forall id | id in registered {
        AttemptKeyIsNoWebhookKey(prefix, id, attempts[k - 1]);
      }
    }
  }

  /** One delivery made by `sendEvent`: the key and position of the record it was made for, and its
      attempts. */
  datatype Dispatch = Dispatch(key: string, position: nat, attempts: seq<Attempt>)

  function KeysOf(sent: seq<Dispatch>): (keys: seq<string>)
    ensures |keys| == |sent|
    ensures forall i :: 0 <= i < |keys| ==> keys[i] == sent[i].key
  {
    seq(|sent|, i requires 0 <= i < |sent| => sent[i].key)
  }

  /** `d` is a whole delivery to `w` in the environment of its position. */
  ghost predicate DeliveredTo(d: Dispatch, w: Webhook, eventId: string, endpoint: nat -> Endpoint, start: nat -> int) {
    && AttemptsMade(w, endpoint(d.position), |d.attempts|)
    && d.attempts == Attempts(w, eventId, endpoint(d.position), start(d.position), |d.attempts|)
  }

  /** The store after the deliveries `sent`, one after the other. */
  function AfterAll(prefix: string, store: map<string, Record>, sent: seq<Dispatch>, writes: nat -> nat -> bool)
    : map<string, Record>
  {
    if sent == [] then store
    else
      var last := sent[|sent| - 1];
      Recorded(prefix, AfterAll(prefix, store, sent[..|sent| - 1], writes), last.attempts, writes(last.position),
               |last.attempts|)
  }

  /** What `getDeliveryHistory(id)` finds. */
  ghost function History(prefix: string, store: map<string, Record>, id: string): set<Attempt> {
    set key | key in store && KeyPattern.Matches(HistoryPattern(prefix, id), key) && store[key].Delivery?
      :: store[key].attempt
  }

  predicate NewestFirst(list: seq<Attempt>) {
    forall i, j :: 0 <= i < j < |list| ==> list[i].timestamp >= list[j].timestamp
  }

  /** How many of `n` items a slice from the start keeps; a negative limit counts from the end. */
  function Cut(n: nat, limit: int): (m: nat)
    ensures m <= n
  {
    if limit < 0 then (if n + limit < 0 then 0 else n + limit) else if limit < n then limit else n
  }

  function InsertNewest(a: Attempt, sorted: seq<Attempt>): (r: seq<Attempt>)
    ensures |r| == |sorted| + 1
    ensures forall x :: x in r <==> x == a || x in sorted
  {
    if sorted == [] || a.timestamp >= sorted[0].timestamp then [a] + sorted
    else [sorted[0]] + InsertNewest(a, sorted[1..])
  }

  function SortNewest(list: seq<Attempt>): (r: seq<Attempt>)
    ensures |r| == |list|
    ensures forall x :: x in r <==> x in list
  {
    if list == [] then [] else InsertNewest(list[0], SortNewest(list[1..]))
  }

  lemma {:induction false} InsertInOrder(a: Attempt, sorted: seq<Attempt>)
    requires NewestFirst(sorted) && NoDup(sorted) && a !in sorted
    ensures NewestFirst(InsertNewest(a, sorted)) && NoDup(InsertNewest(a, sorted))
  {
    if sorted == [] || a.timestamp >= sorted[0].timestamp {
    } else {
      var rest := InsertNewest(a, sorted[1..]);
      InsertInOrder(a, sorted[1..]);
      forall i | 0 <= i < |rest|
        ensures sorted[0].timestamp >= rest[i].timestamp && sorted[0] != rest[i]
      {
        assert rest[i] in rest;
      }
    }
  }

  lemma {:induction false} SortSorts(list: seq<Attempt>)
    requires NoDup(list)
    ensures NewestFirst(SortNewest(list)) && NoDup(SortNewest(list))
  {
    if list == [] {
    } else {
      SortSorts(list[1..]);
      InsertInOrder(list[0], SortNewest(list[1..]));
    }
  }

  lemma HistoryListed(prefix: string, store: map<string, Record>, id: string, keys: seq<string>, found: seq<Attempt>)
    requires Lists(keys, set key | key in store && KeyPattern.Matches(HistoryPattern(prefix, id), key))
    requires forall i :: 0 <= i < |keys| ==> keys[i] in store
    requires forall a :: a in found <==> exists i :: 0 <= i < |keys| && store[keys[i]] == Delivery(a)
    ensures forall a :: a in found <==> a in History(prefix, store, id)
  {
    forall a | a in found
      ensures a in History(prefix, store, id)
    {
      var i :| 0 <= i < |keys| && store[keys[i]] == Delivery(a);
      assert keys[i] in keys;
    }
    forall a | a in History(prefix, store, id)
      ensures a in found
    {
      var key :| key in store && KeyPattern.Matches(HistoryPattern(prefix, id), key) && store[key] == Delivery(a);
      assert key in keys;
      var i :| 0 <= i < |keys| && keys[i] == key;
    }
  }

  /** Recording attempts on ordinary urls leaves every webhook's history as it was, although the attempts
      are in the store. */
  lemma {:induction false} HistoryMissesDeliveries(prefix: string, store: map<string, Record>, id: string,
                                                   attempts: seq<Attempt>, writes: nat -> bool, k: nat)
    requires KeyPattern.Plain(prefix) && IsWebhookId(id) && k <= |attempts|
    requires forall i :: 0 <= i < k ==> OrdinaryUrl(attempts[i].webhookUrl)
    ensures var after := Recorded(prefix, store, attempts, writes, k);
            && History(prefix, after, id) == History(prefix, store, id)
            && forall i :: 0 <= i < k && writes(attempts[i].attemptNumber) ==> AttemptKey(prefix, attempts[i]) in after
  {
    if k == 0 {
    } else {
      HistoryMissesDeliveries(prefix, store, id, attempts, writes, k - 1);
      var before := Recorded(prefix, store, attempts, writes, k - 1);
      var after := Recorded(prefix, store, attempts, writes, k);
      var key := AttemptKey(prefix, attempts[k - 1]);
      HistoryNeedsIdLikeUrl(prefix, id, attempts[k - 1]);
      assert forall other :: other != key ==> (other in before <==> other in after);
      assert forall other :: other != key && other in before ==> before[other] == after[other];
    }
  }

  /** A delivery that succeeds at once and is recorded, and the empty history of its webhook. */
  lemma DeliveredButNotInHistory(prefix: string, id: string)
    returns (w: Webhook, ep: Endpoint, store: map<string, Record>)
    requires KeyPattern.Plain(prefix) && IsWebhookId(id)
    ensures store == map[WebhookKey(prefix, id) := Config(w)] && w.active && AttemptsMade(w, ep, 1)
    ensures var attempts := Attempts(w, "e", ep, 0, 1);
            var after := Recorded(prefix, store, attempts, i => true, 1);
            AttemptKey(prefix, attempts[0]) in after && History(prefix, after, id) == {}
  {
    w := Webhook("https://example.org", [JobCompleted], None, None, true);
    ep := Endpoint(i => Responds(200), i => 0, i => 0);
    store := map[WebhookKey(prefix, id) := Config(w)];
    var attempts := Attempts(w, "e", ep, 0, 1);
    AttemptsAreNumbered(w, "e", ep, 0, 1, 1);
    assert OrdinaryUrl(w.url) by {
      assert (w.url + ":attempts:")[0] == 'h';
    }
    HistoryMissesDeliveries(prefix, store, id, attempts, i => true, 1);
  }

  class WebhookManager {
    const keyPrefix: string
    var store: map<string, Record>
    var webhooksCache: map<string, Webhook>

    /** The webhooks registered and not deleted, as last written. */
    ghost var registered: map<string, Webhook>

    ghost predicate Valid()
      reads this
    {
      && KeyPattern.Plain(keyPrefix)
      && Represents(keyPrefix, store, registered)
      && forall id :: id in webhooksCache && IsWebhookId(id) ==> id in registered && webhooksCache[id] == registered[id]
    }

    constructor (keyPrefix: string)
      requires KeyPattern.Plain(keyPrefix)
      ensures Valid() && registered == map[] && this.keyPrefix == keyPrefix
    {
      this.keyPrefix := keyPrefix;
      store, webhooksCache, registered := map[], map[], map[];
    }

    /** `id` is the id made from the clock and a random part. */
    method RegisterWebhook(w: Webhook, id: string, reachable: bool) returns (r: Result<string>)
      requires Valid() && IsWebhookId(id)
      modifies this`store, this`webhooksCache, this`registered
      ensures Valid()
      ensures r == if Blank(w.url) then InvalidUrl else if w.events == [] then NoEvents
                   else if !reachable then Unreachable else Ok(id)
      ensures registered == if r.Ok? then old(registered)[id := w] else old(registered)
    {
      if Blank(w.url) {
        return InvalidUrl;
      }
      if |w.events| == 0 {
        return NoEvents;
      }
      if !reachable {
        return Unreachable;
      }
      Write(id, w);
      return Ok(id);
    }

    /** Store and cache a webhook under its id. */
    method Write(id: string, w: Webhook)
      requires Valid() && IsWebhookId(id)
      modifies this`store, this`webhooksCache, this`registered
      ensures Valid() && registered == old(registered)[id := w]
    {
      store := store[WebhookKey(keyPrefix, id) := Config(w)];
      webhooksCache := webhooksCache[id := w];
      registered := registered[id := w];
      forall other | other in registered && other != id
        ensures WebhookKey(keyPrefix, other) != WebhookKey(keyPrefix, id)
      {
        if WebhookKey(keyPrefix, other) == WebhookKey(keyPrefix, id) {
          WebhookKeysDiffer(keyPrefix, other, id);
        }
      }
      forall key | key in store && store[key].Config?
        ensures exists i :: i in registered && key == WebhookKey(keyPrefix, i)
      {
        if key == WebhookKey(keyPrefix, id) {
          assert id in registered;
        } else {
          var i :| i in old(registered) && key == WebhookKey(keyPrefix, i);
          assert i in registered;
        }
      }
    }

    method GetWebhook(id: string, reachable: bool) returns (r: Result<Webhook>)
      requires Valid() && IsWebhookId(id)
      modifies this`webhooksCache
      ensures Valid()
      ensures r.Ok? ==> id in registered && r.value == registered[id]
      ensures reachable ==> r == if id in registered then Ok(registered[id]) else NotFound
      ensures !r.Ok? && reachable ==> r == NotFound
    {
      if id in webhooksCache {
        return Ok(webhooksCache[id]);
      }
      if !reachable {
        return Unreachable;
      }
      var key := WebhookKey(keyPrefix, id);
      if key !in store {
        return NotFound;
      }
      OnlyOwnKey(id);
      var w := store[key].webhook;
      webhooksCache := webhooksCache[id := w];
      return Ok(w);
    }

    lemma OnlyOwnKey(id: string)
      requires Valid() && IsWebhookId(id) && WebhookKey(keyPrefix, id) in store
      ensures id in registered && store[WebhookKey(keyPrefix, id)] == Config(registered[id])
    {
      var found := store[WebhookKey(keyPrefix, id)];
      if found.Delivery? {
        AttemptKeyIsNoWebhookKey(keyPrefix, id, found.attempt);
      }
      var i :| i in registered && WebhookKey(keyPrefix, id) == WebhookKey(keyPrefix, i);
      WebhookKeysDiffer(keyPrefix, id, i);
    }

    method UpdateWebhook(id: string, p: Patch, reachable: bool) returns (r: Result<()>)
      requires Valid() && IsWebhookId(id)
      modifies this`store, this`webhooksCache, this`registered
      ensures Valid()
      ensures r.Ok? <==> reachable && id in old(registered)
      ensures !r.Ok? ==> registered == old(registered)
      ensures r.Ok? ==>
                && registered.Keys == old(registered).Keys
                && (forall other :: other in registered && other != id ==> registered[other] == old(registered)[other])
                && var w, w' := old(registered)[id], registered[id];
                   && w'.url == (if p.url.Some? then p.url.value else w.url)
                   && w'.events == (if p.events.Some? then p.events.value else w.events)
                   && w'.strategy == (if p.strategy.Some? then p.strategy else w.strategy)
                   && w'.maxRetries == (if p.maxRetries.Some? then p.maxRetries else w.maxRetries)
                   && w'.active == (if p.active.Some? then p.active.value else w.active)
    {
      var existing := GetWebhook(id, reachable);
      if !existing.Ok? {
        return if existing.NotFound? then NotFound else Unreachable;
      }
      if !reachable {
        return Unreachable;
      }
      Write(id, Merge(existing.value, p));
      return Ok(());
    }

    method EnableWebhook(id: string, reachable: bool) returns (r: Result<()>)
      requires Valid() && IsWebhookId(id)
      modifies this`store, this`webhooksCache, this`registered
      ensures Valid()
      ensures r.Ok? <==> reachable && id in old(registered)
      ensures registered == if r.Ok? then old(registered)[id := old(registered)[id].(active := true)]
                            else old(registered)
    {
      r := UpdateWebhook(id, Patch(None, None, None, None, Some(true)), reachable);
    }

    method DisableWebhook(id: string, reachable: bool) returns (r: Result<()>)
      requires Valid() && IsWebhookId(id)
      modifies this`store, this`webhooksCache, this`registered
      ensures Valid()
      ensures r.Ok? <==> reachable && id in old(registered)
      ensures registered == if r.Ok? then old(registered)[id := old(registered)[id].(active := false)]
                            else old(registered)
    {
      r := UpdateWebhook(id, Patch(None, None, None, None, Some(false)), reachable);
    }

    method DeleteWebhook(id: string, reachable: bool) returns (r: Result<()>)
      requires Valid() && IsWebhookId(id)
      modifies this`store, this`webhooksCache, this`registered
      ensures Valid()
      ensures r == (if reachable then Ok(()) else Unreachable)
      ensures registered == if reachable then old(registered) - {id} else old(registered)
    {
      if !reachable {
        return Unreachable;
      }
      store := store - {WebhookKey(keyPrefix, id)};
      webhooksCache := webhooksCache - {id};
      registered := registered - {id};
      forall other | other in registered
        ensures WebhookKey(keyPrefix, other) in store
      {
        if WebhookKey(keyPrefix, other) == WebhookKey(keyPrefix, id) {
          WebhookKeysDiffer(keyPrefix, other, id);
        }
      }
      forall key | key in store && store[key].Config?
        ensures exists i :: i in registered && key == WebhookKey(keyPrefix, i)
      {
        var i :| i in old(registered) && key == WebhookKey(keyPrefix, i);
        assert i in registered;
      }
      return Ok(());
    }

    /** One request, begun at `start`, and its record; `delivered` when the loop is to stop. */
    method TryAttempt(w: Webhook, eventId: string, attemptNumber: nat, ep: Endpoint, write: bool, start: int)
      returns (delivered: bool, attempt: Attempt)
      modifies this`store
      ensures delivered <==> Accepted(ep.reply(attemptNumber)) || w.strategy.GetOr(Reliable) == BestEffort
      ensures attempt == AttemptFrom(w, eventId, ep, start, attemptNumber)
      ensures store == if write then old(store)[AttemptKey(keyPrefix, attempt) := Delivery(attempt)] else old(store)
    {
      var strategy := w.strategy.GetOr(Reliable);
      var reply := ep.reply(attemptNumber);
      var now := start + ep.latency(attemptNumber);
      if reply.Responds? {
        attempt := Attempt(eventId, w.url, Some(reply.status), attemptNumber, now, None);
        RecordAttempt(attempt, write);
        if reply.status >= 200 && reply.status < 300 {
          return true, attempt;
        }
        return strategy == BestEffort, attempt;
      }
      attempt := Attempt(eventId, w.url, None, attemptNumber, now,
                         if strategy != BestEffort then Some(now + 5000 * attemptNumber) else None);
      RecordAttempt(attempt, write);
      return strategy == BestEffort, attempt;
    }

    method RecordAttempt(attempt: Attempt, write: bool)
      modifies this`store
      ensures store == if write then old(store)[AttemptKey(keyPrefix, attempt) := Delivery(attempt)] else old(store)
    {
      if write {
        store := store[AttemptKey(keyPrefix, attempt) := Delivery(attempt)];
      }
    }

    /** The loop's attempt, begun at `now`, added to the attempts so far. */
    method NextAttempt(w: Webhook, eventId: string, attempts: seq<Attempt>, ep: Endpoint, writes: nat -> bool,
                       now: int, ghost start: int, ghost store0: map<string, Record>)
      returns (delivered: bool, attempts': seq<Attempt>)
      requires now == StartOf(start, ep, |attempts| + 1)
      requires attempts == Attempts(w, eventId, ep, start, |attempts|)
      requires store == Recorded(keyPrefix, store0, attempts, writes, |attempts|)
      modifies this`store
      ensures delivered <==> Accepted(ep.reply(|attempts| + 1)) || w.strategy.GetOr(Reliable) == BestEffort
      ensures attempts' == Attempts(w, eventId, ep, start, |attempts| + 1)
      ensures store == Recorded(keyPrefix, store0, attempts', writes, |attempts'|)
    {
      var attempt;
      delivered, attempt := TryAttempt(w, eventId, |attempts| + 1, ep, writes(|attempts| + 1), now);
      RecordedMore(keyPrefix, store0, attempts, attempt, writes);
      attempts' := attempts + [attempt];
    }

    /** One round of the loop: an attempt and, unless it ends the delivery, the pause behind it. */
    method Round(w: Webhook, eventId: string, attempts: seq<Attempt>, ep: Endpoint, writes: nat -> bool, now: int,
                 slept: nat, ghost start: int, ghost store0: map<string, Record>)
      returns (delivered: bool, attempts': seq<Attempt>, now': int, slept': nat)
      requires |attempts| < w.maxRetries.GetOr(3) && Underway(w, ep, start, |attempts| + 1, now, slept)
      requires attempts == Attempts(w, eventId, ep, start, |attempts|)
      requires store == Recorded(keyPrefix, store0, attempts, writes, |attempts|)
      modifies this`store
      ensures |attempts'| == |attempts| + 1 && attempts' == Attempts(w, eventId, ep, start, |attempts'|)
      ensures store == Recorded(keyPrefix, store0, attempts', writes, |attempts'|)
      ensures delivered || |attempts'| >= w.maxRetries.GetOr(3) ==>
                AttemptsMade(w, ep, |attempts'|) && slept' == Pauses(|attempts'|)
      ensures !delivered ==> Underway(w, ep, start, |attempts'| + 1, now', slept')
    {
      delivered, attempts' := NextAttempt(w, eventId, attempts, ep, writes, now, start, store0);
      var attemptNumber := |attempts'|;
      now', slept' := now, slept;
      if delivered {
        DeliveryStops(w, ep, start, attemptNumber, now, slept);
      } else {
        var pause := PauseBefore(attemptNumber + 1, w.maxRetries.GetOr(3));
        now', slept' := now + ep.latency(attemptNumber) + ep.recording(attemptNumber) + pause, slept + pause;
        DeliveryGoesOn(w, ep, start, attemptNumber, now, slept, now', slept');
        if attemptNumber >= w.maxRetries.GetOr(3) {
          DeliveryExhausted(w, ep, start, attemptNumber + 1, now', slept');
        }
      }
    }

    /** The delivery loop, from time `start` on; `slept` is the time spent in pauses. */
    method RunAttempts(w: Webhook, eventId: string, ep: Endpoint, writes: nat -> bool, start: int)
      returns (attempts: seq<Attempt>, slept: nat)
      modifies this`store
      ensures AttemptsMade(w, ep, |attempts|)
      ensures attempts == Attempts(w, eventId, ep, start, |attempts|)
      ensures slept == Pauses(|attempts|)
      ensures store == Recorded(keyPrefix, old(store), attempts, writes, |attempts|)
    {
      var maxRetries := w.maxRetries.GetOr(3);
      var attemptNumber: nat, now := 1, start;
      attempts, slept := [], 0;
      DeliveryStarts(w, ep, start);
      while attemptNumber <= maxRetries
        invariant attemptNumber == |attempts| + 1
        invariant attemptNumber <= maxRetries ==> Underway(w, ep, start, attemptNumber, now, slept)
        invariant attemptNumber > maxRetries ==> AttemptsMade(w, ep, |attempts|) && slept == Pauses(|attempts|)
        invariant attempts == Attempts(w, eventId, ep, start, |attempts|)
        invariant store == Recorded(keyPrefix, old(store), attempts, writes, |attempts|)
        decreases maxRetries - attemptNumber
      {
        var delivered;
        delivered, attempts, now, slept := Round(w, eventId, attempts, ep, writes, now, slept, start, old(store));
        if delivered {
          return;
        }
        attemptNumber := attemptNumber + 1;
      }
    }

    /** One delivery, with everything recorded about it. */
    method DeliverWebhook(w: Webhook, eventId: string, ep: Endpoint, writes: nat -> bool, start: int)
      returns (attempts: seq<Attempt>, slept: nat)
      requires Valid()
      modifies this`store
      ensures Valid()
      ensures AttemptsMade(w, ep, |attempts|)
      ensures attempts == Attempts(w, eventId, ep, start, |attempts|)
      ensures slept == Pauses(|attempts|)
      ensures store == Recorded(keyPrefix, old(store), attempts, writes, |attempts|)
    {
      ghost var before := store;
      attempts, slept := RunAttempts(w, eventId, ep, writes, start);
      RecordingKeepsWebhooks(keyPrefix, before, attempts, writes, |attempts|, registered);
    }

    /** Send an event: one delivery for each stored record that is an active webhook subscribed to
        it.  `endpoint(k)`, `writes(k)` and `start(k)` are the environment of the delivery to the
        k-th record. */
    method SendEvent(event: EventType, eventId: string, endpoint: nat -> Endpoint, writes: nat -> nat -> bool,
                     start: nat -> int, reachable: bool)
      returns (sent: seq<Dispatch>)
      requires Valid()
      modifies this`store
      ensures Valid()
      ensures !reachable ==> sent == []
      ensures store == AfterAll(keyPrefix, old(store), sent, writes)
      ensures reachable ==>
                Lists(KeysOf(sent), set id | id in registered && registered[id].active && event in registered[id].events
                                      :: WebhookKey(keyPrefix, id))
      ensures forall d :: d in sent ==>
                exists id :: id in registered && d.key == WebhookKey(keyPrefix, id)
                             && DeliveredTo(d, registered[id], eventId, endpoint, start)
    {
      if !reachable {
        return [];
      }
      ghost var before := store;
      var keys, webhooks := ListWebhooks();
      sent := Broadcast(keys, webhooks, event, eventId, endpoint, writes, start);
      NotifiedAreWanted(keyPrefix, before, registered, keys, webhooks, event, KeysOf(sent));
      forall d | d in sent
        ensures exists id :: id in registered && d.key == WebhookKey(keyPrefix, id)
                             && DeliveredTo(d, registered[id], eventId, endpoint, start)
      {
        assert ForRecord(d, keys, webhooks, event, eventId, endpoint, start);
        assert before[d.key] == webhooks[d.position];
      }
    }

    /** Everything stored under the prefix, attempts included. */
    method ListWebhooks() returns (keys: seq<string>, webhooks: seq<Record>)
      requires Valid()
      ensures Lists(keys, set key | key in store && Root(keyPrefix) <= key) && |webhooks| == |keys|
      ensures forall i :: 0 <= i < |keys| ==> keys[i] in store && webhooks[i] == store[keys[i]]
    {
      forall key: string
        ensures KeyPattern.Matches(Root(keyPrefix) + "*", key) <==> Root(keyPrefix) <= key
      {
        KeyPattern.PlainPrefix(Root(keyPrefix), key);
      }
      keys := Enumerate(set key | key in store && KeyPattern.Matches(Root(keyPrefix) + "*", key));
      webhooks := [];
      for k := 0 to |keys|
        invariant |webhooks| == k
        invariant forall i :: 0 <= i < k ==> webhooks[i] == store[keys[i]]
      {
        webhooks := webhooks + [store[keys[k]]];
      }
    }

    /** The history of a webhook id, the newest attempts first, up to `limit`; nothing when the store does not
        answer.  `all` is the history before the cut. */
    method GetDeliveryHistory(id: string, limit: int, reachable: bool)
      returns (attempts: seq<Attempt>, ghost all: seq<Attempt>)
      requires Valid() && IsWebhookId(id)
      ensures !reachable ==> attempts == []
      ensures reachable ==>
                && Lists(all, History(keyPrefix, store, id)) && attempts <= all
                && (forall i, j :: 0 <= i < j < |all| ==> all[i].timestamp >= all[j].timestamp)
                && (limit >= 0 ==> |attempts| == if limit < |all| then limit else |all|)
                && (limit < 0 ==> |attempts| == if |all| + limit < 0 then 0 else |all| + limit)
    {
      if !reachable {
        return [], [];
      }
      var keys := Enumerate(set key | key in store && KeyPattern.Matches(HistoryPattern(keyPrefix, id), key));
      var found: seq<Attempt> := [];
      for k := 0 to |keys|
        invariant NoDup(found)
        invariant forall a :: a in found <==> exists i :: 0 <= i < k && store[keys[i]] == Delivery(a)
      {
        if store[keys[k]].Delivery? {
          assert store[keys[k]].attempt !in found;
          found := found + [store[keys[k]].attempt];
        }
      }
      HistoryListed(keyPrefix, store, id, keys, found);
      SortSorts(found);
      all := SortNewest(found);
      return SortNewest(found)[..Cut(|found|, limit)], all;
    }

    method Broadcast(keys: seq<string>, webhooks: seq<Record>, event: EventType, eventId: string,
                     endpoint: nat -> Endpoint, writes: nat -> nat -> bool, start: nat -> int)
      returns (sent: seq<Dispatch>)
      requires Valid() && NoDup(keys) && |webhooks| == |keys|
      modifies this`store
      ensures Valid() && NoDup(KeysOf(sent))
      ensures store == AfterAll(keyPrefix, old(store), sent, writes)
      ensures forall d :: d in sent ==> ForRecord(d, keys, webhooks, event, eventId, endpoint, start)
      ensures forall key :: key in KeysOf(sent) <==>
                exists i :: 0 <= i < |keys| && keys[i] == key && RecordWants(webhooks[i], event)
    {
      sent := [];
      for k := 0 to |keys|
        invariant Valid()
        invariant store == AfterAll(keyPrefix, old(store), sent, writes)
        invariant SentFor(sent, keys, webhooks, event, eventId, endpoint, start, k)
      {
        if webhooks[k].Config? && webhooks[k].webhook.active && event in webhooks[k].webhook.events {
          var attempts, _ := DeliverWebhook(webhooks[k].webhook, eventId, endpoint(k), writes(k), start(k));
          var dispatch := Dispatch(keys[k], k, attempts);
          AfterOneMore(keyPrefix, old(store), sent, dispatch, writes);
          SentOneMore(sent, dispatch, keys, webhooks, event, eventId, endpoint, start, k);
          sent := sent + [dispatch];
        } else {
          SentNoMore(sent, keys, webhooks, event, eventId, endpoint, start, k);
        }
      }
      SentToAll(sent, keys, webhooks, event, eventId, endpoint, start);
    }
  }

  /** A webhook that is not active, or does not subscribe to the event, is sent nothing. */
  lemma UnwantedGetsNothing(prefix: string, registered: map<string, Webhook>, event: EventType, sent: seq<string>,
                            id: string)
    requires Lists(sent, set i | i in registered && registered[i].active && event in registered[i].events
                           :: WebhookKey(prefix, i))
    requires id in registered && (!registered[id].active || event !in registered[id].events)
    ensures WebhookKey(prefix, id) !in sent
  {
    if WebhookKey(prefix, id) in sent {
      var i :| i in registered && registered[i].active && event in registered[i].events
               && WebhookKey(prefix, i) == WebhookKey(prefix, id);
      WebhookKeysDiffer(prefix, i, id);
    }
  }

  /** After an update that deactivates a webhook, an event is not sent to it. */
  method NothingAfterDeactivation(m: WebhookManager, id: string, p: Patch, event: EventType, eventId: string,
                                  endpoint: nat -> Endpoint, writes: nat -> nat -> bool, start: nat -> int)
    returns (sent: seq<Dispatch>)
    requires m.Valid() && IsWebhookId(id) && id in m.registered && p.active == Some(false)
    modifies m
    ensures forall d :: d in sent ==> d.key != WebhookKey(m.keyPrefix, id)
  {
    var _ := m.UpdateWebhook(id, p, true);
    sent := m.SendEvent(event, eventId, endpoint, writes, start, true);
    UnwantedGetsNothing(m.keyPrefix, m.registered, event, KeysOf(sent), id);
    forall d | d in sent
      ensures d.key != WebhookKey(m.keyPrefix, id)
    {
      var i :| 0 <= i < |sent| && sent[i] == d;
      assert KeysOf(sent)[i] == d.key;
    }
  }

  /** The deliveries for the first `k` records: in the order of the records, one for each that wants the
      event. */
  ghost predicate SentFor(sent: seq<Dispatch>, keys: seq<string>, webhooks: seq<Record>, event: EventType,
                          eventId: string, endpoint: nat -> Endpoint, start: nat -> int, k: nat)
    requires k <= |webhooks| == |keys|
  {
    && (forall d :: d in sent ==> d.position < k && ForRecord(d, keys, webhooks, event, eventId, endpoint, start))
    && (forall i, j :: 0 <= i < j < |sent| ==> sent[i].position < sent[j].position)
    && (forall i :: 0 <= i < k && RecordWants(webhooks[i], event) ==> exists d :: d in sent && d.position == i)
  }

  lemma SentOneMore(sent: seq<Dispatch>, d: Dispatch, keys: seq<string>, webhooks: seq<Record>, event: EventType,
                    eventId: string, endpoint: nat -> Endpoint, start: nat -> int, k: nat)
    requires k < |webhooks| == |keys| && SentFor(sent, keys, webhooks, event, eventId, endpoint, start, k)
    requires d.position == k && ForRecord(d, keys, webhooks, event, eventId, endpoint, start)
    ensures SentFor(sent + [d], keys, webhooks, event, eventId, endpoint, start, k + 1)
  {
    var more := sent + [d];
    assert more[|sent|] == d;
    forall i | 0 <= i < k + 1 && RecordWants(webhooks[i], event)
      ensures exists x :: x in more && x.position == i
    {
      if i < k {
        var x :| x in sent && x.position == i;
        assert x in more;
      }
    }
    forall i, j | 0 <= i < j < |more|
      ensures more[i].position < more[j].position
    {
      assert more[i] in sent;
    }
  }

  lemma SentNoMore(sent: seq<Dispatch>, keys: seq<string>, webhooks: seq<Record>, event: EventType,
                   eventId: string, endpoint: nat -> Endpoint, start: nat -> int, k: nat)
    requires k < |webhooks| == |keys| && SentFor(sent, keys, webhooks, event, eventId, endpoint, start, k)
    requires !RecordWants(webhooks[k], event)
    ensures SentFor(sent, keys, webhooks, event, eventId, endpoint, start, k + 1)
  {
  }

  lemma SentToAll(sent: seq<Dispatch>, keys: seq<string>, webhooks: seq<Record>, event: EventType,
                  eventId: string, endpoint: nat -> Endpoint, start: nat -> int)
    requires |webhooks| == |keys| && NoDup(keys)
    requires SentFor(sent, keys, webhooks, event, eventId, endpoint, start, |keys|)
    ensures NoDup(KeysOf(sent))
    ensures forall key :: key in KeysOf(sent) <==>
              exists i :: 0 <= i < |keys| && keys[i] == key && RecordWants(webhooks[i], event)
  {
    forall i, j | 0 <= i < j < |sent|
      ensures KeysOf(sent)[i] != KeysOf(sent)[j]
    {
      assert sent[i] in sent && sent[j] in sent;
    }
    forall key | key in KeysOf(sent)
      ensures exists i :: 0 <= i < |keys| && keys[i] == key && RecordWants(webhooks[i], event)
    {
      var j :| 0 <= j < |sent| && KeysOf(sent)[j] == key;
      assert sent[j] in sent;
    }
    forall i | 0 <= i < |keys| && RecordWants(webhooks[i], event)
      ensures keys[i] in KeysOf(sent)
    {
      var d :| d in sent && d.position == i;
      var j :| 0 <= j < |sent| && sent[j] == d;
      assert KeysOf(sent)[j] == keys[i];
    }
  }

  lemma AfterOneMore(prefix: string, store: map<string, Record>, sent: seq<Dispatch>, d: Dispatch,
                     writes: nat -> nat -> bool)
    ensures AfterAll(prefix, store, sent + [d], writes) ==
            Recorded(prefix, AfterAll(prefix, store, sent, writes), d.attempts, writes(d.position), |d.attempts|)
  {
    assert (sent + [d])[..|sent|] == sent;
  }

  /** `d` is the delivery made for a record that wants the event. */
  ghost predicate ForRecord(d: Dispatch, keys: seq<string>, webhooks: seq<Record>, event: EventType, eventId: string,
                            endpoint: nat -> Endpoint, start: nat -> int)
    requires |webhooks| == |keys|
  {
    && d.position < |keys| && keys[d.position] == d.key && RecordWants(webhooks[d.position], event)
    && DeliveredTo(d, webhooks[d.position].webhook, eventId, endpoint, start)
  }

  lemma RecordedMore(prefix: string, store: map<string, Record>, attempts: seq<Attempt>, attempt: Attempt,
                     writes: nat -> bool)
    ensures var before := Recorded(prefix, store, attempts, writes, |attempts|);
            Recorded(prefix, store, attempts + [attempt], writes, |attempts| + 1) ==
            if writes(attempt.attemptNumber) then before[AttemptKey(prefix, attempt) := Delivery(attempt)] else before
  {
    RecordedPrefix(prefix, store, attempts, attempt, writes, |attempts|);
  }

  lemma {:induction false} RecordedPrefix(prefix: string, store: map<string, Record>, attempts: seq<Attempt>,
                                          attempt: Attempt, writes: nat -> bool, k: nat)
    requires k <= |attempts|
    ensures Recorded(prefix, store, attempts + [attempt], writes, k) == Recorded(prefix, store, attempts, writes, k)
  {
    if k == 0 {
    } else {
      RecordedPrefix(prefix, store, attempts, attempt, writes, k - 1);
    }
  }

  lemma NotifiedAreWanted(prefix: string, store: map<string, Record>, registered: map<string, Webhook>,
                          keys: seq<string>, webhooks: seq<Record>, event: EventType, notified: seq<string>)
    requires Represents(prefix, store, registered) && NoDup(notified)
    requires Lists(keys, set key | key in store && Root(prefix) <= key) && |webhooks| == |keys|
    requires forall i :: 0 <= i < |keys| ==> keys[i] in store && webhooks[i] == store[keys[i]]
    requires forall key :: key in notified <==>
               exists i :: 0 <= i < |keys| && keys[i] == key && RecordWants(webhooks[i], event)
    ensures Lists(notified, set id | id in registered && Wants(registered[id], event) :: WebhookKey(prefix, id))
  {
    var wanted := set id | id in registered && Wants(registered[id], event) :: WebhookKey(prefix, id);
    forall key | key in notified
      ensures key in wanted
    {
      var i :| 0 <= i < |keys| && keys[i] == key && RecordWants(webhooks[i], event);
      var id :| id in registered && key == WebhookKey(prefix, id);
    }
    forall key | key in wanted
      ensures key in notified
    {
      var id :| id in registered && Wants(registered[id], event) && key == WebhookKey(prefix, id);
      assert Root(prefix) <= key;
      assert key in keys;
      var i :| 0 <= i < |keys| && keys[i] == key;
    }
  }
}
