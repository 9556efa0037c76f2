/** Idempotency records: results kept for a time-to-live in a store whose own expiry counts whole
    seconds, cleaned on request, and the check-run-record handlers built on them.

    Every call to the store is a step of its own and may fail.  A handler's check and its recording
    are two steps; so are a clean-up's reading of a key and its deletion.  A recording reads its clock
    before it reaches the store: the record expires by the one time, the store hides it by the other. */
module Idempotency {
  import opened Prelude

  datatype Record = Record(key: string, jobId: string, jobName: string, result: string, createdAt: int, expiresAt: int)

  /** A record and the time from which the store no longer shows it. */
  datatype Entry = Entry(record: Record, hiddenFrom: int)

  type Store = map<string, Entry>

  const DEFAULT_TTL := 86400000

  function CeilSeconds(ms: int): int { (ms + 999) / 1000 }

  predicate Visible(s: Store, key: string, now: int) {
    key in s && now < s[key].hiddenFrom
  }

  function RecordIn(s: Store, r: Record, ttl: int, now: int): Store {
    s[r.key := Entry(r, now + 1000 * CeilSeconds(ttl))]
  }

  function Lookup(s: Store, key: string, now: int): Option<Record> {
    if Visible(s, key, now) then Some(s[key].record) else None
  }

  /** The store still shows a record of `key` that has expired. */
  predicate Overdue(s: Store, key: string, now: int, at: int) {
    Visible(s, key, at) && s[key].record.expiresAt < now
  }

  // ---------------------------------------------------------------- runs

  /** `works` tells whether the store answers.

      A recording reads its clock at `made` and reaches the store at `at`.

      `Look` is the check of handler `handler`, which starts its effect when it gets no record; `Settle`
      is the end of the effect, recorded when it returns (`effect` is `None` when it throws).

      `Read` is what clean-up `cleaner`, begun at time `now`, reads of one key; `Delete` is its deletion
      of that key, decided on what it read. */
  datatype Op =
    | Put(key: string, jobId: string, jobName: string, result: string, ttl: int, made: int, at: int, works: bool)
    | Clear(key: string, at: int, works: bool)
    | Look(handler: nat, key: string, at: int, works: bool)
    | Settle(handler: nat, jobId: string, jobName: string, effect: Option<string>, ttl: int, made: int, at: int,
             works: bool)
    | Read(cleaner: nat, key: string, now: int, at: int, works: bool)
    | Delete(cleaner: nat, at: int, works: bool)

  /** The key a clean-up is about to delete, and the step at which it read it. */
  datatype Pending = Pending(key: string, readAt: nat)

  /** The store, the key of each handler whose effect is running, and the clean-ups about to delete. */
  datatype State = State(store: Store, running: map<nat, string>, pending: map<nat, Pending>, steps: nat)

  const EMPTY := State(map[], map[], map[], 0)

  predicate Enabled(s: State, op: Op) {
    match op
    case Look(h, _, _, _) => h !in s.running
    case Put(_, _, _, _, _, made, at, _) => made <= at
    case Settle(h, _, _, _, _, made, at, _) => h in s.running && made <= at
    case Read(c, _, now, at, _) => c !in s.pending && now <= at
    case Delete(c, _, _) => c in s.pending
    case _ => true
  }

  /** What a handler's check gets: a store that fails looks like a missing record. */
  function Answer(s: Store, key: string, at: int, works: bool): Option<Record> {
    if works then Lookup(s, key, at) else None
  }

  /** The record that `op` makes, if it makes one: the store refuses an expiry of zero or fewer seconds. */
  function Made(s: State, op: Op): Option<Record>
    requires Enabled(s, op)
  {
    match op
    case Put(key, jobId, jobName, result, ttl, made, _, works) =>
      if works && CeilSeconds(ttl) > 0 then Some(Record(key, jobId, jobName, result, made, made + ttl)) else None
    case Settle(h, jobId, jobName, Some(result), ttl, made, _, works) =>
      if works && CeilSeconds(ttl) > 0 then Some(Record(s.running[h], jobId, jobName, result, made, made + ttl))
      else None
    case _ => None
  }

  function Kept(s: Store, r: Option<Record>, ttl: int, at: int): Store {
    match r
    case None => s
    case Some(record) => RecordIn(s, record, ttl, at)
  }

  function Step(s: State, op: Op): State
    requires Enabled(s, op)
  {
    var s' :=
      match op
      case Put(_, _, _, _, ttl, _, at, _) => s.(store := Kept(s.store, Made(s, op), ttl, at))
      case Clear(key, _, works) => if works then s.(store := s.store - {key}) else s
      case Look(h, key, at, works) =>
        if Answer(s.store, key, at, works).Some? then s else s.(running := s.running[h := key])
      case Settle(h, _, _, _, ttl, _, at, _) =>
        s.(store := Kept(s.store, Made(s, op), ttl, at), running := s.running - {h})
      case Read(c, key, now, at, works) =>
        if works && Overdue(s.store, key, now, at) then s.(pending := s.pending[c := Pending(key, s.steps)]) else s
      case Delete(c, _, works) =>
        s.(store := if works then s.store - {s.pending[c].key} else s.store, pending := s.pending - {c});
    s'.(steps := s.steps + 1)
  }

  ghost predicate Moves(s: State, op: Op, s': State) { Enabled(s, op) && s' == Step(s, op) }

  /** A run from an empty store, under a clock that never runs backwards. */
  ghost predicate Trace(ops: seq<Op>, states: seq<State>) {
    && |states| == |ops| + 1 && states[0] == EMPTY
    && (forall i :: 0 <= i < |ops| ==> Moves(states[i], ops[i], states[i + 1]))
    && (forall i, j :: 0 <= i <= j < |ops| ==> ops[i].at <= ops[j].at)
  }

  /** Operation `i` writes a record for `key`. */
  predicate Writes(ops: seq<Op>, states: seq<State>, i: nat, key: string)
    requires i < |ops| < |states|
  {
    Enabled(states[i], ops[i]) && Made(states[i], ops[i]).Some? && Made(states[i], ops[i]).value.key == key
  }

  /** Between operations `i` and `k` nothing writes or clears `key`. */
  predicate Untouched(ops: seq<Op>, states: seq<State>, i: nat, k: nat, key: string)
    requires k <= |ops| < |states|
  {
    forall j :: i < j < k ==> Touchless(ops, states, j, key)
  }

  predicate Touchless(ops: seq<Op>, states: seq<State>, j: nat, key: string)
    requires j < |ops| < |states|
  {
    !Writes(ops, states, j, key) && !(ops[j].Clear? && ops[j].key == key && ops[j].works)
  }

  /** Operation `op` deletes `key` for a clean-up. */
  predicate Lands(s: State, op: Op, key: string) {
    op.Delete? && op.works && op.cleaner in s.pending && s.pending[op.cleaner].key == key
  }

  predicate LandsAt(ops: seq<Op>, states: seq<State>, j: nat, key: string)
    requires j < |ops| < |states|
  {
    Lands(states[j], ops[j], key)
  }

  ghost predicate Deleted(ops: seq<Op>, states: seq<State>, i: nat, k: nat, key: string)
    requires k <= |ops| < |states|
  {
    exists j :: i < j < k && LandsAt(ops, states, j, key)
  }

  /** A deletion lands between `i` and `k` that was decided on what the clean-up had read before `i`. */
  ghost predicate StaleDelete(ops: seq<Op>, states: seq<State>, i: nat, k: nat, key: string)
    requires k <= |ops| < |states|
  {
    exists j :: i < j < k && LandsAt(ops, states, j, key) && states[j].pending[ops[j].cleaner].readAt < i
  }

  function HiddenFrom(op: Op): int
    requires op.Put? || op.Settle?
  {
    op.at + 1000 * CeilSeconds(op.ttl)
  }

  lemma {:induction false} StepsCount(ops: seq<Op>, states: seq<State>, k: nat)
    requires Trace(ops, states) && k <= |ops|
    ensures states[k].steps == k
  {
    if k == 0 {
    } else {
      StepsCount(ops, states, k - 1);
      assert Moves(states[k - 1], ops[k - 1], states[k]);
    }
  }

  /** Operation `i` is the reading that clean-up `cleaner` decided on. */
  predicate DecidedAt(ops: seq<Op>, states: seq<State>, i: nat, cleaner: nat, key: string)
    requires i < |ops| < |states|
  {
    ops[i].Read? && ops[i].cleaner == cleaner && ops[i].key == key
    && Overdue(states[i].store, key, ops[i].now, ops[i].at) && ops[i].now <= ops[i].at
  }

  /** A pending deletion was decided on an overdue record. */
  lemma {:induction false} PendingIsDecided(ops: seq<Op>, states: seq<State>, k: nat, cleaner: nat)
    requires Trace(ops, states) && k <= |ops| && cleaner in states[k].pending
    ensures var p := states[k].pending[cleaner];
            p.readAt < k && DecidedAt(ops, states, p.readAt, cleaner, p.key)
  {
    assert k > 0;
    assert Moves(states[k - 1], ops[k - 1], states[k]);
    StepsCount(ops, states, k - 1);
    if cleaner in states[k - 1].pending {
      PendingIsDecided(ops, states, k - 1, cleaner);
    }
  }

  /** Until its key is written or cleared again, a record stays in the store exactly as long as no
      clean-up's deletion of the key lands. */
  lemma {:induction false} RecordKept(ops: seq<Op>, states: seq<State>, i: nat, k: nat, r: Record)
    requires Trace(ops, states) && i < k <= |ops| && Moves(states[i], ops[i], states[i + 1])
    requires Made(states[i], ops[i]) == Some(r) && Untouched(ops, states, i, k, r.key)
    ensures var store := states[k].store;
            && (r.key in store <==> !Deleted(ops, states, i, k, r.key))
            && (r.key in store ==> store[r.key] == Entry(r, HiddenFrom(ops[i])))
    decreases k
  {
    if k == i + 1 {
    } else {
      RecordKept(ops, states, i, k - 1, r);
      assert Deleted(ops, states, i, k, r.key) <==>
             (Deleted(ops, states, i, k - 1, r.key) || LandsAt(ops, states, k - 1, r.key));
      assert Touchless(ops, states, k - 1, r.key);
      assert Moves(states[k - 1], ops[k - 1], states[k]);
    }
  }

  /** A result is found, from its recording on and until the key is written or cleared again, exactly
      before the store hides it (the time-to-live rounded up to whole seconds) and unless a deletion of
      the key has landed since. */
  lemma FoundExactly(ops: seq<Op>, states: seq<State>, i: nat, k: nat, r: Record, now: int)
    requires Trace(ops, states) && i < k <= |ops| && Moves(states[i], ops[i], states[i + 1])
    requires Made(states[i], ops[i]) == Some(r) && Untouched(ops, states, i, k, r.key)
    ensures Lookup(states[k].store, r.key, now) ==
            if now < HiddenFrom(ops[i]) && !Deleted(ops, states, i, k, r.key) then Some(r) else None
  {
    RecordKept(ops, states, i, k, r);
  }

  lemma CeilSecondsBounds(ms: int)
    ensures ms <= 1000 * CeilSeconds(ms) < ms + 1000
  {
  }

  /** Before the record has expired, only deletions decided before it was written can land. */
  lemma EarlyDeletesAreStale(ops: seq<Op>, states: seq<State>, i: nat, k: nat, r: Record, now: int)
    requires Trace(ops, states) && i < k <= |ops| && Moves(states[i], ops[i], states[i + 1])
    requires Made(states[i], ops[i]) == Some(r) && Untouched(ops, states, i, k, r.key)
    requires ops[k - 1].at <= now < r.expiresAt
    ensures Deleted(ops, states, i, k, r.key) <==> StaleDelete(ops, states, i, k, r.key)
  {
    if j :| i < j < k && LandsAt(ops, states, j, r.key) {
      var c := ops[j].cleaner;
      PendingIsDecided(ops, states, j, c);
      var read := states[j].pending[c].readAt;
      assert ops[read].at <= ops[k - 1].at;
      if read > i {
        RecordKept(ops, states, i, read, r);
      }
      assert read < i;
    }
  }

  /** So a result made at t0 for d ms, which reaches the store at t1, is found throughout [t1, t0 + d) exactly
      unless a deletion lands that was decided before the recording, and never from t1 + d + 1000 on. */
  lemma TimeToLiveExactly(ops: seq<Op>, states: seq<State>, i: nat, k: nat, r: Record, now: int)
    requires Trace(ops, states) && i < k <= |ops| && Moves(states[i], ops[i], states[i + 1])
    requires Made(states[i], ops[i]) == Some(r) && Untouched(ops, states, i, k, r.key)
    requires ops[k - 1].at <= now
    ensures now < r.expiresAt ==>
              Lookup(states[k].store, r.key, now) ==
              if StaleDelete(ops, states, i, k, r.key) then None else Some(r)
    ensures now >= ops[i].at + ops[i].ttl + 1000 ==> Lookup(states[k].store, r.key, now) == None
  {
    CeilSecondsBounds(ops[i].ttl);
    FoundExactly(ops, states, i, k, r, now);
    if now < r.expiresAt {
      EarlyDeletesAreStale(ops, states, i, k, r, now);
    }
  }

  /** A cleared key has no record until one is written again. */
  lemma {:induction false} ClearedStaysGone(ops: seq<Op>, states: seq<State>, i: nat, k: nat)
    requires Trace(ops, states) && i < k <= |ops| && ops[i].Clear? && ops[i].works
    requires forall j :: i < j < k ==> !Writes(ops, states, j, ops[i].key)
    ensures ops[i].key !in states[k].store
    decreases k
  {
    assert Moves(states[k - 1], ops[k - 1], states[k]);
    if k == i + 1 {
    } else {
      ClearedStaysGone(ops, states, i, k - 1);
      assert !Writes(ops, states, k - 1, ops[i].key);
    }
  }

  // ---------------------------------------------------------------- when no result is ever lost

  /** All recordings use time-to-live `ttl` and take at most `latency` to reach the store. */
  predicate Records(ops: seq<Op>, ttl: int, latency: nat) {
    forall i :: 0 <= i < |ops| && (ops[i].Put? || ops[i].Settle?) ==>
      ops[i].ttl == ttl && ops[i].at - ops[i].made <= latency
  }

  /** Record `r`, made by operation `i`, is found before `k` as long as it has not expired. */
  ghost predicate FoundUntilExpiry(ops: seq<Op>, states: seq<State>, i: nat, k: nat, r: Record)
    requires k <= |ops| < |states|
  {
    forall now :: (k > 0 ==> ops[k - 1].at <= now) && now < r.expiresAt ==>
      Lookup(states[k].store, r.key, now) == Some(r)
  }

  /** On all such runs every result is found until it expires, is written again or cleared. */
  ghost predicate AlwaysKept(ttl: int, latency: nat) {
    forall ops, states, i, k, r ::
      Recorded(ops, states, i, k, r) && Records(ops, ttl, latency) ==> FoundUntilExpiry(ops, states, i, k, r)
  }

  ghost predicate Recorded(ops: seq<Op>, states: seq<State>, i: nat, k: nat, r: Record) {
    && Trace(ops, states) && i < k <= |ops| && Moves(states[i], ops[i], states[i + 1])
    && Made(states[i], ops[i]) == Some(r) && Untouched(ops, states, i, k, r.key)
  }

  /** The store shows no record for longer than `ttl` rounded up, plus the latency, after it was made. */
  lemma {:induction false} ShownBriefly(ops: seq<Op>, states: seq<State>, k: nat, ttl: int, latency: nat)
    requires Trace(ops, states) && Records(ops, ttl, latency) && k <= |ops|
    ensures forall key :: key in states[k].store ==>
              states[k].store[key].hiddenFrom - states[k].store[key].record.expiresAt
              <= latency + 1000 * CeilSeconds(ttl) - ttl
  {
    if k == 0 {
    } else {
      ShownBriefly(ops, states, k - 1, ttl, latency);
      assert Moves(states[k - 1], ops[k - 1], states[k]);
    }
  }

  lemma NothingOverdue(ops: seq<Op>, states: seq<State>, k: nat, cleaner: nat, ttl: int, latency: nat)
    requires Trace(ops, states) && Records(ops, ttl, latency) && k <= |ops|
    requires latency + 1000 * CeilSeconds(ttl) - ttl <= 1
    ensures cleaner !in states[k].pending
  {
    if cleaner in states[k].pending {
      PendingIsDecided(ops, states, k, cleaner);
      ShownBriefly(ops, states, states[k].pending[cleaner].readAt, ttl, latency);
    }
  }

  /** A clean-up reads an expired record that the store still shows, a fresh result is recorded, and the
      deletion removes it at once. */
  lemma StaleDeleteLosesResult(ttl: int, latency: nat)
    returns (ops: seq<Op>, states: seq<State>, r: Record)
    requires ttl > 0 && latency + 1000 * CeilSeconds(ttl) - ttl >= 2
    ensures |ops| == 4 && Recorded(ops, states, 2, 4, r) && Records(ops, ttl, latency)
    ensures ops[3].at < r.expiresAt && Lookup(states[4].store, r.key, ops[3].at) == None
  {
    var at := if ttl + 1 > latency then ttl + 1 else latency;
    CeilSecondsBounds(ttl);
    ops := [Put("k", "1", "n", "old", ttl, 0, latency, true), Read(0, "k", ttl + 1, at, true),
            Put("k", "2", "n", "new", ttl, at, at, true), Delete(0, at, true)];
    var s1 := Step(EMPTY, ops[0]);
    assert s1.store == map["k" := Entry(Record("k", "1", "n", "old", 0, ttl), latency + 1000 * CeilSeconds(ttl))];
    var s2 := Step(s1, ops[1]);
    assert s2.pending == map[0 := Pending("k", 1)];
    var s3 := Step(s2, ops[2]);
    states := [EMPTY, s1, s2, s3, Step(s3, ops[3])];
    r := Record("k", "2", "n", "new", at, at + ttl);
  }

  /** With a time-to-live of d > 0 and recordings that reach the store within some latency, no result is lost
      on any run exactly when that latency and the rounding of d to whole seconds make up at most one
      millisecond. */
  lemma KeptExactly(ttl: int, latency: nat)
    requires ttl > 0
    ensures AlwaysKept(ttl, latency) <==> latency + 1000 * CeilSeconds(ttl) - ttl <= 1
  {
    if latency + 1000 * CeilSeconds(ttl) - ttl <= 1 {
      forall ops, states, i: nat, k: nat, r | Recorded(ops, states, i, k, r) && Records(ops, ttl, latency)
        ensures FoundUntilExpiry(ops, states, i, k, r)
      {
        KeptOnRun(ops, states, i, k, r, ttl, latency);
      }
    } else {
      var ops, states, r := StaleDeleteLosesResult(ttl, latency);
      assert !FoundUntilExpiry(ops, states, 2, 4, r);
    }
  }

  lemma KeptOnRun(ops: seq<Op>, states: seq<State>, i: nat, k: nat, r: Record, ttl: int, latency: nat)
    requires Recorded(ops, states, i, k, r) && Records(ops, ttl, latency)
    requires latency + 1000 * CeilSeconds(ttl) - ttl <= 1
    ensures FoundUntilExpiry(ops, states, i, k, r)
  {
    forall now | ops[k - 1].at <= now < r.expiresAt
      ensures Lookup(states[k].store, r.key, now) == Some(r)
    {
      if j :| i < j < k && LandsAt(ops, states, j, r.key) {
        NothingOverdue(ops, states, j, ops[j].cleaner, ttl, latency);
      }
      assert !Deleted(ops, states, i, k, r.key);
      CeilSecondsBounds(ops[i].ttl);
      FoundExactly(ops, states, i, k, r, now);
    }
  }

  // ---------------------------------------------------------------- handlers of one key

  predicate LooksFor(op: Op, key: string) { op.Look? && op.key == key }

  /** Nothing clears `key` before `k`. */
  predicate NotCleared(ops: seq<Op>, k: nat, key: string)
    requires k <= |ops|
  {
    forall j :: 0 <= j < k ==> !(ops[j].Clear? && ops[j].key == key && ops[j].works)
  }

  ghost predicate WrittenBefore(ops: seq<Op>, states: seq<State>, k: nat, key: string)
    requires k <= |ops| < |states|
  {
    exists m :: 0 <= m < k && Writes(ops, states, m, key)
  }

  /** `m` is the last operation before `k` to write `key`. */
  ghost predicate LastWritten(ops: seq<Op>, states: seq<State>, m: nat, k: nat, key: string)
    requires k <= |ops| < |states|
  {
    m < k && Writes(ops, states, m, key) && Untouched(ops, states, m, k, key)
  }

  lemma {:induction false} LastWrite(ops: seq<Op>, states: seq<State>, k: nat, key: string) returns (m: nat)
    requires k <= |ops| < |states| && NotCleared(ops, k, key) && WrittenBefore(ops, states, k, key)
    ensures LastWritten(ops, states, m, k, key)
    decreases k
  {
    if Writes(ops, states, k - 1, key) {
      m := k - 1;
    } else {
      m := LastWrite(ops, states, k - 1, key);
      assert Touchless(ops, states, k - 1, key);
    }
  }

  lemma OneLastWrite(ops: seq<Op>, states: seq<State>, m: nat, m': nat, k: nat, key: string)
    requires k <= |ops| < |states| && LastWritten(ops, states, m, k, key) && LastWritten(ops, states, m', k, key)
    ensures m == m'
  {
    assert m < m' ==> Touchless(ops, states, m', key);
    assert m' < m ==> Touchless(ops, states, m, key);
  }

  /** The last result recorded for `key` before `k` has been removed by a deletion decided before it. */
  ghost predicate Lost(ops: seq<Op>, states: seq<State>, k: nat, key: string)
    requires k <= |ops| < |states|
  {
    exists m: nat :: LastWritten(ops, states, m, k, key) && StaleDelete(ops, states, m, k, key)
  }

  lemma LostByLastWrite(ops: seq<Op>, states: seq<State>, m: nat, k: nat, key: string)
    requires k <= |ops| < |states| && LastWritten(ops, states, m, k, key)
    ensures Lost(ops, states, k, key) <==> StaleDelete(ops, states, m, k, key)
  {
    if m': nat :| LastWritten(ops, states, m', k, key) && StaleDelete(ops, states, m', k, key) {
      OneLastWrite(ops, states, m, m', k, key);
    }
  }

  /** Before the first write of a key there is nothing to find. */
  lemma {:induction false} NothingBefore(ops: seq<Op>, states: seq<State>, k: nat, key: string)
    requires Trace(ops, states) && k <= |ops| && !WrittenBefore(ops, states, k, key)
    ensures key !in states[k].store
  {
    if k == 0 {
    } else {
      NothingBefore(ops, states, k - 1, key);
      assert Moves(states[k - 1], ops[k - 1], states[k]) && !Writes(ops, states, k - 1, key);
    }
  }

  /** The last result recorded for `key` before `k`, if there is one, has not expired at `now`. */
  ghost predicate LastUnexpired(ops: seq<Op>, states: seq<State>, k: nat, key: string, now: int)
    requires k <= |ops| < |states|
  {
    forall m: nat :: LastWritten(ops, states, m, k, key) ==> now < Made(states[m], ops[m]).value.expiresAt
  }

  /** What a handler's look gets: it runs its effect exactly when that is nothing. */
  function Seen(ops: seq<Op>, states: seq<State>, k: nat): Option<Record>
    requires k < |ops| < |states| && ops[k].Look?
  {
    Answer(states[k].store, ops[k].key, ops[k].at, ops[k].works)
  }

  /** As long as the last result has not expired, a handler runs its effect exactly when it looks before any
      result has been recorded, or its look fails, or the last result has been lost to a late deletion. */
  lemma EffectRepeatsExactly(ops: seq<Op>, states: seq<State>, k: nat, key: string)
    requires Trace(ops, states) && k < |ops| && LooksFor(ops[k], key) && NotCleared(ops, k, key)
    requires LastUnexpired(ops, states, k, key, ops[k].at)
    ensures Seen(ops, states, k) == None <==>
            !WrittenBefore(ops, states, k, key) || !ops[k].works || Lost(ops, states, k, key)
  {
    if WrittenBefore(ops, states, k, key) {
      var m := LastWrite(ops, states, k, key);
      LostByLastWrite(ops, states, m, k, key);
      assert Moves(states[m], ops[m], states[m + 1]);
      assert ops[k - 1].at <= ops[k].at;
      TimeToLiveExactly(ops, states, m, k, Made(states[m], ops[m]).value, ops[k].at);
    } else {
      NothingBefore(ops, states, k, key);
    }
  }

  /** No result recorded for `key` before `k` has expired at `now`. */
  ghost predicate NoneExpired(ops: seq<Op>, states: seq<State>, k: nat, key: string, now: int)
    requires k <= |ops| < |states|
  {
    forall m :: 0 <= m < k && Writes(ops, states, m, key) ==> now < Made(states[m], ops[m]).value.expiresAt
  }

  /** What the store holds for a key was written there. */
  lemma {:induction false} HeldWasWritten(ops: seq<Op>, states: seq<State>, k: nat, key: string)
    requires Trace(ops, states) && k <= |ops| && key in states[k].store
    ensures exists m :: 0 <= m < k && Writes(ops, states, m, key)
                        && Made(states[m], ops[m]).value == states[k].store[key].record
  {
    if k == 0 {
    } else {
      assert Moves(states[k - 1], ops[k - 1], states[k]);
      if Writes(ops, states, k - 1, key) {
      } else {
        HeldWasWritten(ops, states, k - 1, key);
      }
    }
  }

  /** Until some result of the key has expired none can be lost: handlers repeat the effect only when they look
      before the first recording, or their look fails. */
  lemma EffectRepeatsBeforeExpiry(ops: seq<Op>, states: seq<State>, k: nat, key: string)
    requires Trace(ops, states) && k < |ops| && LooksFor(ops[k], key) && NotCleared(ops, k, key)
    requires NoneExpired(ops, states, k, key, ops[k].at)
    ensures Seen(ops, states, k) == None <==> !WrittenBefore(ops, states, k, key) || !ops[k].works
  {
    EffectRepeatsExactly(ops, states, k, key);
    if m: nat :| LastWritten(ops, states, m, k, key) && StaleDelete(ops, states, m, k, key) {
      var j: nat :| m < j < k && LandsAt(ops, states, j, key) && states[j].pending[ops[j].cleaner].readAt < m;
      PendingIsDecided(ops, states, j, ops[j].cleaner);
      var read := states[j].pending[ops[j].cleaner].readAt;
      HeldWasWritten(ops, states, read, key);
      assert ops[read].at <= ops[k].at;
    }
  }

  /** A first handler records a result that takes 5 ms to reach the store; it has expired but is still shown
      when a clean-up reads it. */
  lemma ExpiredIsRead(ttl: int) returns (s1: State, s2: State, s3: State)
    requires ttl > 0 && 1000 * CeilSeconds(ttl) == ttl
    ensures Moves(EMPTY, Look(0, "k", 0, true), s1) && NoneRuns(EMPTY, "k")
    ensures Moves(s1, Settle(0, "1", "n", Some("old"), ttl, 0, 5, true), s2)
    ensures Moves(s2, Read(0, "k", ttl + 2, ttl + 2, true), s3)
    ensures s3 == State(map["k" := Entry(Record("k", "1", "n", "old", 0, ttl), ttl + 5)], map[],
                        map[0 := Pending("k", 2)], 3)
  {
    s1 := Step(EMPTY, Look(0, "k", 0, true));
    s2 := Step(s1, Settle(0, "1", "n", Some("old"), ttl, 0, 5, true));
    s3 := Step(s2, Read(0, "k", ttl + 2, ttl + 2, true));
  }

  /** A second handler records a new result, and the deletion removes it. */
  lemma FreshIsDeleted(ttl: int, s3: State) returns (s4: State, s5: State, s6: State)
    requires ttl > 0 && 1000 * CeilSeconds(ttl) == ttl
    requires s3 == State(map["k" := Entry(Record("k", "1", "n", "old", 0, ttl), ttl + 5)], map[],
                         map[0 := Pending("k", 2)], 3)
    ensures Moves(s3, Look(0, "k", ttl + 5, true), s4)
    ensures Moves(s4, Settle(0, "1", "n", Some("new"), ttl, ttl + 5, ttl + 5, true), s5)
    ensures Made(s4, Settle(0, "1", "n", Some("new"), ttl, ttl + 5, ttl + 5, true))
            == Some(Record("k", "1", "n", "new", ttl + 5, ttl + 5 + ttl))
    ensures s5.pending == map[0 := Pending("k", 2)]
    ensures Moves(s5, Delete(0, ttl + 5, true), s6) && "k" !in s6.store && s6.running == map[]
  {
    s4 := Step(s3, Look(0, "k", ttl + 5, true));
    s5 := Step(s4, Settle(0, "1", "n", Some("new"), ttl, ttl + 5, ttl + 5, true));
    s6 := Step(s5, Delete(0, ttl + 5, true));
  }

  /** A run goes on with one more operation. */
  lemma Extend(ops: seq<Op>, states: seq<State>, op: Op, s: State) returns (ops': seq<Op>, states': seq<State>)
    requires Trace(ops, states) && (ops != [] ==> ops[|ops| - 1].at <= op.at) && Moves(states[|ops|], op, s)
    ensures ops' == ops + [op] && states' == states + [s] && Trace(ops', states')
  {
    ops', states' := ops + [op], states + [s];
    forall i | 0 <= i < |ops'|
      ensures Moves(states'[i], ops'[i], states'[i + 1])
    {
      if i < |ops| {
        assert Moves(states[i], ops[i], states[i + 1]);
      }
    }
    forall i, j | 0 <= i <= j < |ops'|
      ensures ops'[i].at <= ops'[j].at
    {
      if i < |ops| {
        assert ops[i].at <= ops[|ops| - 1].at;
      }
    }
  }

  /** A run of sequential handlers of "k" whose recordings take up to 5 ms. */
  ghost predicate HandlerRun(ops: seq<Op>, states: seq<State>, ttl: int) {
    Trace(ops, states) && Records(ops, ttl, 5) && Sequential(ops, states, "k") && HandlersOnly(ops, states, "k")
  }

  lemma ExtendHandlers(ops: seq<Op>, states: seq<State>, ttl: int, op: Op, s: State)
    returns (ops': seq<Op>, states': seq<State>)
    requires HandlerRun(ops, states, ttl) && (ops != [] ==> ops[|ops| - 1].at <= op.at) && Moves(states[|ops|], op, s)
    requires !op.Put? && !op.Clear? && (op.Settle? ==> op.ttl == ttl && op.at - op.made <= 5)
    requires LooksFor(op, "k") ==> NoneRuns(states[|ops|], "k")
    ensures ops' == ops + [op] && states' == states + [s] && HandlerRun(ops', states', ttl)
  {
    ops', states' := Extend(ops, states, op, s);
  }

  lemma FirstHalf(ttl: int) returns (ops: seq<Op>, states: seq<State>)
    requires ttl > 0 && 1000 * CeilSeconds(ttl) == ttl
    ensures HandlerRun(ops, states, ttl) && |ops| == 3 && ops[2].at == ttl + 2
    ensures states[3] == State(map["k" := Entry(Record("k", "1", "n", "old", 0, ttl), ttl + 5)], map[],
                               map[0 := Pending("k", 2)], 3)
  {
    var s1, s2, s3 := ExpiredIsRead(ttl);
    ops, states := ExtendHandlers([], [EMPTY], ttl, Look(0, "k", 0, true), s1);
    ops, states := ExtendHandlers(ops, states, ttl, Settle(0, "1", "n", Some("old"), ttl, 0, 5, true), s2);
    ops, states := ExtendHandlers(ops, states, ttl, Read(0, "k", ttl + 2, ttl + 2, true), s3);
  }

  lemma LosingRun(ttl: int) returns (ops: seq<Op>, states: seq<State>)
    requires ttl > 0 && 1000 * CeilSeconds(ttl) == ttl
    ensures HandlerRun(ops, states, ttl) && |ops| == 6
    ensures Writes(ops, states, 4, "k") && Made(states[4], ops[4]).value.expiresAt == ttl + 5 + ttl
    ensures ops[5] == Delete(0, ttl + 5, true) && states[5].pending == map[0 := Pending("k", 2)]
    ensures "k" !in states[6].store && states[6].running == map[]
  {
    var start, reached := FirstHalf(ttl);
    var s4, s5, s6 := FreshIsDeleted(ttl, reached[3]);
    ops, states := ExtendHandlers(start, reached, ttl, Look(0, "k", ttl + 5, true), s4);
    ops, states := ExtendHandlers(ops, states, ttl, Settle(0, "1", "n", Some("new"), ttl, ttl + 5, ttl + 5, true), s5);
    ops, states := ExtendHandlers(ops, states, ttl, Delete(0, ttl + 5, true), s6);
  }

  /** Handlers do lose a result, one after the other and with any time-to-live of whole seconds: after these
      two a third one runs the effect again. */
  lemma HandlersLoseResult(ttl: int) returns (ops: seq<Op>, states: seq<State>)
    requires ttl > 0 && ttl % 1000 == 0
    ensures |ops| == 7 && Trace(ops, states) && Records(ops, ttl, 5)
    ensures Sequential(ops, states, "k") && HandlersOnly(ops, states, "k") && NotCleared(ops, 6, "k")
    ensures LooksFor(ops[6], "k") && ops[6].works && LastUnexpired(ops, states, 6, "k", ops[6].at)
    ensures Lost(ops, states, 6, "k") && Seen(ops, states, 6) == None
  {
    var before, reached := LosingRun(ttl);
    var look := Look(0, "k", ttl + 5, true);
    ops, states := ExtendHandlers(before, reached, ttl, look, Step(reached[6], look));
    assert Touchless(ops, states, 5, "k");
    assert LastWritten(ops, states, 4, 6, "k");
    assert LandsAt(ops, states, 5, "k");
    assert StaleDelete(ops, states, 4, 6, "k");
    LastIsFour(ops, states);
  }

  lemma LastIsFour(ops: seq<Op>, states: seq<State>)
    requires 6 < |ops| < |states| && ops[6].Look? && LastWritten(ops, states, 4, 6, "k")
    requires ops[6].at < Made(states[4], ops[4]).value.expiresAt
    ensures LastUnexpired(ops, states, 6, "k", ops[6].at)
  {
    forall m: nat | LastWritten(ops, states, m, 6, "k")
      ensures m == 4
    {
      OneLastWrite(ops, states, m, 4, 6, "k");
    }
  }

  // ---------------------------------------------------------------- handlers one after the other

  /** Only handlers write `key`, and nothing clears it. */
  predicate HandlersOnly(ops: seq<Op>, states: seq<State>, key: string) {
    forall j :: 0 <= j < |ops| && (ops[j].Put? || ops[j].Clear?) ==> ops[j].key != key
  }

  /** No handler of the key looks while another one's effect for it is running. */
  predicate Sequential(ops: seq<Op>, states: seq<State>, key: string)
    requires |states| == |ops| + 1
  {
    forall j :: 0 <= j < |ops| && LooksFor(ops[j], key) ==> NoneRuns(states[j], key)
  }

  predicate NoneRuns(s: State, key: string) {
    forall h :: h in s.running ==> s.running[h] != key
  }

  predicate AtMostOneRuns(s: State, key: string) {
    forall a, b :: a in s.running && b in s.running && s.running[a] == key && s.running[b] == key ==> a == b
  }

  lemma {:induction false} OneRuns(ops: seq<Op>, states: seq<State>, k: nat, key: string)
    requires Trace(ops, states) && k <= |ops| && Sequential(ops, states, key)
    ensures AtMostOneRuns(states[k], key)
  {
    if k == 0 {
    } else {
      OneRuns(ops, states, k - 1, key);
      assert Moves(states[k - 1], ops[k - 1], states[k]);
    }
  }

  /** Between `i` and `n` every look for the key gets an answer, and none comes when the result is lost. */
  ghost predicate Undisturbed(ops: seq<Op>, states: seq<State>, i: nat, n: nat, key: string)
    requires n <= |ops| < |states|
  {
    forall k :: i < k < n && LooksFor(ops[k], key) ==> ops[k].works && !Lost(ops, states, k, key)
  }

  /** Between `i` and `n` every look for the key finds record `r`. */
  ghost predicate AllFind(ops: seq<Op>, states: seq<State>, i: nat, n: nat, key: string, r: Record)
    requires n <= |ops| < |states|
  {
    forall k :: i < k < n && LooksFor(ops[k], key) ==> Seen(ops, states, k) == Some(r)
  }

  /** While every look finds the result, no effect is running and nothing is written again. */
  lemma {:induction false} NoneRunsAfter(ops: seq<Op>, states: seq<State>, i: nat, k: nat, key: string, r: Record)
    requires Trace(ops, states) && HandlersOnly(ops, states, key) && Sequential(ops, states, key)
    requires i < k <= |ops| && Writes(ops, states, i, key) && AllFind(ops, states, i, k, key, r)
    ensures NoneRuns(states[k], key)
    ensures LastWritten(ops, states, i, k, key)
    decreases k
  {
    assert Moves(states[k - 1], ops[k - 1], states[k]);
    if k == i + 1 {
      OneRuns(ops, states, i, key);
    } else {
      NoneRunsAfter(ops, states, i, k - 1, key, r);
      assert Touchless(ops, states, k - 1, key);
    }
  }

  lemma FoundUnlessLost(ops: seq<Op>, states: seq<State>, i: nat, k: nat, key: string, r: Record)
    requires Trace(ops, states) && k < |ops| && LooksFor(ops[k], key) && ops[k].at < r.expiresAt
    requires LastWritten(ops, states, i, k, key) && Made(states[i], ops[i]) == Some(r)
    ensures Seen(ops, states, k) == Some(r) <==> ops[k].works && !Lost(ops, states, k, key)
  {
    assert Moves(states[i], ops[i], states[i + 1]);
    assert ops[k - 1].at <= ops[k].at;
    LostByLastWrite(ops, states, i, k, key);
    TimeToLiveExactly(ops, states, i, k, r, ops[k].at);
  }

  lemma {:induction false} UndisturbedFind(ops: seq<Op>, states: seq<State>, i: nat, n: nat, key: string, r: Record)
    requires Trace(ops, states) && HandlersOnly(ops, states, key) && Sequential(ops, states, key)
    requires i < n <= |ops| && Writes(ops, states, i, key) && Made(states[i], ops[i]) == Some(r)
    requires ops[n - 1].at < r.expiresAt && Undisturbed(ops, states, i, n, key)
    ensures AllFind(ops, states, i, n, key, r)
    decreases n
  {
    if n == i + 1 {
    } else {
      assert ops[n - 2].at <= ops[n - 1].at;
      UndisturbedFind(ops, states, i, n - 1, key, r);
      NoneRunsAfter(ops, states, i, n - 1, key, r);
      if LooksFor(ops[n - 1], key) {
        FoundUnlessLost(ops, states, i, n - 1, key, r);
      }
    }
  }

  /** Sequential handlers of one key: until a recorded result expires all later ones find it, and so the effect
      has run once, exactly when every look is answered and no late deletion loses it. */
  lemma EffectRunsOnceExactly(ops: seq<Op>, states: seq<State>, i: nat, n: nat, key: string, r: Record)
    requires Trace(ops, states) && HandlersOnly(ops, states, key) && Sequential(ops, states, key)
    requires i < n <= |ops| && Writes(ops, states, i, key) && Made(states[i], ops[i]) == Some(r)
    requires ops[n - 1].at < r.expiresAt
    ensures AllFind(ops, states, i, n, key, r) <==> Undisturbed(ops, states, i, n, key)
  {
    if Undisturbed(ops, states, i, n, key) {
      UndisturbedFind(ops, states, i, n, key, r);
    }
    if AllFind(ops, states, i, n, key, r) {
      forall k | i < k < n && LooksFor(ops[k], key)
        ensures ops[k].works && !Lost(ops, states, k, key)
      {
        assert ops[k].at <= ops[n - 1].at;
        NoneRunsAfter(ops, states, i, k, key, r);
        FoundUnlessLost(ops, states, i, k, key, r);
      }
    }
  }

  // ---------------------------------------------------------------- the manager

  /** How the store treats a clean-up's calls for one key: when the read happens, and which calls work. */
  datatype Access = Access(at: int, readWorks: bool, deleteWorks: bool)

  /** What an undisturbed clean-up, begun at `now` with a listing made at `listed`, deletes. */
  function Cleaned(s: Store, listed: int, now: int, access: string -> Access): set<string> {
    set key | key in s && Visible(s, key, listed) && access(key).readWorks && access(key).deleteWorks
              && Overdue(s, key, now, access(key).at)
  }

  /** The store after the two steps of a clean-up of `key`: the read, and the deletion if it decides for one. */
  function CleanedInRun(s: Store, key: string, now: int, access: Access): Store
    requires now <= access.at
  {
    var read := Step(Holding(s), Read(0, key, now, access.at, access.readWorks));
    if 0 in read.pending then Step(read, Delete(0, access.at, access.deleteWorks)).store else read.store
  }

  /** A state with this store in which nothing is under way. */
  function Holding(s: Store): State { EMPTY.(store := s) }

  class IdempotencyManager {
    const keyPrefix: string
    var store: Store

    constructor (keyPrefix: string)
      ensures this.keyPrefix == keyPrefix && store == map[]
    {
      this.keyPrefix, store := keyPrefix, map[];
    }

    /** The clock reads `now`, and the store is reached `latency` later; `ok` is false when it does not answer
        or refuses the expiry. */
    method RecordExecution(key: string, jobId: string, jobName: string, result: string, ttl: Option<int>, now: int,
                           latency: nat, works: bool)
      returns (ok: bool)
      modifies this
      ensures ok <==> works && ttl.GetOr(86400000) > 0
      ensures store == Step(Holding(old(store)), Put(key, jobId, jobName, result, ttl.GetOr(86400000), now,
                                                     now + latency, works)).store
      ensures !ok ==> store == old(store)
      ensures ok ==>
                && store.Keys == old(store).Keys + {key}
                && store[key].record == Record(key, jobId, jobName, result, now, now + ttl.GetOr(86400000))
                && (store[key].hiddenFrom - now - latency) % 1000 == 0
                && ttl.GetOr(86400000) <= store[key].hiddenFrom - now - latency < ttl.GetOr(86400000) + 1000
    {
      var ttlMs := ttl.GetOr(DEFAULT_TTL);
      var record := Record(key, jobId, jobName, result, now, now + ttlMs);
      var ttlSeconds := CeilSeconds(ttlMs);
      if !works || ttlSeconds <= 0 {
        return false;
      }
      store := store[key := Entry(record, now + latency + 1000 * ttlSeconds)];
      return true;
    }

    method GetExecutionResult(key: string, now: int, works: bool) returns (r: Option<Record>)
      ensures r == Answer(store, key, now, works)
    {
      if works && key in store && now < store[key].hiddenFrom {
        return Some(store[key].record);
      }
      return None;
    }

    /** An undisturbed clean-up: delete the records past their expiry and count them. */
    method CleanExpired(listed: int, now: int, listingWorks: bool, access: string -> Access) returns (cleaned: nat)
      modifies this
      ensures store == old(store) - if listingWorks then Cleaned(old(store), listed, now, access) else {}
      ensures cleaned == if listingWorks then |Cleaned(old(store), listed, now, access)| else 0
      ensures forall key :: key in store ==> key in old(store) && store[key] == old(store)[key]
      ensures forall key :: key in old(store) ==>
                var e, a := old(store)[key], access(key);
                key !in store <==> && listingWorks && listed < e.hiddenFrom
                                   && a.readWorks && a.at < e.hiddenFrom && e.record.expiresAt < now && a.deleteWorks
    {
      if !listingWorks {
        return 0;
      }
      var keys := Enumerate(set key | key in store && Visible(store, key, listed));
      cleaned := 0;
      ghost var gone: set<string> := {};
      for k := 0 to |keys|
        invariant gone == set key | key in Cleaned(old(store), listed, now, access) && key in keys[..k]
        invariant store == old(store) - gone && cleaned == |gone|
      {
        assert keys[..k + 1] == keys[..k] + [keys[k]];
        var deleted := CleanKeyIfExpired(keys[k], now, access(keys[k]));
        if deleted {
          gone := gone + {keys[k]};
          cleaned := cleaned + 1;
        }
      }
      assert keys[..|keys|] == keys;
      assert gone == Cleaned(old(store), listed, now, access);
    }

    /** The reading half and the deleting half, with nothing in between. */
    method CleanKeyIfExpired(key: string, now: int, access: Access) returns (deleted: bool)
      modifies this
      ensures deleted <==> access.readWorks && access.deleteWorks && Overdue(old(store), key, now, access.at)
      ensures store == if deleted then old(store) - {key} else old(store)
      ensures now <= access.at ==> store == CleanedInRun(old(store), key, now, access)
    {
      var overdue := ReadForCleaning(key, now, access.at, access.readWorks);
      if !overdue {
        return false;
      }
      deleted := DeleteKey(key, access.deleteWorks);
    }

    /** The decision of `cleanKeyIfExpired`, before it waits for its deletion. */
    method ReadForCleaning(key: string, now: int, at: int, works: bool) returns (overdue: bool)
      ensures overdue <==> works && Overdue(store, key, now, at)
    {
      var data := GetExecutionResult(key, at, works);
      if data == None {
        return false;
      }
      return data.value.expiresAt < now;
    }

    /** The deletion, whatever the key holds by then. */
    method DeleteKey(key: string, works: bool) returns (deleted: bool)
      modifies this
      ensures deleted <==> works
      ensures store == if works then old(store) - {key} else old(store)
    {
      if !works {
        return false;
      }
      store := store - {key};
      return true;
    }

    method ClearKey(key: string, works: bool) returns (ok: bool)
      modifies this
      ensures ok <==> works
      ensures store == if works then old(store) - {key} else old(store)
    {
      ok := DeleteKey(key, works);
    }

    /** The documented handler, undisturbed: look up at `now`, else run the effect and record its result;
        `made` is the time at which the effect has returned.  `None` when the effect or the recording
        throws. */
    method HandleJob(key: string, jobId: string, jobName: string, effect: Option<string>, now: int, made: int,
                     latency: nat, lookWorks: bool, recordWorks: bool)
      returns (result: Option<string>, ran: bool)
      modifies this
      ensures ran <==> !lookWorks || !Visible(old(store), key, now)
      ensures result == if !ran then Some(old(store)[key].record.result) else if recordWorks then effect else None
      ensures var looked := Step(Holding(old(store)), Look(0, key, now, lookWorks));
              if ran
              then
                var settle := Settle(0, jobId, jobName, effect, DEFAULT_TTL, made, made + latency, recordWorks);
                store == Step(looked, settle).store
              else store == looked.store
      ensures !ran || effect == None || !recordWorks ==> store == old(store)
      ensures ran && effect.Some? && recordWorks ==>
                && store.Keys == old(store).Keys + {key}
                && store[key] == Entry(Record(key, jobId, jobName, effect.value, made, made + 86400000),
                                       made + latency + 86400000)
    {
      var cached := GetExecutionResult(key, now, lookWorks);
      if cached.Some? {
        return Some(cached.value.result), false;
      }
      if effect == None {
        return None, true;
      }
      var ok := RecordExecution(key, jobId, jobName, effect.value, None, made, latency, recordWorks);
      return if ok then effect else None, true;
    }
  }
}
