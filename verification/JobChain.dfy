/** Job chains: waiting for the results of parent jobs under one shared deadline, and the workflow
    records kept in the store. */
module JobChain {
  import opened Prelude

  // ---------------------------------------------------------------- waiting for parents

  /** What the store answers for a job's result at a time. */
  type Results = (string, int) -> Option<string>

  const POLL_INTERVAL := 100

  /** An empty string counts as no answer. */
  predicate Present(raw: Option<string>) { raw.Some? && raw.value != "" }

  /** Poll for one result until the deadline: the answer and the time when polling stops. */
  datatype Polled = Polled(result: Option<string>, now: int)

  function Poll(results: Results, parent: string, start: int, timeout: int, now: int): Polled
    decreases start + timeout - now
  {
    if now - start >= timeout then Polled(None, now)
    else if Present(results(parent, now)) then Polled(results(parent, now), now)
    else Poll(results, parent, start, timeout, now + POLL_INTERVAL)
  }

  /** Polling returns what the store holds at the time it stops, before the deadline; without an
      answer it stops at the first poll past the deadline. */
  lemma {:induction false} PollStops(results: Results, parent: string, start: int, timeout: int, now: int)
    ensures var p := Poll(results, parent, start, timeout, now);
            && now <= p.now
            && (p.result.Some? ==>
                  p.now - start < timeout && results(parent, p.now) == p.result && p.result.value != "")
            && (p.result.None? ==> p.now - start >= timeout)
            && (now - start < timeout ==> p.now - start < timeout + 100)
            && (now - start >= timeout ==> p.now == now)
    decreases start + timeout - now
  {
    if now - start >= timeout || Present(results(parent, now)) {
    } else {
      PollStops(results, parent, start, timeout, now + POLL_INTERVAL);
    }
  }

  /** A poll that finds nothing has looked at every polling time before the deadline. */
  lemma {:induction false} PollLooks(results: Results, parent: string, start: int, timeout: int, now: int, k: nat)
    requires now + POLL_INTERVAL * k - start < timeout
    requires Present(results(parent, now + POLL_INTERVAL * k))
    ensures Poll(results, parent, start, timeout, now).result.Some?
    ensures Poll(results, parent, start, timeout, now).now <= now + POLL_INTERVAL * k
    decreases k
  {
    if k == 0 || Present(results(parent, now)) {
    } else {
      PollLooks(results, parent, start, timeout, now + POLL_INTERVAL, k - 1);
    }
  }

  datatype Waited = Waited(found: map<string, string>, now: int)

  /** The first `k` dependencies, one after the other, all against the deadline start + timeout. */
  function WaitAll(results: Results, parents: seq<string>, timeout: int, start: int, k: nat): Waited
    requires k <= |parents|
  {
    if k == 0 then Waited(map[], start)
    else
      var before := WaitAll(results, parents, timeout, start, k - 1);
      var p := Poll(results, parents[k - 1], start, timeout, before.now);
      Waited(if p.result.Some? then before.found[parents[k - 1] := p.result.value] else before.found, p.now)
  }

  /** However many dependencies there are, waiting ends less than one interval of 100 ms after the deadline. */
  lemma {:induction false} WaitingIsBounded(results: Results, parents: seq<string>, timeout: int, start: int, k: nat)
    requires k <= |parents|
    ensures var w := WaitAll(results, parents, timeout, start, k);
            start <= w.now && (if timeout > 0 then w.now - start < timeout + 100 else w.now == start)
  {
    if k == 0 {
    } else {
      WaitingIsBounded(results, parents, timeout, start, k - 1);
      PollStops(results, parents[k - 1], start, timeout, WaitAll(results, parents, timeout, start, k - 1).now);
    }
  }

  /** Every returned entry is a declared parent with a value that the store held while waiting. */
  lemma {:induction false} FoundIsHeld(results: Results, parents: seq<string>, timeout: int, start: int,
                                       k: nat, key: string)
    returns (at: int)
    requires k <= |parents| && key in WaitAll(results, parents, timeout, start, k).found
    ensures key in parents[..k]
    ensures start <= at <= WaitAll(results, parents, timeout, start, k).now && at - start < timeout
    ensures results(key, at) == Some(WaitAll(results, parents, timeout, start, k).found[key])
  {
    var before := WaitAll(results, parents, timeout, start, k - 1);
    var p := Poll(results, parents[k - 1], start, timeout, before.now);
    PollStops(results, parents[k - 1], start, timeout, before.now);
    WaitingIsBounded(results, parents, timeout, start, k - 1);
    if p.result.Some? && key == parents[k - 1] {
      at := p.now;
    } else {
      at := FoundIsHeld(results, parents, timeout, start, k - 1, key);
      assert parents[..k] == parents[..k - 1] + [parents[k - 1]];
    }
  }

  /** If every result exists at the start and the timeout is positive, all are returned, and no time
      is spent. */
  lemma {:induction false} PresentResultsAtOnce(results: Results, parents: seq<string>, timeout: int, start: int,
                                                k: nat)
    requires k <= |parents| && timeout > 0
    requires forall parent :: parent in parents ==> Present(results(parent, start))
    ensures var w := WaitAll(results, parents, timeout, start, k);
            && w.now == start
            && (forall key :: key in w.found <==> key in parents[..k])
            && forall key :: key in w.found ==> results(key, start) == Some(w.found[key])
  {
    if k == 0 {
    } else {
      PresentResultsAtOnce(results, parents, timeout, start, k - 1);
      assert parents[k - 1] in parents;
      assert parents[..k] == parents[..k - 1] + [parents[k - 1]];
    }
  }

  /** The number of leading dependencies, among the first `k`, that get an answer. */
  function Answered(results: Results, parents: seq<string>, timeout: int, start: int, k: nat): (n: nat)
    requires k <= |parents|
    ensures n <= k
  {
    if k == 0 then 0
    else
      var n := Answered(results, parents, timeout, start, k - 1);
      var before := WaitAll(results, parents, timeout, start, k - 1);
      if n == k - 1 && Poll(results, parents[k - 1], start, timeout, before.now).result.Some? then k else n
  }

  /** The returned parents are exactly those before the first dependency that times out: the deadline
      is shared, so after a timeout even results that are already there are not looked at. */
  lemma {:induction false} ReturnsAnsweredPrefix(results: Results, parents: seq<string>, timeout: int, start: int,
                                                 k: nat)
    requires k <= |parents|
    ensures var n := Answered(results, parents, timeout, start, k);
            var w := WaitAll(results, parents, timeout, start, k);
            && (forall key :: key in w.found <==> key in parents[..n])
            && (n < k ==> w.now - start >= timeout)
  {
    if k == 0 {
    } else {
      ReturnsAnsweredPrefix(results, parents, timeout, start, k - 1);
      var before := WaitAll(results, parents, timeout, start, k - 1);
      PollStops(results, parents[k - 1], start, timeout, before.now);
      var n := Answered(results, parents, timeout, start, k - 1);
      if n == k - 1 {
        assert parents[..k] == parents[..k - 1] + [parents[k - 1]];
      }
    }
  }

  lemma {:induction false} BeforeDeadline(results: Results, parents: seq<string>, timeout: int, start: int, k: nat)
    requires k <= |parents| && timeout > 0 && Answered(results, parents, timeout, start, k) == k
    ensures WaitAll(results, parents, timeout, start, k).now - start < timeout
  {
    if k > 0 {
      PollStops(results, parents[k - 1], start, timeout, WaitAll(results, parents, timeout, start, k - 1).now);
    }
  }

  // ---------------------------------------------------------------- results that stay

  /** The last polling time before the deadline, for polls every 100 ms. */
  function LastPoll(start: int, timeout: int): int
    requires timeout > 0
  {
    start + 100 * ((timeout - 1) / 100)
  }

  predicate PollingTime(start: int, t: int) { t >= start && (t - start) % POLL_INTERVAL == 0 }

  lemma {:induction false} PollsAtPollingTimes(results: Results, parent: string, start: int, timeout: int, now: int)
    requires PollingTime(start, now)
    ensures PollingTime(start, Poll(results, parent, start, timeout, now).now)
    decreases start + timeout - now
  {
    if now - start >= timeout || Present(results(parent, now)) {
    } else {
      PollsAtPollingTimes(results, parent, start, timeout, now + POLL_INTERVAL);
    }
  }

  lemma {:induction false} WaitsAtPollingTimes(results: Results, parents: seq<string>, timeout: int, start: int, k: nat)
    requires k <= |parents|
    ensures PollingTime(start, WaitAll(results, parents, timeout, start, k).now)
  {
    if k == 0 {
    } else {
      WaitsAtPollingTimes(results, parents, timeout, start, k - 1);
      var before := WaitAll(results, parents, timeout, start, k - 1);
      PollsAtPollingTimes(results, parents[k - 1], start, timeout, before.now);
    }
  }

  /** Once a result is there, it stays. */
  ghost predicate Stays(results: Results) {
    forall parent, t, t' :: t <= t' && Present(results(parent, t)) ==> Present(results(parent, t'))
  }

  /** A poll that starts before the deadline succeeds exactly when the result is there at the last poll. */
  lemma PollFindsExactly(results: Results, parent: string, start: int, timeout: int, now: int)
    requires Stays(results) && timeout > 0 && PollingTime(start, now) && now - start < timeout
    ensures Poll(results, parent, start, timeout, now).result.Some? <==>
            results(parent, LastPoll(start, timeout)) != None && results(parent, LastPoll(start, timeout)) != Some("")
  {
    var last, p := LastPoll(start, timeout), Poll(results, parent, start, timeout, now);
    PollStops(results, parent, start, timeout, now);
    PollsAtPollingTimes(results, parent, start, timeout, now);
    if Present(results(parent, last)) {
      var k := (last - start) / POLL_INTERVAL - (now - start) / POLL_INTERVAL;
      assert last == now + POLL_INTERVAL * k;
      PollLooks(results, parent, start, timeout, now, k);
    }
  }

  /** The answered parents are those before the first whose result is not there at the last poll. */
  lemma {:induction false} AnsweredExactly(results: Results, parents: seq<string>, timeout: int, start: int, k: nat)
    requires Stays(results) && timeout > 0 && k <= |parents|
    ensures var n, last := Answered(results, parents, timeout, start, k), LastPoll(start, timeout);
            && (forall g :: 0 <= g < n ==> Present(results(parents[g], last)))
            && (n < k ==> !Present(results(parents[n], last)))
  {
    if k == 0 {
    } else {
      AnsweredExactly(results, parents, timeout, start, k - 1);
      if Answered(results, parents, timeout, start, k - 1) == k - 1 {
        BeforeDeadline(results, parents, timeout, start, k - 1);
        WaitsAtPollingTimes(results, parents, timeout, start, k - 1);
        PollFindsExactly(results, parents[k - 1], start, timeout, WaitAll(results, parents, timeout, start, k - 1).now);
      }
    }
  }

  /** For results that stay, a parent is returned exactly when its result, and those of all parents declared
      before it, are there at the last poll before the shared deadline. */
  lemma ReturnedExactly(results: Results, parents: seq<string>, timeout: int, start: int, key: string)
    requires Stays(results) && timeout > 0
    ensures key in WaitAll(results, parents, timeout, start, |parents|).found <==>
            exists h :: && 0 <= h < |parents| && parents[h] == key
                        && AllPresent(results, parents, h, LastPoll(start, timeout))
  {
    var n := Answered(results, parents, timeout, start, |parents|);
    ReturnsAnsweredPrefix(results, parents, timeout, start, |parents|);
    AnsweredExactly(results, parents, timeout, start, |parents|);
    if key in parents[..n] {
      var h :| 0 <= h < n && parents[h] == key;
      assert AllPresent(results, parents, h, LastPoll(start, timeout));
    }
    if h :| 0 <= h < |parents| && parents[h] == key && AllPresent(results, parents, h, LastPoll(start, timeout)) {
      assert h < n;
      assert parents[..n][h] == key;
    }
  }

  predicate AllPresent(results: Results, parents: seq<string>, h: nat, t: int)
    requires h < |parents|
  {
    forall g :: 0 <= g <= h ==> Present(results(parents[g], t))
  }

  /** So a result that is there all the time is missed exactly when that of a parent declared earlier is not
      there at the last poll. */
  lemma PresentResultIsMissed(results: Results, parents: seq<string>, timeout: int, start: int, i: nat)
    requires Stays(results) && timeout > 0 && i < |parents| && forall h :: 0 <= h < i ==> parents[h] != parents[i]
    requires forall t :: Present(results(parents[i], t))
    ensures parents[i] !in WaitAll(results, parents, timeout, start, |parents|).found <==>
            exists g :: 0 <= g < i && !Present(results(parents[g], LastPoll(start, timeout)))
  {
    ReturnedExactly(results, parents, timeout, start, parents[i]);
    var last := LastPoll(start, timeout);
    if h :| 0 <= h < |parents| && parents[h] == parents[i] && AllPresent(results, parents, h, last) {
      assert h >= i;
    }
    if forall g :: 0 <= g < i ==> Present(results(parents[g], last)) {
      assert AllPresent(results, parents, i, last);
    }
  }

  // ---------------------------------------------------------------- workflow records

  datatype Status = Running | Completed | Failed | Cancelled

  datatype StepResult = StepResult(failed: bool, result: Option<string>, error: Option<string>)

  /** Insertion-ordered map: a list of entries with distinct keys. */
  type Entries = seq<(string, StepResult)>

  predicate DistinctKeys(entries: Entries) {
    forall i, j :: 0 <= i < j < |entries| ==> entries[i].0 != entries[j].0
  }

  /** Setting a key replaces its value in place, or appends the entry. */
  function Set(entries: Entries, key: string, value: StepResult): Entries {
    if entries == [] then [(key, value)]
    else if entries[0].0 == key then [(key, value)] + entries[1..]
    else [entries[0]] + Set(entries[1..], key, value)
  }

  datatype Workflow = Workflow(
    workflowId: string,
    status: Status,
    stepResults: Entries,
    error: Option<string>,
    startedAt: int,
    completedAt: Option<int>)

  /** The stored form: the same fields, with the map as a plain list of entries. */
  datatype Stored = Stored(
    workflowId: string,
    status: Option<Status>,
    stepResults: Option<seq<(string, StepResult)>>,
    error: Option<string>,
    startedAt: Option<int>,
    completedAt: Option<int>)

  function Serialize(w: Workflow): Stored {
    Stored(w.workflowId, Some(w.status), Some(w.stepResults), w.error, Some(w.startedAt), w.completedAt)
  }

  function Rebuild(list: seq<(string, StepResult)>, n: nat): Entries
    requires n <= |list|
  {
    if n == 0 then [] else Set(Rebuild(list, n - 1), list[n - 1].0, list[n - 1].1)
  }

  /** Zero times and an empty message are read as absent. */
  function Deserialize(s: Stored, now: int): Workflow {
    Workflow(
      s.workflowId,
      s.status.GetOr(Running),
      if s.stepResults.Some? then Rebuild(s.stepResults.value, |s.stepResults.value|) else [],
      if s.error == Some("") then None else s.error,
      if s.startedAt.None? || s.startedAt.value == 0 then now else s.startedAt.value,
      if s.completedAt == Some(0) then None else s.completedAt)
  }

  lemma {:induction false} SetAppends(entries: Entries, key: string, value: StepResult)
    requires forall i :: 0 <= i < |entries| ==> entries[i].0 != key
    ensures Set(entries, key, value) == entries + [(key, value)]
  {
    if entries == [] {
    } else {
      SetAppends(entries[1..], key, value);
    }
  }

  /** After setting, the key has the new value and no other, and the other entries are as before. */
  lemma {:induction false} SetExactly(entries: Entries, key: string, value: StepResult)
    requires DistinctKeys(entries)
    ensures DistinctKeys(Set(entries, key, value))
    ensures forall e :: e in Set(entries, key, value) <==> e == (key, value) || (e in entries && e.0 != key)
  {
    if entries == [] {
    } else {
      var rest := Set(entries[1..], key, value);
      SetExactly(entries[1..], key, value);
      if entries[0].0 == key {
        assert forall e :: e in entries[1..] ==> e.0 != key;
      } else {
        assert forall i :: 0 <= i < |rest| ==> rest[i] in rest && rest[i].0 != entries[0].0;
      }
    }
  }

  /** Rebuilt from any list of entries, a key has its last value. */
  lemma {:induction false} RebuildLastWins(list: seq<(string, StepResult)>, n: nat)
    requires n <= |list|
    ensures DistinctKeys(Rebuild(list, n))
    ensures forall e :: e in Rebuild(list, n) <==> IsLast(list, n, e)
  {
    if n == 0 {
    } else {
      RebuildLastWins(list, n - 1);
      SetExactly(Rebuild(list, n - 1), list[n - 1].0, list[n - 1].1);
      forall e
        ensures IsLast(list, n, e) <==> e == list[n - 1] || (IsLast(list, n - 1, e) && e.0 != list[n - 1].0)
      {
        LastWithOneMore(list, n, e);
      }
    }
  }

  lemma LastWithOneMore(list: seq<(string, StepResult)>, n: nat, e: (string, StepResult))
    requires 0 < n <= |list|
    ensures IsLast(list, n, e) <==> e == list[n - 1] || (IsLast(list, n - 1, e) && e.0 != list[n - 1].0)
  {
    if e == list[n - 1] {
      assert LastOfKey(list, n - 1, n);
    } else if IsLast(list, n - 1, e) && e.0 != list[n - 1].0 {
      var i :| 0 <= i < n - 1 && list[i] == e && LastOfKey(list, i, n - 1);
      assert LastOfKey(list, i, n);
    }
    if i :| 0 <= i < n && list[i] == e && LastOfKey(list, i, n) {
      assert i < n - 1 ==> LastOfKey(list, i, n - 1);
    }
  }

  /** `e` is the last of the first `n` entries to have its key. */
  ghost predicate IsLast(list: seq<(string, StepResult)>, n: nat, e: (string, StepResult))
    requires n <= |list|
  {
    exists i :: 0 <= i < n && list[i] == e && LastOfKey(list, i, n)
  }

  predicate LastOfKey(list: seq<(string, StepResult)>, i: nat, n: nat)
    requires i < n <= |list|
  {
    forall j :: i < j < n ==> list[j].0 != list[i].0
  }

  lemma {:induction false} RebuildIsSame(entries: Entries, n: nat)
    requires n <= |entries| && DistinctKeys(entries)
    ensures Rebuild(entries, n) == entries[..n]
  {
    if n == 0 {
    } else {
      RebuildIsSame(entries, n - 1);
      SetAppends(entries[..n - 1], entries[n - 1].0, entries[n - 1].1);
      assert entries[..n] == entries[..n - 1] + [entries[n - 1]];
    }
  }

  /** Reading back a stored workflow gives it back exactly when its start time is not zero (or the
      clock reads zero), its completion time is not zero and its error message not empty. */
  lemma RoundTripExactly(w: Workflow, now: int)
    requires DistinctKeys(w.stepResults)
    ensures ReadBack(w, now) == w <==> Legible(w, now)
  {
    RebuildIsSame(w.stepResults, |w.stepResults|);
    assert w.stepResults[..|w.stepResults|] == w.stepResults;
  }

  /** Field by field: what is read back differs from what was stored only in a start time of zero, which is read
      as now, and a completion time of zero or an empty error message, which are read as none. */
  lemma ReadBackFields(w: Workflow, now: int)
    requires DistinctKeys(w.stepResults)
    ensures var r := ReadBack(w, now);
            && r.workflowId == w.workflowId && r.status == w.status && r.stepResults == w.stepResults
            && r.startedAt == (if w.startedAt == 0 then now else w.startedAt)
            && r.completedAt == (if w.completedAt == Some(0) then None else w.completedAt)
            && r.error == (if w.error == Some("") then None else w.error)
  {
    RebuildIsSame(w.stepResults, |w.stepResults|);
    assert w.stepResults[..|w.stepResults|] == w.stepResults;
  }

  /** Fields that are missing from a stored record are read as a running workflow without steps, begun now. */
  lemma MissingFields(id: string, now: int)
    ensures Deserialize(Stored(id, None, None, None, None, None), now) == Workflow(id, Running, [], None, now, None)
  {
  }

  datatype Result<+T> = Ok(value: T) | InvalidId | EmptySteps | NotFound | Unreachable

  /** What a read at time `now` makes of a stored workflow. */
  function ReadBack(w: Workflow, now: int): Workflow { Deserialize(Serialize(w), now) }

  /** No field of the stored form is read as absent. */
  predicate Legible(w: Workflow, now: int) {
    (w.startedAt != 0 || now == 0) && w.completedAt != Some(0) && w.error != Some("")
  }

  class JobChainManager {
    var workflows: map<string, Stored>

    /** The workflows as last written. */
    ghost var written: map<string, Workflow>

    ghost predicate Valid()
      reads this
    {
      && workflows.Keys == written.Keys
      && forall id :: id in written ==> workflows[id] == Serialize(written[id]) && DistinctKeys(written[id].stepResults)
    }

    constructor ()
      ensures Valid() && written == map[]
    {
      workflows, written := map[], map[];
    }

    method ExecuteWorkflow(id: string, stepCount: nat, now: int, reachable: bool) returns (r: Result<Workflow>)
      requires Valid()
      modifies this
      ensures Valid()
      ensures r == if Blank(id) then InvalidId else if stepCount == 0 then EmptySteps
                   else if !reachable then Unreachable
                   else Ok(Workflow(id, Running, [], None, now, None))
      ensures written == if r.Ok? then old(written)[id := r.value] else old(written)
    {
      if Blank(id) {
        return InvalidId;
      }
      if stepCount == 0 {
        return EmptySteps;
      }
      if !reachable {
        return Unreachable;
      }
      var w := Workflow(id, Running, [], None, now, None);
      workflows := workflows[id := Serialize(w)];
      written := written[id := w];
      return Ok(w);
    }

    method GetWorkflowStatus(id: string, now: int, reachable: bool) returns (r: Result<Workflow>)
      requires Valid()
      ensures r == if !reachable then Unreachable
                   else if id in written then Ok(ReadBack(written[id], now)) else NotFound
      ensures reachable && id in written ==> (r == Ok(written[id]) <==> Legible(written[id], now))
    {
      if !reachable {
        return Unreachable;
      }
      if id !in workflows {
        return NotFound;
      }
      RoundTripExactly(written[id], now);
      return Ok(Deserialize(workflows[id], now));
    }

    method CancelWorkflow(id: string, now: int, readWorks: bool, writeWorks: bool) returns (r: Result<()>)
      requires Valid()
      modifies this
      ensures Valid()
      ensures r == if !readWorks then Unreachable else if id !in old(written) then NotFound
                   else if !writeWorks then Unreachable else Ok(())
      ensures r != Ok(()) ==> written == old(written)
      ensures r == Ok(()) ==>
                var read := ReadBack(old(written)[id], now);
                written == old(written)[id := read.(status := Cancelled, completedAt := Some(now))]
      ensures r == Ok(()) && Legible(old(written)[id], now) ==>
                written[id] == old(written)[id].(status := Cancelled, completedAt := Some(now))
    {
      var w := GetWorkflowStatus(id, now, readWorks);
      if !w.Ok? {
        return if readWorks then NotFound else Unreachable;
      }
      if !writeWorks {
        return Unreachable;
      }
      var cancelled := w.value.(status := Cancelled, completedAt := Some(now));
      RebuildIsSame(written[id].stepResults, |written[id].stepResults|);
      assert written[id].stepResults[..|written[id].stepResults|] == written[id].stepResults;
      workflows := workflows[id := Serialize(cancelled)];
      written := written[id := cancelled];
      return Ok(());
    }

    /** Polling with a clock: reads take no time, each sleep takes one interval. */
    method WaitForDependencyResult(results: Results, parent: string, start: int, timeout: int, now: int)
      returns (result: Option<string>, finished: int)
      ensures Polled(result, finished) == Poll(results, parent, start, timeout, now)
    {
      finished := now;
      while finished - start < timeout
        invariant Poll(results, parent, start, timeout, finished) == Poll(results, parent, start, timeout, now)
        decreases start + timeout - finished
      {
        var raw := results(parent, finished);
        if Present(raw) {
          return raw, finished;
        }
        finished := finished + POLL_INTERVAL;
      }
      return None, finished;
    }

    /** `dependencies` is what reading the declared parents gives: `None` when there is no record of them or
        the read fails. */
    method WaitForDependencies(results: Results, dependencies: Option<seq<string>>, timeout: int, start: int)
      returns (found: map<string, string>, finished: int)
      ensures var parents := dependencies.GetOr([]);
              Waited(found, finished) == WaitAll(results, parents, timeout, start, |parents|)
    {
      var parents := dependencies.GetOr([]);
      found, finished := map[], start;
      for k := 0 to |parents|
        invariant Waited(found, finished) == WaitAll(results, parents, timeout, start, k)
      {
        var result;
        result, finished := WaitForDependencyResult(results, parents[k], start, timeout, finished);
        if result.Some? {
          found := found[parents[k] := result.value];
        }
      }
    }
  }
}
