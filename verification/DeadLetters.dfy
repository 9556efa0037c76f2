/** Replaying failed jobs: the DLQ manager, which treats the failed jobs of the primary queue as the
    dead letters, and the older replay of `JobQueue`, which keeps a second queue of wrapped jobs. */
module DeadLetters {
  import opened Prelude

  /** A job's data: its own, or the wrapper that `moveJobToDLQ` puts around a failed job. */
  datatype Data =
    | Plain(content: string)
    | DeadLetter(originalJobId: nat, originalData: Data, attempts: nat, error: string)

  datatype Payload = Payload(name: string, data: Data)

  datatype Job = Job(id: nat, payload: Payload)

  /** The waiting and the failed jobs of a queue; `nextId` is the id the next added job gets. */
  datatype Queue = Queue(waiting: seq<Job>, failed: seq<Job>, nextId: nat)

  function Payloads(jobs: seq<Job>): (work: multiset<Payload>) {
    if jobs == [] then multiset{}
    else multiset{jobs[0].payload} + Payloads(jobs[1..])
  }

  function Work(q: Queue): multiset<Payload> { Payloads(q.waiting) + Payloads(q.failed) }

  function Size(q: Queue): nat { |q.waiting| + |q.failed| }

  lemma {:induction false} PayloadsConcat(a: seq<Job>, b: seq<Job>)
    ensures Payloads(a + b) == Payloads(a) + Payloads(b)
  {
    if a == [] {
      assert a + b == b;
    } else {
      calc {
        Payloads(a + b);
        { assert (a + b)[1..] == a[1..] + b; }
        multiset{a[0].payload} + Payloads(a[1..] + b);
        { PayloadsConcat(a[1..], b); }
        multiset{a[0].payload} + (Payloads(a[1..]) + Payloads(b));
        Payloads(a) + Payloads(b);
      }
    }
  }

  // ---------------------------------------------------------------- queue operations

  function FindIn(jobs: seq<Job>, id: nat): Option<Job> {
    if jobs == [] then None
    else if jobs[0].id == id then Some(jobs[0])
    else FindIn(jobs[1..], id)
  }

  /** A job is found exactly when one has the id, and it is one that has it. */
  lemma {:induction false} FindsById(jobs: seq<Job>, id: nat)
    ensures FindIn(jobs, id).Some? <==> exists job :: job in jobs && job.id == id
    ensures FindIn(jobs, id).Some? ==> FindIn(jobs, id).value in jobs && FindIn(jobs, id).value.id == id
  {
    if jobs == [] {
    } else {
      FindsById(jobs[1..], id);
      assert forall job :: job in jobs <==> job == jobs[0] || job in jobs[1..];
    }
  }

  /** The job with this id, whatever its state. */
  function GetJob(q: Queue, id: nat): Option<Job> {
    match FindIn(q.failed, id)
    case Some(job) => Some(job)
    case None => FindIn(q.waiting, id)
  }

  function Add(q: Queue, p: Payload): Queue {
    q.(waiting := q.waiting + [Job(q.nextId, p)], nextId := q.nextId + 1)
  }

  /** The position that `pick` names among `n` jobs; out of range it names the first. */
  function Position(pick: nat, n: nat): nat { if pick < n then pick else 0 }

  /** Cleaning one failed job; `pick` says which one the queue takes. */
  function CleanOne(q: Queue, pick: nat): Queue {
    if q.failed == [] then q
    else
      var k := Position(pick, |q.failed|);
      q.(failed := q.failed[..k] + q.failed[k + 1..])
  }

  function Cleaned(q: Queue, pick: nat): Job
    requires q.failed != []
  {
    q.failed[Position(pick, |q.failed|)]
  }

  /** The elements 0..end of a listing, inclusive, a negative `end` counting from the back. */
  function Range<T>(items: seq<T>, end: int): (r: seq<T>)
    ensures r <= items
  {
    var stop := if end >= 0 then end + 1 else |items| + end + 1;
    items[..if stop < 0 then 0 else if stop > |items| then |items| else stop]
  }

  // ---------------------------------------------------------------- replaying one job

  /** What the queue does during one `replayJob`: everything works and `clean` takes job `pick`, or
      one of the three calls throws. */
  datatype Outcome = Works(pick: nat) | LookupThrows | AddThrows | CleanThrows

  function Replay(q: Queue, id: nat, o: Outcome): Queue {
    match GetJob(q, id)
    case None => q
    case Some(job) =>
      match o
      case LookupThrows => q
      case AddThrows => q
      case CleanThrows => Add(q, job.payload)
      case Works(pick) => CleanOne(Add(q, job.payload), pick)
  }

  predicate Replays(q: Queue, id: nat, o: Outcome) {
    GetJob(q, id).Some? && o.Works?
  }

  lemma AddWork(q: Queue, p: Payload)
    ensures Work(Add(q, p)) == Work(q) + multiset{p}
  {
    PayloadsConcat(q.waiting, [Job(q.nextId, p)]);
    assert [Job(q.nextId, p)][1..] == [];
  }

  lemma CleanWork(q: Queue, pick: nat)
    requires q.failed != []
    ensures Work(q) == Work(CleanOne(q, pick)) + multiset{Cleaned(q, pick).payload}
  {
    var k := Position(pick, |q.failed|);
    var before, after := q.failed[..k], q.failed[k + 1..];
    assert q.failed == before + ([q.failed[k]] + after);
    PayloadsConcat(before, [q.failed[k]] + after);
    assert ([q.failed[k]] + after)[1..] == after;
    PayloadsConcat(before, after);
  }

  /** A replay leaves the queue's work as it is exactly when it finds no job or throws before adding one, or
      when `clean` takes a failed job with the name and data of the one replayed. */
  predicate Conserves(q: Queue, id: nat, o: Outcome) {
    match GetJob(q, id)
    case None => true
    case Some(job) =>
      o.LookupThrows? || o.AddThrows? ||
      (o.Works? && q.failed != [] && Cleaned(q, o.pick).payload == job.payload)
  }

  lemma ReplayConservesExactly(q: Queue, id: nat, o: Outcome)
    ensures Work(Replay(q, id, o)) == Work(q) <==> Conserves(q, id, o)
    ensures Size(Replay(q, id, o)) == Size(q) <==>
            GetJob(q, id) == None || o.LookupThrows? || o.AddThrows? || (o.Works? && q.failed != [])
  {
    if GetJob(q, id).Some? && (o.Works? || o.CleanThrows?) {
      var p := GetJob(q, id).value.payload;
      var added := Add(q, p);
      AddWork(q, p);
      if o.Works? && q.failed != [] {
        CleanWork(added, o.pick);
        Exchange(Work(CleanOne(added, o.pick)), Work(q), Cleaned(added, o.pick).payload, p);
      } else {
        assert Work(added)[p] == Work(q)[p] + 1;
      }
    }
  }

  /** The replay of a waiting job, with nothing failed, adds a copy of it and removes nothing. */
  lemma WaitingJobIsDoubled(p: Payload, pick: nat) returns (q: Queue)
    ensures Work(q) == multiset{p} && Work(Replay(q, 0, Works(pick))) == multiset{p, p}
  {
    q := Queue([Job(0, p)], [], 1);
    OneJob(Job(0, p));
    AddWork(q, p);
    assert Payloads([]) == multiset{};
  }

  lemma Exchange<T>(after: multiset<T>, before: multiset<T>, removed: T, added: T)
    requires after + multiset{removed} == before + multiset{added}
    ensures after == before <==> removed == added
  {
    if removed == added {
      assert after == (after + multiset{removed}) - multiset{removed};
      assert before == (before + multiset{added}) - multiset{added};
    } else {
      assert (after + multiset{removed})[removed] == after[removed] + 1;
      assert (before + multiset{added})[removed] == before[removed];
    }
  }

  /** One call of `replayJob`: the id asked for, and what the queue does. */
  datatype Call = Call(id: nat, outcome: Outcome)

  function Perform(q: Queue, c: Call): Queue { Replay(q, c.id, c.outcome) }

  predicate Succeeds(q: Queue, c: Call) { Replays(q, c.id, c.outcome) }

  /** The job is added, and then `clean` throws: it is there twice. */
  predicate Duplicates(q: Queue, c: Call) { GetJob(q, c.id).Some? && c.outcome.CleanThrows? }

  // ---------------------------------------------------------------- replaying the whole list

  /** The calls that replay the listed jobs; `o(i)` is what the queue does during the i-th. */
  function CallsFor(jobs: seq<Job>, o: nat -> Outcome): (calls: seq<Call>)
    ensures |calls| == |jobs|
    ensures forall i :: 0 <= i < |calls| ==> calls[i] == Call(jobs[i].id, o(i))
  {
    seq(|jobs|, i requires 0 <= i < |jobs| => Call(jobs[i].id, o(i)))
  }

  /** The queue after the first `k` calls. */
  function ReplayAll(q: Queue, calls: seq<Call>, k: nat): Queue
    requires k <= |calls|
  {
    if k == 0 then q else Perform(ReplayAll(q, calls, k - 1), calls[k - 1])
  }

  /** How many of them report success. */
  function Count(q: Queue, calls: seq<Call>, k: nat): (n: nat)
    requires k <= |calls|
    ensures n <= k
  {
    if k == 0 then 0
    else Count(q, calls, k - 1) + if Succeeds(ReplayAll(q, calls, k - 1), calls[k - 1]) then 1 else 0
  }

  /** How many of them leave a duplicate behind. */
  function Duplicated(q: Queue, calls: seq<Call>, k: nat): nat
    requires k <= |calls|
  {
    if k == 0 then 0
    else Duplicated(q, calls, k - 1) + if Duplicates(ReplayAll(q, calls, k - 1), calls[k - 1]) then 1 else 0
  }

  /** The last of the first `k` calls takes the queue from `before` to `after`. */
  lemma ReplayNext(q: Queue, calls: seq<Call>, k: nat, before: Queue, after: Queue)
    requires 0 < k <= |calls|
    requires before == ReplayAll(q, calls, k - 1) && after == Perform(before, calls[k - 1])
    ensures ReplayAll(q, calls, k) == after
    ensures Count(q, calls, k) == Count(q, calls, k - 1) + if Succeeds(before, calls[k - 1]) then 1 else 0
  {
  }

  /** For every order in which `clean` takes jobs and every pattern of failing calls, the number of
      jobs grows by exactly the duplicates that a throwing `clean` leaves behind; none is lost. */
  lemma {:induction false} CountIsConserved(q: Queue, calls: seq<Call>, k: nat)
    requires k <= |calls| <= |q.failed|
    ensures Size(ReplayAll(q, calls, k)) == Size(q) + Duplicated(q, calls, k)
    ensures |ReplayAll(q, calls, k).failed| == |q.failed| - Count(q, calls, k)
  {
    if k == 0 {
    } else {
      CountIsConserved(q, calls, k - 1);
    }
  }

  /** Calls that each conserve the work conserve it together, whatever `clean` takes. */
  lemma {:induction false} AllConserve(q: Queue, calls: seq<Call>, k: nat)
    requires k <= |calls|
    requires forall i :: 0 <= i < k ==> ConservesAt(q, calls, i)
    ensures Work(ReplayAll(q, calls, k)) == Work(q)
  {
    if k == 0 {
    } else {
      AllConserve(q, calls, k - 1);
      assert ConservesAt(q, calls, k - 1);
      ReplayConservesExactly(ReplayAll(q, calls, k - 1), calls[k - 1].id, calls[k - 1].outcome);
    }
  }

  // ---------------------------------------------------------------- the balance of a whole replay

  /** What a call adds to the work, and what `clean` takes from it. */
  function AddedBy(q: Queue, c: Call): multiset<Payload> {
    match GetJob(q, c.id)
    case None => multiset{}
    case Some(job) => if c.outcome.Works? || c.outcome.CleanThrows? then multiset{job.payload} else multiset{}
  }

  function RemovedBy(q: Queue, c: Call): multiset<Payload> {
    if GetJob(q, c.id).Some? && c.outcome.Works? && q.failed != []
    then multiset{Cleaned(q, c.outcome.pick).payload} else multiset{}
  }

  lemma PerformBalances(q: Queue, c: Call)
    ensures Work(Perform(q, c)) + RemovedBy(q, c) == Work(q) + AddedBy(q, c)
  {
    var job := GetJob(q, c.id);
    if job == None || c.outcome.LookupThrows? || c.outcome.AddThrows? {
      assert Perform(q, c) == q;
    } else {
      var added := Add(q, job.value.payload);
      AddWork(q, job.value.payload);
      if c.outcome.Works? && q.failed != [] {
        CleanWork(added, c.outcome.pick);
      } else {
        assert Perform(q, c) == added;
      }
    }
  }

  function AllAdded(q: Queue, calls: seq<Call>, k: nat): multiset<Payload>
    requires k <= |calls|
  {
    if k == 0 then multiset{} else AllAdded(q, calls, k - 1) + AddedBy(ReplayAll(q, calls, k - 1), calls[k - 1])
  }

  function AllRemoved(q: Queue, calls: seq<Call>, k: nat): multiset<Payload>
    requires k <= |calls|
  {
    if k == 0 then multiset{} else AllRemoved(q, calls, k - 1) + RemovedBy(ReplayAll(q, calls, k - 1), calls[k - 1])
  }

  lemma Chain<T>(w0: multiset<T>, w1: multiset<T>, w2: multiset<T>, r1: multiset<T>, a1: multiset<T>, r2: multiset<T>,
                 a2: multiset<T>)
    requires w1 + r1 == w0 + a1 && w2 + r2 == w1 + a2
    ensures w2 + (r1 + r2) == w0 + (a1 + a2)
  {
    calc {
      w2 + (r1 + r2);
      (w2 + r2) + r1;
      (w1 + r1) + a2;
      w0 + (a1 + a2);
    }
  }

  /** Whatever the queue does, the work after the calls and what they removed is the work before and what they
      added. */
  lemma {:induction false} ReplayBalances(q: Queue, calls: seq<Call>, k: nat)
    requires k <= |calls|
    ensures Work(ReplayAll(q, calls, k)) + AllRemoved(q, calls, k) == Work(q) + AllAdded(q, calls, k)
  {
    if k == 0 {
    } else {
      var before := ReplayAll(q, calls, k - 1);
      ReplayBalances(q, calls, k - 1);
      PerformBalances(before, calls[k - 1]);
      Chain(Work(q), Work(before), Work(ReplayAll(q, calls, k)), AllRemoved(q, calls, k - 1), AllAdded(q, calls, k - 1),
            RemovedBy(before, calls[k - 1]), AddedBy(before, calls[k - 1]));
    }
  }

  /** So a whole replay conserves the work exactly when it removes what it adds. */
  lemma ReplayAllConservesExactly(q: Queue, calls: seq<Call>, k: nat)
    requires k <= |calls|
    ensures Work(ReplayAll(q, calls, k)) == Work(q) <==> AllRemoved(q, calls, k) == AllAdded(q, calls, k)
  {
    ReplayBalances(q, calls, k);
    Cancel(Work(ReplayAll(q, calls, k)), AllRemoved(q, calls, k), Work(q), AllAdded(q, calls, k));
  }

  lemma Cancel<T>(a: multiset<T>, r: multiset<T>, b: multiset<T>, s: multiset<T>)
    requires a + r == b + s
    ensures a == b <==> r == s
  {
    if a == b {
      assert r == (a + r) - a && s == (b + s) - b;
    }
    if r == s {
      assert a == (a + r) - r && b == (b + s) - s;
    }
  }

  lemma {:induction false} PayloadsCount(jobs: seq<Job>)
    ensures |Payloads(jobs)| == |jobs|
    ensures forall job :: job in jobs ==> job.payload in Payloads(jobs)
  {
    if jobs == [] {
    } else {
      PayloadsCount(jobs[1..]);
      assert forall job :: job in jobs <==> job == jobs[0] || job in jobs[1..];
    }
  }

  /** Work that is nowhere in the queue does not come back. */
  lemma GoneStaysGone(q: Queue, c: Call, p: Payload)
    requires p !in Work(q)
    ensures p !in Work(Perform(q, c))
  {
    PerformBalances(q, c);
    if GetJob(q, c.id).Some? {
      FindsById(q.failed, c.id);
      FindsById(q.waiting, c.id);
      PayloadsCount(q.failed);
      PayloadsCount(q.waiting);
      assert GetJob(q, c.id).value.payload in Work(q);
    }
    assert p !in Work(Perform(q, c)) + RemovedBy(q, c);
  }

  lemma {:induction false} GoneForGood(q: Queue, calls: seq<Call>, i: nat, k: nat, p: Payload)
    requires i <= k <= |calls| && p !in Work(ReplayAll(q, calls, i))
    ensures p !in Work(ReplayAll(q, calls, k))
    decreases k
  {
    if i == k {
    } else {
      GoneForGood(q, calls, i, k - 1, p);
      GoneStaysGone(ReplayAll(q, calls, k - 1), calls[k - 1], p);
    }
  }

  lemma {:induction false} NeverShrinks(q: Queue, calls: seq<Call>, i: nat, k: nat)
    requires i <= k <= |calls|
    ensures Size(ReplayAll(q, calls, i)) <= Size(ReplayAll(q, calls, k))
    decreases k
  {
    if i == k {
    } else {
      NeverShrinks(q, calls, i, k - 1);
    }
  }

  lemma WorkCount(q: Queue)
    ensures |Work(q)| == Size(q)
  {
    PayloadsCount(q.waiting);
    PayloadsCount(q.failed);
  }

  lemma SameWork(a: Queue, b: Queue)
    requires Work(a) == Work(b)
    ensures Size(a) == Size(b)
  {
    WorkCount(a);
    WorkCount(b);
  }

  predicate ConservesAt(q: Queue, calls: seq<Call>, i: nat)
    requires i < |calls|
  {
    Conserves(ReplayAll(q, calls, i), calls[i].id, calls[i].outcome)
  }

  /** A call that leaves one job more spoils the whole replay. */
  lemma GrownForGood(q: Queue, calls: seq<Call>, i: nat, k: nat)
    requires i < k <= |calls| && Work(ReplayAll(q, calls, i)) == Work(q)
    requires Size(ReplayAll(q, calls, i + 1)) > Size(ReplayAll(q, calls, i))
    ensures Work(ReplayAll(q, calls, k)) != Work(q)
  {
    NeverShrinks(q, calls, i + 1, k);
    SameWork(q, ReplayAll(q, calls, i));
    if Work(ReplayAll(q, calls, k)) == Work(q) {
      SameWork(q, ReplayAll(q, calls, k));
    }
  }

  /** Of two different payloads, the one removed is gone when it was there once. */
  lemma OnlyOneGone<T>(before: multiset<T>, after: multiset<T>, removed: T, added: T)
    requires after + multiset{removed} == before + multiset{added}
    requires removed != added && before[removed] <= 1
    ensures removed !in after
  {
    assert (after + multiset{removed})[removed] == (before + multiset{added})[removed];
  }

  /** A call that takes another job than the one it added, of which there is no second one. */
  lemma OtherOneGone(q: Queue, c: Call)
    requires !Conserves(q, c.id, c.outcome) && c.outcome.Works? && q.failed != []
    requires Work(q)[Cleaned(q, c.outcome.pick).payload] <= 1
    ensures Cleaned(q, c.outcome.pick).payload in Work(q)
    ensures Cleaned(q, c.outcome.pick).payload !in Work(Perform(q, c))
  {
    PerformBalances(q, c);
    PayloadsCount(q.failed);
    OnlyOneGone(Work(q), Work(Perform(q, c)), Cleaned(q, c.outcome.pick).payload, GetJob(q, c.id).value.payload);
  }

  /** The first call that does not conserve the work spoils the whole replay, when no two jobs are alike. */
  lemma SpoiledForGood(q: Queue, calls: seq<Call>, i: nat, k: nat)
    requires i < k <= |calls| && !ConservesAt(q, calls, i)
    requires Work(ReplayAll(q, calls, i)) == Work(q) && forall p :: Work(q)[p] <= 1
    ensures Work(ReplayAll(q, calls, k)) != Work(q)
  {
    var before, c := ReplayAll(q, calls, i), calls[i];
    if c.outcome.Works? && before.failed != [] {
      OtherOneGone(before, c);
      GoneForGood(q, calls, i + 1, k, Cleaned(before, c.outcome.pick).payload);
    } else {
      GrownForGood(q, calls, i, k);
    }
  }

  lemma FirstSpoiled(q: Queue, calls: seq<Call>, k: nat) returns (i: nat)
    requires k <= |calls| && exists j :: 0 <= j < k && !ConservesAt(q, calls, j)
    ensures i < k && !ConservesAt(q, calls, i) && forall j :: 0 <= j < i ==> ConservesAt(q, calls, j)
  {
    i := 0;
    while ConservesAt(q, calls, i)
      invariant i < k && forall j :: 0 <= j < i ==> ConservesAt(q, calls, j)
      decreases k - i
    {
      i := i + 1;
    }
  }

  /** When no two jobs of the queue have the same name and data, a whole replay conserves the work exactly when
      each call does: each `clean` takes the job just replayed. */
  lemma DistinctConserveExactly(q: Queue, calls: seq<Call>, k: nat)
    requires k <= |calls| && forall p :: Work(q)[p] <= 1
    ensures Work(ReplayAll(q, calls, k)) == Work(q) <==> forall i :: 0 <= i < k ==> ConservesAt(q, calls, i)
  {
    if forall i :: 0 <= i < k ==> ConservesAt(q, calls, i) {
      AllConserve(q, calls, k);
    } else {
      var i := FirstSpoiled(q, calls, k);
      AllConserve(q, calls, i);
      SpoiledForGood(q, calls, i, k);
    }
  }

  /** `jobs` as they are added again, under the ids from `nextId` on. */
  function Requeued(jobs: seq<Job>, nextId: nat): (r: seq<Job>)
    ensures |r| == |jobs|
    ensures forall i :: 0 <= i < |r| ==> r[i] == Job(nextId + i, jobs[i].payload)
  {
    seq(|jobs|, i requires 0 <= i < |jobs| => Job(nextId + i, jobs[i].payload))
  }

  /** The calls replay the failed jobs from the first on, everything works, and each `clean` takes the
      first failed job. */
  ghost predicate InListingOrder(q: Queue, calls: seq<Call>) {
    && |calls| <= |q.failed|
    && forall i :: 0 <= i < |calls| ==> calls[i] == Call(q.failed[i].id, Works(0))
  }

  /** When everything works and `clean` takes jobs in listing order, replaying the first `k` failed
      jobs moves exactly those, in order, and counts them all. */
  lemma {:induction false} ListingOrderMoves(q: Queue, calls: seq<Call>, k: nat)
    requires InListingOrder(q, calls) && k <= |calls|
    ensures ReplayAll(q, calls, k) == Moved(q, k)
    ensures Count(q, calls, k) == k
  {
    if k == 0 {
    } else {
      ListingOrderMoves(q, calls, k - 1);
      MoveOne(q, k);
      ReplayNext(q, calls, k, Moved(q, k - 1), Moved(q, k));
    }
  }

  function Moved(q: Queue, k: nat): Queue
    requires k <= |q.failed|
  {
    Queue(q.waiting + Requeued(q.failed[..k], q.nextId), q.failed[k..], q.nextId + k)
  }

  lemma MoveOne(q: Queue, k: nat)
    requires 0 < k <= |q.failed|
    ensures Succeeds(Moved(q, k - 1), Call(q.failed[k - 1].id, Works(0)))
    ensures Perform(Moved(q, k - 1), Call(q.failed[k - 1].id, Works(0))) == Moved(q, k)
  {
    var before, job := Moved(q, k - 1), q.failed[k - 1];
    assert before.failed[0] == job;
    assert GetJob(before, job.id) == Some(job);
    assert before.failed[..0] + before.failed[1..] == q.failed[k..];
    assert q.failed[..k] == q.failed[..k - 1] + [job];
    assert Requeued(q.failed[..k], q.nextId) ==
           Requeued(q.failed[..k - 1], q.nextId) + [Job(q.nextId + k - 1, job.payload)];
  }

  lemma {:induction false} RequeuedWork(jobs: seq<Job>, nextId: nat)
    ensures Payloads(Requeued(jobs, nextId)) == Payloads(jobs)
  {
    if jobs == [] {
    } else {
      RequeuedWork(jobs[1..], nextId + 1);
      assert Requeued(jobs, nextId)[1..] == Requeued(jobs[1..], nextId + 1);
    }
  }

  lemma MovedWork(q: Queue, k: nat)
    requires k <= |q.failed|
    ensures Work(Moved(q, k)) == Work(q)
  {
    var moved, rest := q.failed[..k], q.failed[k..];
    assert moved + rest == q.failed;
    PayloadsConcat(moved, rest);
    RequeuedWork(moved, q.nextId);
    PayloadsConcat(q.waiting, Requeued(moved, q.nextId));
  }

  /** The listing that `replayDLQ(limit)` works on. */
  function Listed(q: Queue, limit: int): seq<Job> { Range(q.failed, limit - 1) }

  function Least(a: int, b: int): int { if a <= b then a else b }

  /** `replayDLQ` with a working queue that cleans in listing order: for a limit of at least 1 it
      moves the first min(limit, failed) jobs, conserves the work and returns that number. */
  lemma {:induction false} ReplayDLQConserves(q: Queue, limit: int, o: nat -> Outcome, listed: seq<Job>,
                                              calls: seq<Call>)
    requires limit >= 1 && forall i :: o(i) == Works(0)
    requires listed == Listed(q, limit) && calls == CallsFor(listed, o)
    ensures |listed| == Least(limit, |q.failed|)
    ensures Count(q, calls, |listed|) == |listed|
    ensures ReplayAll(q, calls, |listed|) == Moved(q, |listed|)
    ensures Work(ReplayAll(q, calls, |listed|)) == Work(q)
  {
    ListingOrderMoves(q, calls, |listed|);
    MovedWork(q, |listed|);
  }

  /** A limit bounds the replay exactly when it is at least 1 or nothing is listed: a limit of 0
      lists every failed job. */
  lemma LimitBoundsExactly(q: Queue, limit: int)
    ensures |Listed(q, limit)| ==
            if limit >= 1 then Least(limit, |q.failed|) else if |q.failed| + limit < 0 then 0 else |q.failed| + limit
    ensures |Listed(q, limit)| <= (if limit < 0 then 0 else limit) <==> limit >= 1 || |q.failed| + limit <= 0
  {
  }

  /** When `clean` takes the last failed job instead, replaying one of two different jobs loses the
      other: the number of jobs is right, the work is not. */
  lemma LastFirstLosesWork(first: Payload, last: Payload) returns (q: Queue)
    requires first != last
    ensures |q.failed| == 2 && Work(q) == multiset{first, last}
    ensures Work(Replay(q, q.failed[0].id, Works(1))) == multiset{first, first}
  {
    var a, b, c := Job(0, first), Job(1, last), Job(2, first);
    q := Queue([], [a, b], 2);
    OneJob(a);
    OneJob(b);
    OneJob(c);
    PayloadsConcat([a], [b]);
    assert [a] + [b] == [a, b];
    var after := Replay(q, 0, Works(1));
    assert after.failed == [a] && after.waiting == [c];
  }

  lemma OneJob(job: Job)
    ensures Payloads([job]) == multiset{job.payload}
  {
    assert [job][1..] == [];
  }

  // ---------------------------------------------------------------- the DLQ manager

  class DLQManager {
    const enabled: bool
    var queue: Queue

    constructor (enabled: bool, queue: Queue)
      ensures this.enabled == enabled && this.queue == queue
    {
      this.enabled, this.queue := enabled, queue;
    }

    /** The failed jobs, up to `limit`; nothing when the DLQ is disabled or the listing throws. */
    method GetDLQJobs(limit: int, listingWorks: bool) returns (jobs: seq<Job>)
      ensures jobs == if enabled && listingWorks then Listed(queue, limit) else []
    {
      if !enabled || !listingWorks {
        return [];
      }
      return Range(queue.failed, limit - 1);
    }

    method ReplayJob(id: nat, o: Outcome) returns (replayed: bool)
      modifies this`queue
      ensures !enabled ==> !replayed && queue == old(queue)
      ensures enabled ==> queue == Replay(old(queue), id, o) && (replayed <==> Replays(old(queue), id, o))
    {
      if !enabled {
        return false;
      }
      if o.LookupThrows? {
        return false;
      }
      var job := GetJob(queue, id);
      if job == None {
        return false;
      }
      if o.AddThrows? {
        return false;
      }
      queue := Add(queue, job.value.payload);
      if o.CleanThrows? {
        return false;
      }
      queue := CleanOne(queue, o.pick);
      return true;
    }

    method ReplayDLQ(limit: int, listingWorks: bool, o: nat -> Outcome) returns (replayed: nat)
      modifies this`queue
      ensures !enabled || !listingWorks ==> replayed == 0 && queue == old(queue)
      ensures enabled && listingWorks ==>
                var listed := Listed(old(queue), limit);
                && queue == ReplayAll(old(queue), CallsFor(listed, o), |listed|)
                && replayed == Count(old(queue), CallsFor(listed, o), |listed|)
    {
      if !enabled {
        return 0;
      }
      var jobs := GetDLQJobs(limit, listingWorks);
      ghost var before, calls := queue, CallsFor(jobs, o);
      replayed := 0;
      for k := 0 to |jobs|
        invariant queue == ReplayAll(before, calls, k)
        invariant replayed == Count(before, calls, k)
      {
        ghost var now := queue;
        var isSuccess := ReplayJob(jobs[k].id, o(k));
        ReplayNext(before, calls, k + 1, now, queue);
        if isSuccess {
          replayed := replayed + 1;
        }
      }
    }
  }

  // ---------------------------------------------------------------- the older replay

  /** The jobs of the main queue, by id; adding under an id in use leaves the queue as it is. */
  type MainQueue = map<nat, Payload>

  function AddWithId(main: MainQueue, job: Job): MainQueue {
    if job.id in main then main else main[job.id := job.payload]
  }

  function AddFirst(main: MainQueue, jobs: seq<Job>, k: nat): MainQueue
    requires k <= |jobs|
  {
    if k == 0 then main else AddWithId(AddFirst(main, jobs, k - 1), jobs[k - 1])
  }

  predicate DistinctIds(jobs: seq<Job>) {
    forall i, j :: 0 <= i < j < |jobs| ==> jobs[i].id != jobs[j].id
  }

  /** How many of the first `k` jobs have an id that the main queue already uses. */
  function Collisions(main: MainQueue, jobs: seq<Job>, k: nat): nat
    requires k <= |jobs|
  {
    if k == 0 then 0 else Collisions(main, jobs, k - 1) + if jobs[k - 1].id in main then 1 else 0
  }

  /** An id is in use afterwards exactly when it was before or belongs to a replayed job. */
  lemma {:induction false} IdsAfter(main: MainQueue, jobs: seq<Job>, k: nat, id: nat)
    requires k <= |jobs|
    ensures id in AddFirst(main, jobs, k) <==> id in main || exists i :: 0 <= i < k && jobs[i].id == id
  {
    if k == 0 {
    } else {
      IdsAfter(main, jobs, k - 1, id);
    }
  }

  /** A job of the main queue is never touched; a replayed job whose id was free is there as it was. */
  lemma {:induction false} JobsAfter(main: MainQueue, jobs: seq<Job>, k: nat, i: nat)
    requires i < k <= |jobs| && DistinctIds(jobs)
    ensures forall id :: id in main ==> id in AddFirst(main, jobs, k) && AddFirst(main, jobs, k)[id] == main[id]
    ensures jobs[i].id !in main ==>
              jobs[i].id in AddFirst(main, jobs, k) && AddFirst(main, jobs, k)[jobs[i].id] == jobs[i].payload
  {
    IdsAfter(main, jobs, k - 1, jobs[k - 1].id);
    if i < k - 1 {
      JobsAfter(main, jobs, k - 1, i);
    } else if k > 1 {
      JobsAfter(main, jobs, k - 1, 0);
    }
  }

  lemma {:induction false} SizeAfter(main: MainQueue, jobs: seq<Job>, k: nat)
    requires k <= |jobs| && DistinctIds(jobs)
    ensures |AddFirst(main, jobs, k)| + Collisions(main, jobs, k) == |main| + k
  {
    if k == 0 {
    } else {
      SizeAfter(main, jobs, k - 1);
      IdsAfter(main, jobs, k - 1, jobs[k - 1].id);
    }
  }

  lemma {:induction false} NoCollisions(main: MainQueue, jobs: seq<Job>, k: nat)
    requires k <= |jobs|
    ensures Collisions(main, jobs, k) == 0 <==> forall i :: 0 <= i < k ==> jobs[i].id !in main
  {
    if k == 0 {
    } else {
      NoCollisions(main, jobs, k - 1);
    }
  }

  /** The names and data of the jobs of the main queue with ids below `n`. */
  function Held(main: MainQueue, n: nat): multiset<Payload> {
    if n == 0 then multiset{}
    else if n - 1 in main then Held(main, n - 1) + multiset{main[n - 1]}
    else Held(main, n - 1)
  }

  lemma {:induction false} HeldWithOneMore(main: MainQueue, id: nat, p: Payload, n: nat)
    requires id !in main
    ensures Held(main[id := p], n) == if id < n then Held(main, n) + multiset{p} else Held(main, n)
  {
    if n == 0 {
    } else {
      HeldWithOneMore(main, id, p, n - 1);
      if n - 1 == id {
        assert Held(main, n) == Held(main, n - 1);
      } else if n - 1 in main && id < n - 1 {
      }
    }
  }

  /** What the replay of the first `k` jobs loses: those whose ids are in use. */
  function Vanished(main: MainQueue, jobs: seq<Job>, k: nat): multiset<Payload>
    requires k <= |jobs|
  {
    if k == 0 then multiset{}
    else if jobs[k - 1].id in main then Vanished(main, jobs, k - 1) + multiset{jobs[k - 1].payload}
    else Vanished(main, jobs, k - 1)
  }

  lemma {:induction false} VanishedNothing(main: MainQueue, jobs: seq<Job>, k: nat)
    requires k <= |jobs|
    ensures |Vanished(main, jobs, k)| == Collisions(main, jobs, k)
  {
    if k == 0 {
    } else {
      VanishedNothing(main, jobs, k - 1);
    }
  }

  /** What is held afterwards, is left, and has vanished is what was held and listed before. */
  lemma {:induction false} OlderReplayBalances(main: MainQueue, dlq: seq<Job>, k: nat, n: nat)
    requires k <= |dlq| && DistinctIds(dlq) && forall job :: job in dlq ==> job.id < n
    ensures Held(AddFirst(main, dlq, k), n) + Payloads(dlq[k..]) + Vanished(main, dlq, k) ==
            Held(main, n) + Payloads(dlq)
  {
    if k == 0 {
      assert dlq[0..] == dlq;
    } else {
      var job, before := dlq[k - 1], AddFirst(main, dlq, k - 1);
      OlderReplayBalances(main, dlq, k - 1, n);
      IdsAfter(main, dlq, k - 1, job.id);
      if job.id !in main {
        HeldWithOneMore(before, job.id, job.payload, n);
      }
      MoveOrLose(Held(before, n), job.payload, Payloads(dlq[k..]), Vanished(main, dlq, k - 1),
                 Held(main, n) + Payloads(dlq));
    }
  }

  lemma MoveOrLose<T>(held: multiset<T>, p: T, left: multiset<T>, vanished: multiset<T>, all: multiset<T>)
    requires held + (multiset{p} + left) + vanished == all
    ensures (held + multiset{p}) + left + vanished == all
    ensures held + left + (vanished + multiset{p}) == all
  {
  }

  /** The older replay of `k` jobs conserves the number of jobs, and the names and data, exactly when no
      replayed id is in use in the main queue; every job whose id is in use vanishes.  All ids are below
      `n`. */
  lemma OlderReplayConservesExactly(main: MainQueue, dlq: seq<Job>, k: nat, n: nat)
    requires k <= |dlq| && DistinctIds(dlq)
    requires (forall job :: job in dlq ==> job.id < n) && forall id :: id in main ==> id < n
    ensures |AddFirst(main, dlq, k)| + |dlq[k..]| == |main| + |dlq| - Collisions(main, dlq, k)
    ensures |AddFirst(main, dlq, k)| + |dlq[k..]| == |main| + |dlq| <==>
            forall i :: 0 <= i < k ==> dlq[i].id !in main
    ensures Held(AddFirst(main, dlq, k), n) + Payloads(dlq[k..]) == Held(main, n) + Payloads(dlq) <==>
            forall i :: 0 <= i < k ==> dlq[i].id !in main
  {
    SizeAfter(main, dlq, k);
    NoCollisions(main, dlq, k);
    OlderReplayBalances(main, dlq, k, n);
    VanishedNothing(main, dlq, k);
    Cancel(Held(AddFirst(main, dlq, k), n) + Payloads(dlq[k..]), Vanished(main, dlq, k), Held(main, n) + Payloads(dlq),
           multiset{});
  }

  /** What `moveJobToDLQ` files for a failed job. */
  function Wrapped(job: Job, attempts: nat, error: string): Payload {
    Payload(job.payload.name, DeadLetter(job.id, job.payload.data, attempts, error))
  }

  function Depth(d: Data): nat {
    match d
    case Plain(_) => 0
    case DeadLetter(_, inner, _, _) => Depth(inner) + 1
  }

  /** The main queue, the dead letters, and the id the next dead letter gets. */
  datatype Queues = Queues(main: MainQueue, dlq: seq<Job>, nextDlqId: nat)

  /** Jobs are submitted, fail for good with some attempts and error, leave the main queue, and are
      replayed. */
  datatype Op =
    | Submit(id: nat, name: string, content: string)
    | Fail(id: nat, attempts: nat, error: string)
    | Leave(id: nat)
    | ReplaySome(limit: int)

  function MoveToDlq(s: Queues, job: Job, attempts: nat, error: string): Queues {
    s.(dlq := s.dlq + [Job(s.nextDlqId, Wrapped(job, attempts, error))], nextDlqId := s.nextDlqId + 1)
  }

  function ReplayFirst(s: Queues, n: nat): Queues
    requires n <= |s.dlq|
  {
    s.(main := AddFirst(s.main, s.dlq, n), dlq := s.dlq[n..])
  }

  function Step(s: Queues, op: Op): Queues {
    match op
    case Submit(id, name, content) => s.(main := AddWithId(s.main, Job(id, Payload(name, Plain(content)))))
    case Fail(id, attempts, error) =>
      if id in s.main then MoveToDlq(s, Job(id, s.main[id]), attempts, error) else s
    case Leave(id) => s.(main := s.main - {id})
    case ReplaySome(limit) => ReplayFirst(s, |Range(s.dlq, limit - 1)|)
  }

  function After(ops: seq<Op>, n: nat): Queues
    requires n <= |ops|
  {
    if n == 0 then Queues(map[], [], 1) else Step(After(ops, n - 1), ops[n - 1])
  }

  /** The ids in use in the main queue: one is added by a submission, removed when its job leaves, kept by a
      failure, and a replay adds those of the jobs replayed. */
  lemma MainIdsFollow(ops: seq<Op>, n: nat, id: nat)
    requires n < |ops|
    ensures var before := After(ops, n);
            id in After(ops, n + 1).main <==>
            match ops[n]
            case Submit(submitted, _, _) => id in before.main || id == submitted
            case Fail(_, _, _) => id in before.main
            case Leave(left) => id in before.main && id != left
            case ReplaySome(limit) =>
              id in before.main || exists i :: 0 <= i < |Range(before.dlq, limit - 1)| && before.dlq[i].id == id
  {
    if ops[n].ReplaySome? {
      var before := After(ops, n);
      IdsAfter(before.main, before.dlq, |Range(before.dlq, ops[n].limit - 1)|, id);
    }
  }

  /** `p` is the wrapper around the job that failed in operation `i`. */
  predicate WrapsFailure(ops: seq<Op>, i: nat, p: Payload)
    requires i < |ops|
  {
    && ops[i].Fail? && ops[i].id in After(ops, i).main
    && var failed := After(ops, i).main[ops[i].id];
       && p.name == failed.name && p.data.DeadLetter?
       && p.data.originalJobId == ops[i].id && p.data.originalData == failed.data
       && p.data.attempts == ops[i].attempts && p.data.error == ops[i].error
  }

  ghost predicate WrapsSomeFailure(ops: seq<Op>, n: nat, p: Payload)
    requires n <= |ops|
  {
    exists i :: 0 <= i < n && WrapsFailure(ops, i, p)
  }

  /** Every dead letter is the wrapper around a job that the main queue held when it failed. */
  lemma {:induction false} DeadLettersWrapFailures(ops: seq<Op>, n: nat)
    requires n <= |ops|
    ensures forall j :: 0 <= j < |After(ops, n).dlq| ==> WrapsSomeFailure(ops, n, After(ops, n).dlq[j].payload)
  {
    if n == 0 {
    } else {
      DeadLettersWrapFailures(ops, n - 1);
      var before, after := After(ops, n - 1), After(ops, n);
      forall j | 0 <= j < |after.dlq|
        ensures WrapsSomeFailure(ops, n, after.dlq[j].payload)
      {
        if after.dlq[j] in before.dlq {
          var k :| 0 <= k < |before.dlq| && before.dlq[k] == after.dlq[j];
          assert WrapsSomeFailure(ops, n - 1, before.dlq[k].payload);
        } else {
          assert WrapsFailure(ops, n - 1, after.dlq[j].payload);
        }
      }
    }
  }

  lemma {:induction false} AddedFrom(main: MainQueue, jobs: seq<Job>, k: nat, id: nat)
    requires k <= |jobs| && id in AddFirst(main, jobs, k) && id !in main
    ensures exists j :: 0 <= j < k && jobs[j].id == id && AddFirst(main, jobs, k)[id] == jobs[j].payload
  {
    if id in AddFirst(main, jobs, k - 1) {
      AddedFrom(main, jobs, k - 1, id);
    }
  }

  function Submitted(op: Op): Payload
    requires op.Submit?
  {
    Payload(op.name, Plain(op.content))
  }

  /** Over any run the older replay never restores a job: every job it adds to the main queue is the wrapper
      around a job that failed there, one level deeper, and equals no submitted job. */
  lemma OlderReplayNeverRestores(ops: seq<Op>, n: nat, id: nat)
    requires n < |ops| && ops[n].ReplaySome?
    requires id in After(ops, n + 1).main && id !in After(ops, n).main
    ensures var p := After(ops, n + 1).main[id];
            && (exists i :: 0 <= i < n && WrapsFailure(ops, i, p)
                            && Depth(p.data) == Depth(After(ops, i).main[ops[i].id].data) + 1)
            && forall i :: 0 <= i < |ops| && ops[i].Submit? ==> p != Submitted(ops[i])
  {
    var s := After(ops, n);
    AddedFrom(s.main, s.dlq, |Range(s.dlq, ops[n].limit - 1)|, id);
    DeadLettersWrapFailures(ops, n);
    var p := After(ops, n + 1).main[id];
    assert WrapsSomeFailure(ops, n, p);
    var i :| 0 <= i < n && WrapsFailure(ops, i, p);
    assert Depth(p.data) == Depth(After(ops, i).main[ops[i].id].data) + 1;
  }

  /** So the main queue holds nothing but jobs as they were submitted and wrappers around failed ones. */
  lemma {:induction false} MainHoldsSubmissionsAndWrappers(ops: seq<Op>, n: nat, id: nat)
    requires n <= |ops| && id in After(ops, n).main
    ensures (exists i :: 0 <= i < n && ops[i].Submit? && ops[i].id == id && After(ops, n).main[id] == Submitted(ops[i]))
            || WrapsSomeFailure(ops, n, After(ops, n).main[id])
  {
    var before := After(ops, n - 1);
    if id in before.main {
      MainHoldsSubmissionsAndWrappers(ops, n - 1, id);
      if ops[n - 1].ReplaySome? {
        HeldStays(before.main, before.dlq, |Range(before.dlq, ops[n - 1].limit - 1)|, id);
      }
    } else if ops[n - 1].ReplaySome? {
      OlderReplayNeverRestores(ops, n - 1, id);
    } else {
      assert ops[n - 1].Submit? && ops[n - 1].id == id && After(ops, n).main[id] == Submitted(ops[n - 1]);
    }
  }

  lemma {:induction false} HeldStays(main: MainQueue, jobs: seq<Job>, k: nat, id: nat)
    requires k <= |jobs| && id in main
    ensures id in AddFirst(main, jobs, k) && AddFirst(main, jobs, k)[id] == main[id]
  {
    if k == 0 {
    } else {
      HeldStays(main, jobs, k - 1, id);
    }
  }

  /** How one trip through the dead letters ends. */
  datatype Trip = Trip(attempts: nat, error: string)

  /** Fail a job, then replay all dead letters. */
  function AfterTrip(s: Queues, id: nat, t: Trip): Queues {
    var failed := Step(s, Fail(id, t.attempts, t.error));
    ReplayFirst(failed, |failed.dlq|)
  }

  function AfterTrips(s: Queues, id: nat, trips: seq<Trip>): Queues
    decreases |trips|
  {
    if trips == [] then s else AfterTrips(AfterTrip(s, id, trips[0]), s.nextDlqId, trips[1..])
  }

  /** The dead letter that one trip files for a job. */
  function TripLetter(s: Queues, id: nat, t: Trip): Payload
    requires id in s.main
  {
    Wrapped(Job(id, s.main[id]), t.attempts, t.error)
  }

  /** A trip brings a job back, wrapped and under the next dead-letter id, exactly when that id is free in the
      main queue; otherwise the main queue is as before and the wrapper is gone. */
  lemma TripReturnsExactly(s: Queues, id: nat, t: Trip)
    requires s.dlq == [] && id in s.main
    ensures AfterTrip(s, id, t) ==
            Queues(if s.nextDlqId in s.main then s.main else s.main[s.nextDlqId := TripLetter(s, id, t)],
                   [], s.nextDlqId + 1)
    ensures |AfterTrip(s, id, t).main| == |s.main| + 1 <==> s.nextDlqId !in s.main
  {
    var wrapper := Job(s.nextDlqId, TripLetter(s, id, t));
    var failed := Step(s, Fail(id, t.attempts, t.error));
    assert failed.dlq == [wrapper];
    assert AddFirst(s.main, [wrapper], 0) == s.main;
  }

  /** As long as it comes back, a job goes through the dead letters again and again, whatever its attempts and
      errors: each time under the next id, one level deeper. */
  lemma {:induction false} TripsDeepen(s: Queues, id: nat, trips: seq<Trip>)
    requires s.dlq == [] && id in s.main 
    requires forall used :: s.nextDlqId <= used < s.nextDlqId + |trips| ==> used !in s.main
    ensures var last := if trips == [] then id else s.nextDlqId + |trips| - 1;
            var after := AfterTrips(s, id, trips);
            last in after.main && Depth(after.main[last].data) == Depth(s.main[id].data) + |trips|
    decreases |trips|
  {
    if trips == [] {
    } else {
      TripReturnsExactly(s, id, trips[0]);
      TripsDeepen(AfterTrip(s, id, trips[0]), s.nextDlqId, trips[1..]);
    }
  }

  /** Everything works, or the add or the remove of the i-th listed job throws. */
  datatype Fault = NoFault | AddThrowsAt(i: nat) | RemoveThrowsAt(i: nat)

  class JobQueue {
    var main: MainQueue
    var dlq: Option<seq<Job>>
    var nextDlqId: nat

    constructor (dlqEnabled: bool)
      ensures main == map[] && nextDlqId == 1 && dlq == if dlqEnabled then Some([]) else None
    {
      main, nextDlqId := map[], 1;
      dlq := if dlqEnabled then Some([]) else None;
    }

    /** `works` tells whether the add to the dead letters works; when it throws the caller throws too. */
    method MoveJobToDLQ(job: Job, attempts: nat, error: string, works: bool) returns (ok: bool)
      modifies this`dlq, this`nextDlqId
      ensures ok <==> old(dlq) == None || works
      ensures old(dlq).None? || !works ==> dlq == old(dlq) && nextDlqId == old(nextDlqId)
      ensures old(dlq).Some? && works ==>
                dlq.Some? && Queues(main, dlq.value, nextDlqId) ==
                             MoveToDlq(Queues(main, old(dlq).value, old(nextDlqId)), job, attempts, error)
    {
      if dlq == None {
        return true;
      }
      if !works {
        return false;
      }
      dlq := Some(dlq.value + [Job(nextDlqId, Wrapped(job, attempts, error))]);
      nextDlqId := nextDlqId + 1;
      return true;
    }

    /** `None` when a call throws; the jobs moved before the fault stay moved, and the job at the
        fault is in at least one of the queues. */
    method ReplayDLQ(limit: int, fault: Fault) returns (moved: Option<nat>)
      modifies this`main, this`dlq
      ensures old(dlq) == None ==> moved == Some(0) && main == old(main) && dlq == None
      ensures old(dlq).Some? ==>
                var jobs := old(dlq).value;
                var n := |Range(jobs, limit - 1)|;
                match fault
                case AddThrowsAt(i) =>
                  if i < n then moved == None && dlq == Some(jobs[i..]) && main == AddFirst(old(main), jobs, i)
                  else moved == Some(n) && dlq == Some(jobs[n..]) && main == AddFirst(old(main), jobs, n)
                case RemoveThrowsAt(i) =>
                  if i < n then moved == None && dlq == Some(jobs[i..]) && main == AddFirst(old(main), jobs, i + 1)
                  else moved == Some(n) && dlq == Some(jobs[n..]) && main == AddFirst(old(main), jobs, n)
                case NoFault =>
                  moved == Some(n) && dlq == Some(jobs[n..]) && main == AddFirst(old(main), jobs, n)
    {
      if dlq == None {
        return Some(0);
      }
      var jobs := Range(dlq.value, limit - 1);
      ghost var all := dlq.value;
      var count := 0;
      for k := 0 to |jobs|
        invariant count == k && dlq == Some(all[k..])
        invariant main == AddFirst(old(main), all, k)
        invariant forall j :: 0 <= j < k ==> fault != AddThrowsAt(j) && fault != RemoveThrowsAt(j)
      {
        assert jobs[k] == all[k];
        if fault == AddThrowsAt(k) {
          return None;
        }
        main := AddWithId(main, jobs[k]);
        if fault == RemoveThrowsAt(k) {
          return None;
        }
        dlq := Some(RemoveJob(dlq.value, jobs[k].id));
        count := count + 1;
      }
      return Some(count);
    }
  }

  function RemoveJob(jobs: seq<Job>, id: nat): (rest: seq<Job>)
    ensures jobs != [] && jobs[0].id == id ==> rest == jobs[1..]
  {
    if jobs == [] then []
    else if jobs[0].id == id then jobs[1..]
    else [jobs[0]] + RemoveJob(jobs[1..], id)
  }
}
