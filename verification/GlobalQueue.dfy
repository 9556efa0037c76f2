/** The multi-region queue: replication of a job from the primary region to the others, and
    failover of the primary driven by health checks that may interleave. */
module GlobalQueue {
  import opened Prelude

  datatype Job = Job(name: string, data: string)

  /** The jobs a regional queue holds, by job id. */
  type Queue = map<string, Job>

  datatype Mode = Sync | Async

  datatype Replication = Replication(enabled: bool, mode: Option<Mode>)

  datatype Region = Region(region: string, isPrimary: bool, priority: Option<int>)

  datatype Config = Config(regions: seq<Region>, replication: Option<Replication>, failoverEnabled: bool)

  function Names(regions: seq<Region>): (names: seq<string>)
    ensures |names| == |regions|
    ensures forall i :: 0 <= i < |regions| ==> names[i] == regions[i].region
  {
    seq(|regions|, i requires 0 <= i < |regions| => regions[i].region)
  }

  // ---------------------------------------------------------------- replication

  /** Adding under an id that the queue already holds leaves the queue as it is. */
  function Added(q: Queue, id: string, job: Job): Queue {
    if id in q then q else q[id := job]
  }

  function Without(targets: seq<string>, region: string): (others: seq<string>)
    ensures region !in others
    ensures forall r :: r in others <==> r in targets && r != region
  {
    if targets == [] then []
    else (if targets[0] == region then [] else [targets[0]]) + Without(targets[1..], region)
  }

  /** Attempt `i` is made and succeeds: its region has a queue, its add works, and in sync mode no
      earlier attempt on a region with a queue has failed. */
  predicate Reaches(regions: set<string>, targets: seq<string>, mode: Mode, works: nat -> bool, i: nat)
    requires i < |targets|
  {
    && targets[i] in regions && works(i)
    && (mode == Sync ==> forall j :: 0 <= j < i && targets[j] in regions ==> works(j))
  }

  ghost predicate ReachesRegion(regions: set<string>, targets: seq<string>, mode: Mode, works: nat -> bool,
                                region: string)
  {
    exists i :: 0 <= i < |targets| && targets[i] == region && Reaches(regions, targets, mode, works, i)
  }

  /** The regional queues after copying `job` to the targets reached. */
  ghost function Spread(queues: map<string, Queue>, targets: seq<string>, mode: Mode, works: nat -> bool,
                            id: string, job: Job): map<string, Queue> {
    map r | r in queues ::
      if ReachesRegion(queues.Keys, targets, mode, works, r) then Added(queues[r], id, job) else queues[r]
  }

  predicate Holds(queues: map<string, Queue>, region: string, id: string) {
    region in queues && id in queues[region]
  }

  /** Async replication reaches exactly the target regions with a queue and a working add. */
  lemma AsyncReaches(queues: map<string, Queue>, targets: seq<string>, works: nat -> bool, id: string, job: Job,
                     region: string)
    ensures Holds(Spread(queues, targets, Async, works, id, job), region, id) <==>
            Holds(queues, region, id) ||
            (region in queues && exists i :: 0 <= i < |targets| && targets[i] == region && works(i))
  {
    if i :| 0 <= i < |targets| && targets[i] == region && works(i) && region in queues {
      assert Reaches(queues.Keys, targets, Async, works, i);
    }
  }

  /** Sync replication reaches exactly the targets before the first failing one, regions with no
      queue being skipped. */
  lemma SyncReaches(queues: map<string, Queue>, targets: seq<string>, works: nat -> bool, id: string, job: Job,
                    failing: nat, region: string)
    requires failing <= |targets|
    requires forall j :: 0 <= j < failing && targets[j] in queues ==> works(j)
    requires failing < |targets| ==> targets[failing] in queues && !works(failing)
    ensures Holds(Spread(queues, targets, Sync, works, id, job), region, id) <==>
            Holds(queues, region, id) || (region in queues && region in targets[..failing])
  {
    if region in queues && region in targets[..failing] {
      var i :| 0 <= i < failing && targets[i] == region;
      assert Reaches(queues.Keys, targets, Sync, works, i);
    }
    if i :| 0 <= i < |targets| && targets[i] == region && Reaches(queues.Keys, targets, Sync, works, i) {
      assert i < failing;
      assert targets[..failing][i] == region;
    }
  }

  /** Replication never changes or drops a job that is held. */
  lemma HeldJobsStay(queues: map<string, Queue>, targets: seq<string>, mode: Mode, works: nat -> bool,
                     id: string, job: Job, region: string, held: string)
    requires Holds(queues, region, held)
    ensures Holds(Spread(queues, targets, mode, works, id, job), region, held)
    ensures Spread(queues, targets, mode, works, id, job)[region][held] == queues[region][held]
  {
  }

  /** Repeating a replication with the same outcomes changes nothing; and once every target with a
      queue holds the job, no outcomes change anything. */
  lemma RepeatingChangesNothing(queues: map<string, Queue>, targets: seq<string>, mode: Mode, works: nat -> bool,
                                works': nat -> bool, id: string, job: Job)
    ensures var once := Spread(queues, targets, mode, works, id, job);
            Spread(once, targets, mode, works, id, job) == once
    ensures (forall r :: r in targets && r in queues ==> Holds(queues, r, id)) ==>
              Spread(queues, targets, mode, works', id, job) == queues
  {
    var once := Spread(queues, targets, mode, works, id, job);
    assert once.Keys == queues.Keys;
    var twice := Spread(once, targets, mode, works, id, job);
    assert twice.Keys == once.Keys;
    forall r | r in once
      ensures twice[r] == once[r]
    {
    }
    if forall r :: r in targets && r in queues ==> Holds(queues, r, id) {
      var same := Spread(queues, targets, mode, works', id, job);
      forall r | r in queues
        ensures same[r] == queues[r]
      {
        if ReachesRegion(queues.Keys, targets, mode, works', r) {
          assert r in targets;
        }
      }
      assert same == queues;
    }
  }

  // ---------------------------------------------------------------- choosing a new primary

  datatype Candidate = Candidate(region: string, priority: int)

  function PriorityOf(r: Region): int { r.priority.GetOr(999) }

  /** Region `i` answered its ping and is not the primary. */
  predicate Eligible(regions: seq<Region>, answers: seq<bool>, primary: Option<string>, i: nat)
    requires |answers| == |regions|
  {
    i < |regions| && answers[i] && Some(regions[i].region) != primary
  }

  function Candidates(regions: seq<Region>, answers: seq<bool>, primary: Option<string>): seq<Candidate>
    requires |answers| == |regions|
  {
    if regions == [] then []
    else
      (if answers[0] && Some(regions[0].region) != primary
       then [Candidate(regions[0].region, PriorityOf(regions[0]))] else []) +
      Candidates(regions[1..], answers[1..], primary)
  }

  /** Insertion that keeps equal priorities in their order: the stable sort of the language. */
  function Insert(x: Candidate, sorted: seq<Candidate>): (r: seq<Candidate>)
    ensures multiset(r) == multiset{x} + multiset(sorted)
  {
    if sorted == [] || x.priority <= sorted[0].priority then [x] + sorted
    else
      assert sorted == [sorted[0]] + sorted[1..];
      [sorted[0]] + Insert(x, sorted[1..])
  }

  function StableSort(cs: seq<Candidate>): (r: seq<Candidate>)
    ensures multiset(r) == multiset(cs)
  {
    if cs == [] then []
    else
      assert cs == [cs[0]] + cs[1..];
      Insert(cs[0], StableSort(cs[1..]))
  }

  function WithPriority(cs: seq<Candidate>, priority: int): seq<Candidate> {
    if cs == [] then []
    else (if cs[0].priority == priority then [cs[0]] else []) + WithPriority(cs[1..], priority)
  }

  predicate Ascending(cs: seq<Candidate>) {
    forall i, j :: 0 <= i < j < |cs| ==> cs[i].priority <= cs[j].priority
  }

  lemma {:induction false} InsertSorts(x: Candidate, sorted: seq<Candidate>)
    requires Ascending(sorted)
    ensures Ascending(Insert(x, sorted))
  {
    if sorted == [] || x.priority <= sorted[0].priority {
    } else {
      var rest := Insert(x, sorted[1..]);
      InsertSorts(x, sorted[1..]);
      forall i | 0 <= i < |rest|
        ensures sorted[0].priority <= rest[i].priority
      {
        InsertedAre(x, sorted[1..], rest[i]);
      }
    }
  }

  lemma InsertedAre(x: Candidate, sorted: seq<Candidate>, c: Candidate)
    requires c in Insert(x, sorted)
    ensures c == x || c in sorted
  {
    assert c in multiset(Insert(x, sorted));
  }

  lemma {:induction false} InsertKeepsOrder(x: Candidate, sorted: seq<Candidate>, priority: int)
    ensures WithPriority(Insert(x, sorted), priority) == WithPriority([x] + sorted, priority)
  {
    assert ([x] + sorted)[1..] == sorted;
    if sorted == [] || x.priority <= sorted[0].priority {
    } else {
      var rest := Insert(x, sorted[1..]);
      InsertKeepsOrder(x, sorted[1..], priority);
      assert ([x] + sorted[1..])[1..] == sorted[1..] && ([sorted[0]] + rest)[1..] == rest;
    }
  }

  /** Sorting the candidates orders them by priority. */
  lemma {:induction false} StableSortSorts(cs: seq<Candidate>)
    ensures Ascending(StableSort(cs))
  {
    if cs == [] {
    } else {
      StableSortSorts(cs[1..]);
      InsertSorts(cs[0], StableSort(cs[1..]));
    }
  }

  /** And it keeps those of one priority in their order. */
  lemma {:induction false} StableSortKeepsOrder(cs: seq<Candidate>, priority: int)
    ensures WithPriority(StableSort(cs), priority) == WithPriority(cs, priority)
  {
    if cs == [] {
    } else {
      var sorted := StableSort(cs[1..]);
      StableSortKeepsOrder(cs[1..], priority);
      InsertKeepsOrder(cs[0], sorted, priority);
      assert ([cs[0]] + sorted)[1..] == sorted;
    }
  }

  /** The primary after an automatic failover. */
  function Select(regions: seq<Region>, answers: seq<bool>, primary: Option<string>): Option<string>
    requires |answers| == |regions|
  {
    var sorted := StableSort(Candidates(regions, answers, primary));
    if sorted == [] then primary else Some(sorted[0].region)
  }

  /** Region `i` is eligible, no eligible region has a smaller priority number, and none before it
      has the same.  A missing priority is 999. */
  ghost predicate Best(regions: seq<Region>, answers: seq<bool>, primary: Option<string>, i: nat)
    requires |answers| == |regions|
  {
    && Eligible(regions, answers, primary, i)
    && forall j: nat :: Eligible(regions, answers, primary, j) ==>
         regions[i].priority.GetOr(999) < regions[j].priority.GetOr(999) ||
         (regions[i].priority.GetOr(999) == regions[j].priority.GetOr(999) && i <= j)
  }

  lemma EligibleShift(regions: seq<Region>, answers: seq<bool>, primary: Option<string>, j: nat)
    requires |answers| == |regions| && regions != [] && j > 0
    ensures Eligible(regions, answers, primary, j) <==> Eligible(regions[1..], answers[1..], primary, j - 1)
  {
  }

  lemma BestOfRest(regions: seq<Region>, answers: seq<bool>, primary: Option<string>, k: nat)
    requires |answers| == |regions| && regions != [] && Best(regions[1..], answers[1..], primary, k)
    requires Eligible(regions, answers, primary, 0) ==> PriorityOf(regions[k + 1]) < PriorityOf(regions[0])
    ensures Best(regions, answers, primary, k + 1)
  {
    EligibleShift(regions, answers, primary, k + 1);
    forall j: nat | Eligible(regions, answers, primary, j)
      ensures PriorityOf(regions[k + 1]) < PriorityOf(regions[j]) ||
              (PriorityOf(regions[k + 1]) == PriorityOf(regions[j]) && k + 1 <= j)
    {
      if j > 0 {
        EligibleShift(regions, answers, primary, j);
      }
    }
  }

  lemma BestIsHead(regions: seq<Region>, answers: seq<bool>, primary: Option<string>)
    requires |answers| == |regions| && Eligible(regions, answers, primary, 0)
    requires forall j: nat :: Eligible(regions[1..], answers[1..], primary, j) ==>
               PriorityOf(regions[0]) <= PriorityOf(regions[j + 1])
    ensures Best(regions, answers, primary, 0)
  {
    forall j: nat | Eligible(regions, answers, primary, j)
      ensures PriorityOf(regions[0]) <= PriorityOf(regions[j])
    {
      if j > 0 {
        EligibleShift(regions, answers, primary, j);
      }
    }
  }

  /** The head of `sorted` is the best region, region `i`; with nothing sorted, none is eligible. */
  ghost predicate HeadIsBest(regions: seq<Region>, answers: seq<bool>, primary: Option<string>,
                             sorted: seq<Candidate>, i: nat)
    requires |answers| == |regions|
  {
    if sorted == [] then forall j: nat :: !Eligible(regions, answers, primary, j)
    else
      && Best(regions, answers, primary, i)
      && sorted[0] == Candidate(regions[i].region, PriorityOf(regions[i]))
  }

  lemma FirstNotEligible(regions: seq<Region>, answers: seq<bool>, primary: Option<string>,
                         sorted: seq<Candidate>, k: nat)
    requires |answers| == |regions| && regions != [] && !Eligible(regions, answers, primary, 0)
    requires HeadIsBest(regions[1..], answers[1..], primary, sorted, k)
    ensures HeadIsBest(regions, answers, primary, sorted, k + 1)
  {
    if sorted == [] {
      forall j: nat
        ensures !Eligible(regions, answers, primary, j)
      {
        if j > 0 {
          EligibleShift(regions, answers, primary, j);
        }
      }
    } else {
      BestOfRest(regions, answers, primary, k);
    }
  }

  lemma FirstEligible(regions: seq<Region>, answers: seq<bool>, primary: Option<string>, sorted: seq<Candidate>, k: nat)
    returns (i: nat)
    requires |answers| == |regions| && Eligible(regions, answers, primary, 0)
    requires HeadIsBest(regions[1..], answers[1..], primary, sorted, k)
    ensures HeadIsBest(regions, answers, primary,
                       Insert(Candidate(regions[0].region, PriorityOf(regions[0])), sorted), i)
  {
    if sorted != [] && sorted[0].priority < PriorityOf(regions[0]) {
      BestOfRest(regions, answers, primary, k);
      i := k + 1;
    } else {
      BestIsHead(regions, answers, primary);
      i := 0;
    }
  }

  lemma {:induction false} SortedHead(regions: seq<Region>, answers: seq<bool>, primary: Option<string>)
    returns (i: nat)
    requires |answers| == |regions|
    ensures HeadIsBest(regions, answers, primary, StableSort(Candidates(regions, answers, primary)), i)
    decreases |regions|
  {
    if regions == [] {
      i := 0;
    } else {
      var k := SortedHead(regions[1..], answers[1..], primary);
      var cs := Candidates(regions[1..], answers[1..], primary);
      var head := Candidate(regions[0].region, PriorityOf(regions[0]));
      assert Candidates(regions, answers, primary) ==
             if Eligible(regions, answers, primary, 0) then [head] + cs else cs;
      assert ([head] + cs)[1..] == cs;
      i := HeadWithFirst(regions, answers, primary, StableSort(cs), k);
    }
  }

  lemma HeadWithFirst(regions: seq<Region>, answers: seq<bool>, primary: Option<string>, sorted: seq<Candidate>, k: nat)
    returns (i: nat)
    requires |answers| == |regions| && regions != []
    requires HeadIsBest(regions[1..], answers[1..], primary, sorted, k)
    ensures HeadIsBest(regions, answers, primary,
                       if Eligible(regions, answers, primary, 0)
                       then Insert(Candidate(regions[0].region, PriorityOf(regions[0])), sorted) else sorted, i)
  {
    if Eligible(regions, answers, primary, 0) {
      i := FirstEligible(regions, answers, primary, sorted, k);
    } else {
      FirstNotEligible(regions, answers, primary, sorted, k);
      i := k + 1;
    }
  }

  /** Automatic failover picks the best region; with no eligible region the primary stays. */
  lemma SelectIsBest(regions: seq<Region>, answers: seq<bool>, primary: Option<string>)
    requires |answers| == |regions|
    ensures (exists i: nat :: && Best(regions, answers, primary, i)
                              && Some(regions[i].region) == Select(regions, answers, primary))
            || (&& Select(regions, answers, primary) == primary
                && forall j: nat :: !Eligible(regions, answers, primary, j))
    ensures forall i: nat :: Best(regions, answers, primary, i) ==>
              Some(regions[i].region) == Select(regions, answers, primary)
  {
    var i := SortedHead(regions, answers, primary);
    forall k: nat | Best(regions, answers, primary, k)
      ensures Some(regions[k].region) == Select(regions, answers, primary)
    {
      assert Eligible(regions, answers, primary, k);
      assert k == i;
    }
  }

  /** On the configured fields: the region chosen has answered and is not the primary, its priority number is
      least among such regions, a missing one counting as 999, and it is the first of that number; without
      such a region the primary stays. */
  lemma SelectsLeastPriority(regions: seq<Region>, answers: seq<bool>, primary: Option<string>)
    returns (i: nat)
    requires |answers| == |regions|
    ensures (forall j :: 0 <= j < |regions| && answers[j] ==> Some(regions[j].region) == primary) ==>
              Select(regions, answers, primary) == primary
    ensures (exists j :: 0 <= j < |regions| && answers[j] && Some(regions[j].region) != primary) ==>
              && i < |regions| && answers[i] && Some(regions[i].region) != primary
              && Select(regions, answers, primary) == Some(regions[i].region)
              && forall j :: 0 <= j < |regions| && answers[j] && Some(regions[j].region) != primary ==>
                   && regions[i].priority.GetOr(999) <= regions[j].priority.GetOr(999)
                   && (j < i ==> regions[i].priority.GetOr(999) < regions[j].priority.GetOr(999))
  {
    SelectIsBest(regions, answers, primary);
    if k: nat :| Best(regions, answers, primary, k) {
      i := k;
      forall j | 0 <= j < |regions| && answers[j] && Some(regions[j].region) != primary
        ensures regions[i].priority.GetOr(999) <= regions[j].priority.GetOr(999)
        ensures j < i ==> regions[i].priority.GetOr(999) < regions[j].priority.GetOr(999)
      {
        assert Eligible(regions, answers, primary, j);
      }
    } else {
      i := 0;
      forall j | 0 <= j < |regions| && answers[j]
        ensures Some(regions[j].region) == primary
      {
        assert !Eligible(regions, answers, primary, j);
      }
    }
  }

  // ---------------------------------------------------------------- interleaved health checks

  /** A health-check tick first pings its region; a tick that found the primary unhealthy then
      gathers the answers of all regions before it moves the primary. */
  datatype Tick = Pinging(region: string) | Gathering(region: string)

  datatype System = System(primary: Option<string>, ticks: map<nat, Tick>)

  datatype Event =
    | StartTick(id: nat, region: string)
    | PingAnswered(id: nat, healthy: bool)
    | GatherAnswered(id: nat, answers: seq<bool>)
    | ManualFailover(region: string)

  predicate Enabled(c: Config, s: System, e: Event) {
    match e
    case StartTick(id, region) => id !in s.ticks && region in Names(c.regions)
    case PingAnswered(id, _) => id in s.ticks && s.ticks[id].Pinging?
    case GatherAnswered(id, answers) => id in s.ticks && s.ticks[id].Gathering? && |answers| == |c.regions|
    case ManualFailover(_) => true
  }

  function Step(c: Config, s: System, e: Event): System
    requires Enabled(c, s, e)
  {
    match e
    case StartTick(id, region) => s.(ticks := s.ticks[id := Pinging(region)])
    case PingAnswered(id, healthy) =>
      var region := s.ticks[id].region;
      if !healthy && c.failoverEnabled && Some(region) == s.primary
      then s.(ticks := s.ticks[id := Gathering(region)])
      else s.(ticks := s.ticks - {id})
    case GatherAnswered(id, answers) =>
      System(Select(c.regions, answers, s.primary), s.ticks - {id})
    case ManualFailover(region) =>
      if region in Names(c.regions) then s.(primary := Some(region)) else s
  }

  /** The first region flagged primary, else the first of all. */
  function FirstPrimary(regions: seq<Region>): (name: string)
    requires regions != []
    ensures name in Names(regions)
    ensures (forall j :: 0 <= j < |regions| ==> !regions[j].isPrimary) ==> name == regions[0].region
    ensures forall i ::
              && 0 <= i < |regions| && regions[i].isPrimary
              && (forall j :: 0 <= j < i ==> !regions[j].isPrimary) ==>
              name == regions[i].region
  {
    var flagged := FirstFlagged(regions);
    assert Names(regions)[0] == regions[0].region;
    match flagged
    case Some(i) => assert Names(regions)[i] == regions[i].region; regions[i].region
    case None => regions[0].region
  }

  function FirstFlagged(regions: seq<Region>): (found: Option<nat>)
    ensures found.Some? ==> found.value < |regions| && regions[found.value].isPrimary
                            && forall j :: 0 <= j < found.value ==> !regions[j].isPrimary
    ensures found.None? ==> forall j :: 0 <= j < |regions| ==> !regions[j].isPrimary
  {
    if regions == [] then None
    else if regions[0].isPrimary then Some(0)
    else
      match FirstFlagged(regions[1..])
      case Some(i) => Some(i + 1)
      case None => None
  }

  ghost predicate Trace(c: Config, events: seq<Event>, states: seq<System>)
    requires c.regions != []
  {
    && |states| == |events| + 1
    && states[0] == System(Some(FirstPrimary(c.regions)), map[])
    && forall i :: 0 <= i < |events| ==> Moves(c, states[i], events[i], states[i + 1])
  }

  ghost predicate Moves(c: Config, s: System, e: Event, s': System) {
    Enabled(c, s, e) && s' == Step(c, s, e)
  }

  /** In every interleaving of health checks and manual failovers the primary is a configured
      region. */
  lemma {:induction false} PrimaryIsConfigured(c: Config, events: seq<Event>, states: seq<System>, k: nat)
    requires c.regions != [] && Trace(c, events, states) && k <= |events|
    ensures states[k].primary.Some? && states[k].primary.value in Names(c.regions)
  {
    if k == 0 {
    } else {
      PrimaryIsConfigured(c, events, states, k - 1);
      assert Moves(c, states[k - 1], events[k - 1], states[k]);
      if events[k - 1].GatherAnswered? {
        SelectIsBest(c.regions, events[k - 1].answers, states[k - 1].primary);
      }
    }
  }

  /** Ticks and manual failovers start only when no tick is under way. */
  predicate TicksDoNotOverlap(events: seq<Event>, states: seq<System>)
    requires |states| == |events| + 1
  {
    forall i :: 0 <= i < |events| && (events[i].StartTick? || events[i].ManualFailover?) ==> states[i].ticks == map[]
  }

  lemma {:induction false} GatheringIsPrimary(c: Config, events: seq<Event>, states: seq<System>, k: nat)
    requires c.regions != [] && Trace(c, events, states) && k <= |events| && TicksDoNotOverlap(events, states)
    ensures OneTickOfPrimary(states[k])
  {
    if k == 0 {
    } else {
      GatheringIsPrimary(c, events, states, k - 1);
      assert Moves(c, states[k - 1], events[k - 1], states[k]);
      OneTickStep(c, states[k - 1], events[k - 1]);
    }
  }

  /** At most one tick is under way, and one that gathers answers is the primary's. */
  predicate OneTickOfPrimary(s: System) {
    && (forall a, b :: a in s.ticks && b in s.ticks ==> a == b)
    && forall id :: id in s.ticks && s.ticks[id].Gathering? ==> Some(s.ticks[id].region) == s.primary
  }

  lemma OneTickStep(c: Config, s: System, e: Event)
    requires Enabled(c, s, e) && OneTickOfPrimary(s)
    requires e.StartTick? || e.ManualFailover? ==> s.ticks == map[]
    ensures OneTickOfPrimary(Step(c, s, e))
  {
    var s' := Step(c, s, e);
    if e.PingAnswered? || e.GatherAnswered? {
      assert forall a :: a in s'.ticks ==> a == e.id && e.id in s.ticks;
    }
  }

  /** When ticks do not overlap, an automatic failover leaves the region whose ping failed for the
      best region that answered; with none, the primary stays. */
  lemma FailoverPicksBest(c: Config, events: seq<Event>, states: seq<System>, k: nat)
    requires c.regions != [] && Trace(c, events, states) && TicksDoNotOverlap(events, states)
    requires k < |events| && events[k].GatherAnswered?
    ensures |events[k].answers| == |c.regions| && events[k].id in states[k].ticks
    ensures Some(states[k].ticks[events[k].id].region) == states[k].primary
    ensures (exists i: nat :: Best(c.regions, events[k].answers, states[k].primary, i)
                              && Some(c.regions[i].region) == states[k + 1].primary)
            || (states[k + 1].primary == states[k].primary
                && forall j: nat :: !Eligible(c.regions, events[k].answers, states[k].primary, j))
  {
    assert Moves(c, states[k], events[k], states[k + 1]);
    GatheringIsPrimary(c, events, states, k);
    SelectIsBest(c.regions, events[k].answers, states[k].primary);
  }

  /** The ping of `region` failed in event `i` while it was the primary. */
  predicate FailedAsPrimary(events: seq<Event>, states: seq<System>, i: nat, id: nat, region: string)
    requires i < |events| < |states|
  {
    && events[i] == PingAnswered(id, false) && id in states[i].ticks && states[i].ticks[id] == Pinging(region)
    && states[i].primary == Some(region)
  }

  /** A tick that gathers answers has seen its ping fail while its region was the primary, and failover is
      enabled. */
  lemma {:induction false} GatheringMeansFailedPing(c: Config, events: seq<Event>, states: seq<System>, k: nat, id: nat)
    requires c.regions != [] && Trace(c, events, states) && k <= |events|
    requires id in states[k].ticks && states[k].ticks[id].Gathering?
    ensures c.failoverEnabled
    ensures exists i :: 0 <= i < k && FailedAsPrimary(events, states, i, id, states[k].ticks[id].region)
  {
    assert k > 0;
    assert Moves(c, states[k - 1], events[k - 1], states[k]);
    if id in states[k - 1].ticks && states[k - 1].ticks[id].Gathering? {
      GatheringMeansFailedPing(c, events, states, k - 1, id);
    } else {
      assert FailedAsPrimary(events, states, k - 1, id, states[k].ticks[id].region);
    }
  }

  /** And with failover enabled a ping that fails so makes its tick gather answers; after any other answer the tick
      is over. */
  lemma FailedPingGathers(c: Config, events: seq<Event>, states: seq<System>, k: nat)
    requires c.regions != [] && Trace(c, events, states) && k < |events| && events[k].PingAnswered?
    ensures var id := events[k].id;
            && id in states[k].ticks
            && var region := states[k].ticks[id].region;
               if FailedAsPrimary(events, states, k, id, region) && c.failoverEnabled
               then id in states[k + 1].ticks && states[k + 1].ticks[id] == Gathering(region)
               else id !in states[k + 1].ticks
  {
    assert Moves(c, states[k], events[k], states[k + 1]);
  }

  /** The primary moves by a manual failover to a configured region, or when a tick has gathered its answers,
      which ends the tick. */
  lemma PrimaryMovesOnly(c: Config, events: seq<Event>, states: seq<System>, k: nat)
    requires c.regions != [] && Trace(c, events, states) && k < |events|
    ensures states[k + 1].primary != states[k].primary ==>
              || (events[k].ManualFailover? && states[k + 1].primary == Some(events[k].region))
              || (events[k].GatherAnswered? && events[k].id in states[k].ticks)
    ensures events[k].ManualFailover? && events[k].region in Names(c.regions) ==>
              states[k + 1].primary == Some(events[k].region)
    ensures events[k].ManualFailover? && events[k].region !in Names(c.regions) ==> states[k + 1] == states[k]
    ensures events[k].GatherAnswered? ==> events[k].id !in states[k + 1].ticks
  {
    assert Moves(c, states[k], events[k], states[k + 1]);
  }

  /** Three distinct regions without priorities, the first one primary, automatic failover on. */
  predicate ThreeRegions(c: Config) {
    && |c.regions| == 3 && c.failoverEnabled && c.regions[0].isPrimary
    && c.regions[0].region != c.regions[1].region
    && c.regions[0].region != c.regions[2].region
    && c.regions[1].region != c.regions[2].region
    && forall i :: 0 <= i < 3 ==> c.regions[i].priority == None
  }

  /** With no priorities configured, the first answering region other than the primary is picked. */
  lemma FirstAnswering(regions: seq<Region>, answers: seq<bool>, primary: Option<string>, i: nat)
    requires |answers| == |regions| && Eligible(regions, answers, primary, i)
    requires forall j :: 0 <= j < |regions| ==> regions[j].priority == None
    requires forall j: nat :: j < i ==> !Eligible(regions, answers, primary, j)
    ensures Select(regions, answers, primary) == Some(regions[i].region)
  {
    assert Best(regions, answers, primary, i);
    SelectIsBest(regions, answers, primary);
  }

  /** Two ticks of the first primary, both finding it unhealthy before either has gathered answers. */
  lemma TwoTicksGather(c: Config) returns (events: seq<Event>, states: seq<System>)
    requires c.regions != [] && c.failoverEnabled
    ensures |events| == 4 && Trace(c, events, states)
    ensures forall i :: 0 <= i < 4 ==> !events[i].ManualFailover?
    ensures var a := FirstPrimary(c.regions);
            states[4] == System(Some(a), map[0 := Gathering(a), 1 := Gathering(a)])
  {
    var a := FirstPrimary(c.regions);
    events := [StartTick(0, a), StartTick(1, a), PingAnswered(0, false), PingAnswered(1, false)];
    states := [System(Some(a), map[]),
               System(Some(a), map[0 := Pinging(a)]),
               System(Some(a), map[0 := Pinging(a), 1 := Pinging(a)]),
               System(Some(a), map[0 := Gathering(a), 1 := Pinging(a)]),
               System(Some(a), map[0 := Gathering(a), 1 := Gathering(a)])];
  }

  /** Overlapping ticks break this: a second tick of the failed primary moves the primary on from
      a new primary that has just answered. */
  lemma OverlapLeavesHealthyPrimary(c: Config) returns (events: seq<Event>, states: seq<System>)
    requires ThreeRegions(c)
    ensures |events| == 6 && Trace(c, events, states)
    ensures events[5].GatherAnswered? && events[5].answers == [false, true, true]
    ensures states[5].primary == Some(c.regions[1].region) && states[6].primary == Some(c.regions[2].region)
  {
    assert FirstPrimary(c.regions) == c.regions[0].region;
    var before, reached := TwoTicksGather(c);
    var answers := [false, true, true];
    var s5 := GatherMoves(c, reached[4], 0, answers, 1);
    events, states := Append(c, before, reached, GatherAnswered(0, answers), s5);
    var s6 := GatherMoves(c, s5, 1, answers, 2);
    events, states := Append(c, events, states, GatherAnswered(1, answers), s6);
  }

  lemma GatherMoves(c: Config, s: System, id: nat, answers: seq<bool>, i: nat) returns (s': System)
    requires Enabled(c, s, GatherAnswered(id, answers)) && Eligible(c.regions, answers, s.primary, i)
    requires forall j :: 0 <= j < |c.regions| ==> c.regions[j].priority == None
    requires forall j: nat :: j < i ==> !Eligible(c.regions, answers, s.primary, j)
    ensures Moves(c, s, GatherAnswered(id, answers), s')
    ensures s' == System(Some(c.regions[i].region), s.ticks - {id})
  {
    FirstAnswering(c.regions, answers, s.primary, i);
    s' := Step(c, s, GatherAnswered(id, answers));
  }

  lemma Append(c: Config, events: seq<Event>, states: seq<System>, e: Event, s: System)
    returns (events': seq<Event>, states': seq<System>)
    requires c.regions != [] && Trace(c, events, states) && Moves(c, states[|events|], e, s)
    ensures events' == events + [e] && states' == states + [s] && Trace(c, events', states')
  {
    events', states' := events + [e], states + [s];
    forall i | 0 <= i < |events'|
      ensures Moves(c, states'[i], events'[i], states'[i + 1])
    {
      if i < |events| {
        assert Moves(c, states[i], events[i], states[i + 1]);
      }
    }
  }

  // ---------------------------------------------------------------- under which policies failover leaves the failed

  /** The tick that resolves a failover belongs to the region that is still the primary. */
  predicate LeavesFailed(s: System, e: Event) {
    e.GatherAnswered? ==> e.id in s.ticks && s.primary == Some(s.ticks[e.id].region)
  }

  /** On every run, with or without overlapping ticks, failovers leave only the region whose ping failed. */
  ghost predicate AlwaysLeavesFailed(c: Config, overlap: bool)
    requires c.regions != []
  {
    forall events, states, k ::
      Trace(c, events, states) && (overlap || TicksDoNotOverlap(events, states)) && 0 <= k < |events| ==>
        LeavesFailed(states[k], events[k])
  }

  predicate OneName(regions: seq<Region>) {
    forall i :: 0 <= i < |regions| ==> regions[i].region == regions[0].region
  }

  lemma {:induction false} TicksAreOfRegions(c: Config, events: seq<Event>, states: seq<System>, k: nat)
    requires c.regions != [] && Trace(c, events, states) && k <= |events|
    ensures forall id :: id in states[k].ticks ==> states[k].ticks[id].region in Names(c.regions)
    ensures forall id :: id in states[k].ticks && states[k].ticks[id].Gathering? ==> c.failoverEnabled
  {
    if k == 0 {
    } else {
      TicksAreOfRegions(c, events, states, k - 1);
      assert Moves(c, states[k - 1], events[k - 1], states[k]);
    }
  }

  /** A second gathering that resolves after the first has moved the primary. */
  lemma SecondGathering(c: Config) returns (events: seq<Event>, states: seq<System>)
    requires c.regions != [] && c.failoverEnabled && !OneName(c.regions)
    ensures |events| == 6 && Trace(c, events, states) && !LeavesFailed(states[5], events[5])
  {
    var a := FirstPrimary(c.regions);
    var before, reached := TwoTicksGather(c);
    var answers := seq(|c.regions|, i => true);
    var s5 := Step(c, reached[4], GatherAnswered(0, answers));
    events, states := Append(c, before, reached, GatherAnswered(0, answers), s5);
    SelectIsBest(c.regions, answers, Some(a));
    var j :| 0 <= j < |c.regions| && c.regions[j].region != a;
    assert Eligible(c.regions, answers, Some(a), j);
    assert s5.primary != Some(a);
    var s6 := Step(c, s5, GatherAnswered(1, answers));
    events, states := Append(c, events, states, GatherAnswered(1, answers), s6);
  }

  /** Failovers leave only the failed region on all runs exactly when ticks do not overlap, or failover is
      off, or all regions have one name. */
  lemma FailoverPolicyExactly(c: Config, overlap: bool)
    requires c.regions != []
    ensures AlwaysLeavesFailed(c, overlap) <==> !overlap || !c.failoverEnabled || OneName(c.regions)
  {
    if overlap && c.failoverEnabled && !OneName(c.regions) {
      var events, states := SecondGathering(c);
      assert !LeavesFailed(states[5], events[5]);
    } else {
      forall events: seq<Event>, states: seq<System>, k: nat |
        Trace(c, events, states) && (overlap || TicksDoNotOverlap(events, states)) && 0 <= k < |events|
        ensures LeavesFailed(states[k], events[k])
      {
        assert Moves(c, states[k], events[k], states[k + 1]);
        if events[k].GatherAnswered? {
          TicksAreOfRegions(c, events, states, k);
          PrimaryIsConfigured(c, events, states, k);
          if !overlap {
            GatheringIsPrimary(c, events, states, k);
          }
        }
      }
    }
  }

  // ---------------------------------------------------------------- the manager

  datatype Result<T> = Ok(value: T) | NoRegions | CannotOpen | NoPrimaryRegion | AddFailed | RegionNotFound

  datatype Status = Pending | Replicated

  class GlobalQueueManager {
    var queues: map<string, Queue>
    var config: Option<Config>
    var primaryRegion: Option<string>

    constructor ()
      ensures queues == map[] && config == None && primaryRegion == None
    {
      queues, config, primaryRegion := map[], None, None;
    }

    /** `backlog` is what the regional stores already hold; `opens(i)` tells whether the client and
        queue of region `i` can be created; `created` counts them. */
    method Initialize(c: Config, backlog: map<string, Queue>, opens: nat -> bool) returns (r: Result<()>, created: nat)
      modifies this
      ensures r == (if c.regions == [] then NoRegions else if created < |c.regions| then CannotOpen else Ok(()))
      ensures created <= |c.regions| && (forall i :: 0 <= i < created ==> opens(i))
      ensures created < |c.regions| ==> !opens(created)
      ensures queues == WithOpened(old(queues), backlog, Names(c.regions)[..created])
      ensures config == if c.regions == [] then old(config) else Some(c)
      ensures primaryRegion == if r == Ok(()) then Some(FirstPrimary(c.regions)) else old(primaryRegion)
      ensures r == Ok(()) ==> primaryRegion.value in queues
    {
      created := 0;
      WithNoneOpened(queues, backlog);
      assert Names(c.regions)[..0] == [];
      if |c.regions| == 0 {
        return NoRegions, 0;
      }
      config := Some(c);
      created := InitializeRegions(Names(c.regions), backlog, opens);
      if created < |c.regions| {
        return CannotOpen, created;
      }
      assert Names(c.regions)[..created] == Names(c.regions);
      primaryRegion := Some(FirstPrimary(c.regions));
      return Ok(()), created;
    }

    /** Stops at the first region that cannot be created; those before it stay. */
    method InitializeRegions(names: seq<string>, backlog: map<string, Queue>, opens: nat -> bool) returns (created: nat)
      modifies this`queues
      ensures created <= |names| && (forall i :: 0 <= i < created ==> opens(i))
      ensures created < |names| ==> !opens(created)
      ensures queues == WithOpened(old(queues), backlog, names[..created])
    {
      WithNoneOpened(queues, backlog);
      assert names[..0] == [];
      for k := 0 to |names|
        invariant queues == WithOpened(old(queues), backlog, names[..k])
        invariant forall j :: 0 <= j < k ==> opens(j)
      {
        if !opens(k) {
          return k;
        }
        WithOneMoreOpened(old(queues), backlog, names, k);
        queues := queues[names[k] := Backlog(backlog, names[k])];
      }
      return |names|;
    }

    /** `id` is the id that the queue gives the job; `works(i)` tells whether the add to the i-th
        replication target succeeds. */
    method AddJob(job: Job, id: string, primaryWorks: bool, works: nat -> bool) returns (r: Result<string>)
      modifies this
      ensures config == old(config) && primaryRegion == old(primaryRegion)
      ensures var primary := primaryRegion.GetOr("");
              if primary !in old(queues) then r == NoPrimaryRegion && queues == old(queues)
              else if !primaryWorks then r == AddFailed && queues == old(queues)
              else
                && r == Ok(id)
                && Holds(queues, primary, id)
                && (config == None || config.value.replication == None || !config.value.replication.value.enabled ==>
                      forall region :: region in old(queues) && region != primary ==>
                        region in queues && queues[region] == old(queues)[region])
                && queues == Copied(config, primary, old(queues)[primary := Added(old(queues)[primary], id, job)],
                                    id, works)
    {
      var primary := primaryRegion.GetOr("");
      if primary !in queues {
        return NoPrimaryRegion;
      }
      if !primaryWorks {
        return AddFailed;
      }
      queues := queues[primary := Added(queues[primary], id, job)];
      if Replicates(config) {
        ReplicateJob(id, Names(config.value.regions), works);
      }
      return Ok(id);
    }

    method ReplicateJob(id: string, targetRegions: seq<string>, works: nat -> bool)
      modifies this`queues
      ensures queues == CopiedTo(config, primaryRegion.GetOr(""), old(queues), targetRegions, id, works)
    {
      if !Replicates(config) || |targetRegions| == 0 {
        return;
      }
      var primary := primaryRegion.GetOr("");
      if !Holds(queues, primary, id) {
        return;
      }
      var job := queues[primary][id];
      var mode := config.value.replication.value.mode.GetOr(Async);
      var regions := Without(targetRegions, primary);
      ReplicateToRegions(id, job, regions, mode, works);
    }

    method ReplicateToRegions(id: string, job: Job, regions: seq<string>, mode: Mode, works: nat -> bool)
      modifies this`queues
      ensures queues == Spread(old(queues), regions, mode, works, id, job)
    {
      ghost var before := queues;
      SpreadNone(queues, mode, works, id, job);
      assert regions[..0] == [];
      for k := 0 to |regions|
        invariant queues == Spread(before, regions[..k], mode, works, id, job)
        invariant mode == Sync ==> forall j :: 0 <= j < k && regions[j] in before ==> works(j)
      {
        SpreadMore(before, regions, mode, works, id, job, k);
        var failed := ReplicateToRegion(id, job, regions[k], works(k));
        if failed && mode == Sync {
          SpreadStops(before, regions, works, id, job, k);
          return;
        }
      }
      assert regions[..|regions|] == regions;
    }

    method ReplicateToRegion(id: string, job: Job, region: string, works: bool) returns (failed: bool)
      modifies this`queues
      ensures failed <==> region in old(queues) && !works
      ensures queues == if region in old(queues) && works
                        then old(queues)[region := Added(old(queues)[region], id, job)] else old(queues)
    {
      if region !in queues {
        return false;
      }
      if !works {
        return true;
      }
      queues := queues[region := Added(queues[region], id, job)];
      return false;
    }

    /** 'replicated' exactly for the configured regions whose queue holds the job, 'pending' exactly
        for the configured regions whose queue does not; nothing at all when some lookup throws.
        `works(i)` tells whether the lookup in the i-th configured region works. */
    method GetReplicationStatus(id: string, works: nat -> bool) returns (status: map<string, Status>)
      ensures config == None ==> status == map[]
      ensures config.Some? && !LookupsWork(config.value.regions, queues.Keys, works) ==> status == map[]
      ensures config.Some? && LookupsWork(config.value.regions, queues.Keys, works) ==> forall region ::
                && (region in status <==> region in Names(config.value.regions) && region in queues)
                && (region in status ==> (status[region] == Status.Replicated <==> Holds(queues, region, id)))
    {
      status := map[];
      if config == None {
        return;
      }
      var names := Names(config.value.regions);
      for k := 0 to |names|
        invariant forall region :: region in status <==> region in names[..k] && region in queues
        invariant forall region :: region in status ==>
                    (status[region] == Status.Replicated <==> Holds(queues, region, id))
        invariant forall j :: 0 <= j < k && names[j] in queues ==> works(j)
      {
        if names[k] in queues {
          if !works(k) {
            assert config.value.regions[k].region in queues;
            return map[];
          }
          status := status[names[k] := if id in queues[names[k]] then Status.Replicated else Pending];
        }
      }
    }

    method FailoverTo(region: string) returns (r: Result<()>)
      modifies this`primaryRegion
      ensures r == (if region in queues then Ok(()) else RegionNotFound)
      ensures primaryRegion == if region in queues then Some(region) else old(primaryRegion)
    {
      if region !in queues {
        return RegionNotFound;
      }
      primaryRegion := Some(region);
      return Ok(());
    }

    /** A tick's resumption after its ping: does it go on to gather answers? */
    method PingAnswered(region: string, healthy: bool) returns (gather: bool)
      ensures gather <==> !healthy && config.Some? && config.value.failoverEnabled && primaryRegion == Some(region)
    {
      if healthy {
        return false;
      }
      return config.Some? && config.value.failoverEnabled && Some(region) == primaryRegion;
    }

    /** The resumption after all answers are in: regions without a client count as unhealthy. */
    method HandleFailover(pings: seq<bool>)
      requires config.Some? ==> |pings| == |config.value.regions|
      modifies this`primaryRegion
      ensures config == None ==> primaryRegion == old(primaryRegion)
      ensures config.Some? ==>
                primaryRegion == Select(config.value.regions, Answers(queues.Keys, config.value.regions, pings),
                                        old(primaryRegion))
      ensures primaryRegion != old(primaryRegion) ==> primaryRegion.Some? && primaryRegion.value in queues
      ensures config.Some? ==>
                var answers := Answers(queues.Keys, config.value.regions, pings);
                || (exists i: nat :: && Best(config.value.regions, answers, old(primaryRegion), i)
                                     && primaryRegion == Some(config.value.regions[i].region))
                || (primaryRegion == old(primaryRegion)
                    && forall j: nat :: !Eligible(config.value.regions, answers, primaryRegion, j))
    {
      if config == None {
        return;
      }
      var regions := config.value.regions;
      var answers := Answers(queues.Keys, regions, pings);
      SelectIsBest(regions, answers, primaryRegion);
      var sorted := StableSort(Candidates(regions, answers, primaryRegion));
      if sorted != [] {
        var i := SortedHead(regions, answers, primaryRegion);
        var _ := FailoverTo(sorted[0].region);
      }
    }
  }

  function Backlog(backlog: map<string, Queue>, region: string): Queue {
    if region in backlog then backlog[region] else map[]
  }

  /** `queues` with the queues of `names` opened over what their stores hold. */
  function WithOpened(queues: map<string, Queue>, backlog: map<string, Queue>, names: seq<string>): map<string, Queue> {
    map r | r in queues.Keys + (set n | n in names) :: if r in names then Backlog(backlog, r) else queues[r]
  }

  /** Opening the regions connects each to what its store holds and leaves the other queues alone. */
  lemma OpenedExactly(queues: map<string, Queue>, backlog: map<string, Queue>, names: seq<string>, region: string)
    ensures var now := WithOpened(queues, backlog, names);
            && (region in now <==> region in queues || region in names)
            && (region in names && region in backlog ==> now[region] == backlog[region])
            && (region in names && region !in backlog ==> now[region] == map[])
            && (region in queues && region !in names ==> now[region] == queues[region])
  {
  }

  lemma WithNoneOpened(queues: map<string, Queue>, backlog: map<string, Queue>)
    ensures WithOpened(queues, backlog, []) == queues
  {
  }

  lemma WithOneMoreOpened(queues: map<string, Queue>, backlog: map<string, Queue>, names: seq<string>, k: nat)
    requires k < |names|
    ensures WithOpened(queues, backlog, names[..k + 1]) ==
            WithOpened(queues, backlog, names[..k])[names[k] := Backlog(backlog, names[k])]
  {
    assert names[..k + 1] == names[..k] + [names[k]];
  }

  predicate LookupsWork(regions: seq<Region>, connected: set<string>, works: nat -> bool) {
    forall i :: 0 <= i < |regions| && regions[i].region in connected ==> works(i)
  }

  /** The primary moves exactly when another region has a client and answers its ping, and then to such a
      region. */
  lemma NewPrimaryAnswered(connected: set<string>, regions: seq<Region>, pings: seq<bool>, primary: Option<string>)
    requires |pings| == |regions|
    ensures var chosen := Select(regions, Answers(connected, regions, pings), primary);
            && (chosen != primary <==>
                  exists i :: 0 <= i < |regions| && regions[i].region in connected && pings[i]
                              && Some(regions[i].region) != primary)
            && (chosen != primary ==>
                  exists i :: 0 <= i < |regions| && regions[i].region in connected && pings[i]
                              && Some(regions[i].region) == chosen)
  {
    var answers := Answers(connected, regions, pings);
    SelectIsBest(regions, answers, primary);
    if i :| 0 <= i < |regions| && regions[i].region in connected && pings[i] && Some(regions[i].region) != primary {
      assert Eligible(regions, answers, primary, i);
    }
  }

  function Answers(connected: set<string>, regions: seq<Region>, pings: seq<bool>): (answers: seq<bool>)
    requires |pings| == |regions|
    ensures |answers| == |regions|
    ensures forall i :: 0 <= i < |answers| ==> (answers[i] <==> regions[i].region in connected && pings[i])
  {
    seq(|regions|, i requires 0 <= i < |regions| => regions[i].region in connected && pings[i])
  }

  predicate Replicates(config: Option<Config>) {
    config.Some? && config.value.replication.Some? && config.value.replication.value.enabled
  }

  /** What `replicateJob` makes of the queues. */
  ghost function CopiedTo(config: Option<Config>, primary: string, queues: map<string, Queue>, targets: seq<string>,
                          id: string, works: nat -> bool): map<string, Queue> {
    if Replicates(config) && Holds(queues, primary, id)
    then
      Spread(queues, Without(targets, primary), config.value.replication.value.mode.GetOr(Async), works,
                 id, queues[primary][id])
    else queues
  }

  ghost function Copied(config: Option<Config>, primary: string, queues: map<string, Queue>, id: string,
                        works: nat -> bool): map<string, Queue> {
    if config.Some? then CopiedTo(config, primary, queues, Names(config.value.regions), id, works) else queues
  }

  /** With replication off or not configured, the other regions stay as they are, whatever is asked for. */
  lemma OffCopiesNothing(config: Option<Config>, primary: string, queues: map<string, Queue>, targets: seq<string>,
                         id: string, works: nat -> bool)
    requires config == None || config.value.replication == None || !config.value.replication.value.enabled
    ensures CopiedTo(config, primary, queues, targets, id, works) == queues
    ensures Copied(config, primary, queues, id, works) == queues
  {
  }

  /** Where a new job is after `addJob` with replication, no failover intervening: its id is in use in the
      primary, in exactly the other target regions reached, and wherever it was in use before.  Where it was
      in use the job found there stays; elsewhere there is the primary's job of that id. */
  lemma AddedJobIsWhere(c: Config, primary: string, queues: map<string, Queue>, id: string, job: Job,
                        works: nat -> bool, region: string)
    requires primary in queues && c.replication.Some? && c.replication.value.enabled
    ensures var added := Added(queues[primary], id, job);
            var after := Copied(Some(c), primary, queues[primary := added], id, works);
            var targets := Without(Names(c.regions), primary);
            && (Holds(after, region, id) <==>
                region == primary || Holds(queues, region, id) ||
                ReachesRegion(queues.Keys, targets, c.replication.value.mode.GetOr(Async), works, region))
            && (Holds(after, region, id) ==>
                  after[region][id] == if Holds(queues, region, id) then queues[region][id] else added[id])
  {
    var added := queues[primary := Added(queues[primary], id, job)];
    assert added.Keys == queues.Keys;
  }

  /** With an id that is free in the primary, a region that holds the id afterwards holds the new job exactly
      when the id was free there too, or in use for the same job. */
  lemma HoldsNewJobExactly(c: Config, primary: string, queues: map<string, Queue>, id: string, job: Job,
                           works: nat -> bool, region: string)
    requires primary in queues && c.replication.Some? && c.replication.value.enabled && id !in queues[primary]
    ensures var after := Copied(Some(c), primary, queues[primary := Added(queues[primary], id, job)], id, works);
            Holds(after, region, id) ==>
              (after[region][id] == job <==> !Holds(queues, region, id) || queues[region][id] == job)
  {
    AddedJobIsWhere(c, primary, queues, id, job, works, region);
  }

  /** The collision is real: region "b" counts as holding the job, as its replication status says, but keeps
      another job under the id. */
  lemma CollisionLeavesOtherJob(job: Job, other: Job) returns (c: Config, queues: map<string, Queue>)
    requires job != other
    ensures c.replication == Some(Replication(true, None)) && queues.Keys == {"a", "b"} && "1" !in queues["a"]
    ensures var after := Copied(Some(c), "a", queues["a" := Added(queues["a"], "1", job)], "1", i => true);
            Holds(after, "b", "1") && after["b"]["1"] == other
  {
    c := Config([Region("a", true, None), Region("b", false, None)], Some(Replication(true, None)), false);
    queues := map["a" := map[], "b" := map["1" := other]];
    AddedJobIsWhere(c, "a", queues, "1", job, i => true, "b");
  }

  lemma ReachesMore(regions: set<string>, targets: seq<string>, mode: Mode, works: nat -> bool, k: nat, r: string)
    requires k < |targets|
    requires mode == Sync ==> forall j :: 0 <= j < k && targets[j] in regions ==> works(j)
    ensures ReachesRegion(regions, targets[..k + 1], mode, works, r) <==>
              ReachesRegion(regions, targets[..k], mode, works, r) || (r == targets[k] && r in regions && works(k))
  {
    var less, more := targets[..k], targets[..k + 1];
    if ReachesRegion(regions, less, mode, works, r) {
      var i :| 0 <= i < |less| && less[i] == r && Reaches(regions, less, mode, works, i);
      assert more[i] == r && Reaches(regions, more, mode, works, i);
    }
    if r == targets[k] && r in regions && works(k) {
      assert more[k] == r && Reaches(regions, more, mode, works, k);
    }
    if ReachesRegion(regions, more, mode, works, r) {
      var i :| 0 <= i < |more| && more[i] == r && Reaches(regions, more, mode, works, i);
      if i < k {
        assert less[i] == r && Reaches(regions, less, mode, works, i);
      }
    }
  }

  lemma ReachesNoMore(regions: set<string>, targets: seq<string>, works: nat -> bool, k: nat, r: string)
    requires k < |targets| && targets[k] in regions && !works(k)
    ensures ReachesRegion(regions, targets, Sync, works, r) <==>
            ReachesRegion(regions, targets[..k], Sync, works, r)
  {
    var less := targets[..k];
    if ReachesRegion(regions, targets, Sync, works, r) {
      var i :| 0 <= i < |targets| && targets[i] == r && Reaches(regions, targets, Sync, works, i);
      assert i < k;
      assert less[i] == r && Reaches(regions, less, Sync, works, i);
    }
    if ReachesRegion(regions, less, Sync, works, r) {
      var i :| 0 <= i < |less| && less[i] == r && Reaches(regions, less, Sync, works, i);
      assert targets[i] == r && Reaches(regions, targets, Sync, works, i);
    }
  }

  lemma SpreadNone(queues: map<string, Queue>, mode: Mode, works: nat -> bool, id: string, job: Job)
    ensures Spread(queues, [], mode, works, id, job) == queues
  {
    assert Spread(queues, [], mode, works, id, job).Keys == queues.Keys;
  }

  /** One more attempt: how `Spread` over the first `k` targets grows. */
  lemma SpreadMore(before: map<string, Queue>, targets: seq<string>, mode: Mode, works: nat -> bool,
                   id: string, job: Job, k: nat)
    requires k < |targets|
    requires mode == Sync ==> forall j :: 0 <= j < k && targets[j] in before ==> works(j)
    ensures var now := Spread(before, targets[..k], mode, works, id, job);
            Spread(before, targets[..k + 1], mode, works, id, job) ==
            if targets[k] in before && works(k) then now[targets[k] := Added(now[targets[k]], id, job)] else now
  {
    forall r: string {
      ReachesMore(before.Keys, targets, mode, works, k, r);
    }
    var now := Spread(before, targets[..k], mode, works, id, job);
    var next := Spread(before, targets[..k + 1], mode, works, id, job);
    assert now.Keys == next.Keys == before.Keys;
  }

  lemma SpreadStops(before: map<string, Queue>, targets: seq<string>, works: nat -> bool, id: string, job: Job, k: nat)
    requires k < |targets| && targets[k] in before && !works(k)
    ensures Spread(before, targets, Sync, works, id, job) == Spread(before, targets[..k], Sync, works, id, job)
  {
    forall r: string {
      ReachesNoMore(before.Keys, targets, works, k, r);
    }
  }
}
