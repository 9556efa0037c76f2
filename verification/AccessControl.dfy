/** The access-control manager: entries in a key/value store, found again by a key scan, behind a
    per-principal cache that every write invalidates.

    A principal's id stands unescaped in the pattern of its scan, so an id may be read as a pattern
    itself.  The theorems say exactly for which ids that is harmless. */
module AccessControl {
  import opened Prelude
  import Glob
  import KeyPattern

  // ---------------------------------------------------------------- entries

  datatype Permission =
    | CanAddJob | CanViewJob | CanModifyJob | CanDeleteJob
    | CanManageQueue | CanManageWorkers | CanViewMetrics

  datatype PrincipalType = User | Service | Role

  type Context = map<string, string>

  datatype TimeRange = TimeRange(startHour: int, endHour: int)

  /** A custom checker is represented by the finite set of contexts it accepts. */
  datatype Conditions = Conditions(
    timeRange: Option<TimeRange>,
    ipWhitelist: Option<seq<string>>,
    custom: Option<set<Context>>)

  datatype Ace = Ace(
    principalId: string,
    principalType: PrincipalType,
    queuePattern: string,
    permissions: set<Permission>,
    conditions: Option<Conditions>,
    createdAt: int,
    expiresAt: Option<int>)

  datatype Quota = Quota(
    maxQueueSize: Option<int>,
    maxConcurrency: Option<int>,
    maxJobSizeBytes: Option<int>,
    rateLimit: Option<int>,
    storageQuotaBytes: Option<int>)

  datatype Tenant = Tenant(
    tenantId: string,
    name: string,
    quota: Option<Quota>,
    allowedRegions: Option<seq<string>>,
    metadata: Option<Context>,
    createdAt: int,
    enabled: bool)

  datatype AuditEntry = AuditEntry(
    principalId: string,
    action: string,
    queueName: string,
    timestamp: int,
    metadata: Option<Context>)

  /** What JSON keeps of an entry: functions are dropped. */
  function Stored(ace: Ace): Ace {
    match ace.conditions
    case None => ace
    case Some(c) => ace.(conditions := Some(c.(custom := None)))
  }

  predicate ConditionsHold(c: Conditions, context: Option<Context>, hour: int) {
    && (c.timeRange.Some? ==> c.timeRange.value.startHour <= hour < c.timeRange.value.endHour)
    && (c.custom.Some? && context.Some? ==> context.value in c.custom.value)
  }

  /** The moment and the request an entry is judged against. */
  datatype Request = Request(queue: string, permission: Permission, context: Option<Context>, now: int, hour: int)

  ghost predicate Allows(ace: Ace, r: Request) {
    && Glob.Matches(ace.queuePattern, r.queue)
    && r.permission in ace.permissions
    && (ace.expiresAt.Some? ==> ace.expiresAt.value >= r.now)
    && (ace.conditions.Some? ==> ConditionsHold(ace.conditions.value, r.context, r.hour))
  }

  // ---------------------------------------------------------------- keys

  datatype Record =
    | AceRecord(ace: Ace)
    | TenantRecord(tenant: Tenant)
    | AuditRecord(entry: AuditEntry)

  function AceRoot(prefix: string): string { prefix + ":ace:" }

  function AceKey(prefix: string, principalId: string, queuePattern: string): string {
    AceRoot(prefix) + (principalId + ":" + queuePattern)
  }

  function TenantKey(prefix: string, tenantId: string): string { prefix + ":tenant:" + tenantId }

  function AuditKey(prefix: string, suffix: string): string { prefix + ":audit:" + suffix }

  function PrincipalPattern(prefix: string, principalId: string): string { AceRoot(prefix) + (principalId + ":*") }

  function EveryonePattern(prefix: string): string { AceRoot(prefix) + "*:*" }

  /** The keys that KEYS returns for a pattern. */
  function Scan(store: map<string, Record>, pattern: string): set<string> {
    set key | key in store && KeyPattern.Matches(pattern, key)
  }

  // ---------------------------------------------------------------- ids read as patterns

  function IdTokens(id: string): seq<KeyPattern.Token> { KeyPattern.Tokens(id + ":*") }

  /** The scan for `p` sees keys of `r` (see `CatchesExactly`). */
  ghost predicate Catches(p: string, r: string) { KeyPattern.CanExtend(IdTokens(p), r + ":") }

  /** The scan for `p` sees all keys of `p` (see `FindsItselfExactly`). */
  ghost predicate FindsItself(p: string) {
    KeyPattern.Accepts(IdTokens(p), p + ":") && KeyPattern.Elastic(IdTokens(p))
  }

  /** No id's scan sees keys of another id. */
  ghost predicate Separate(ids: set<string>) {
    forall p, r :: p in ids && r in ids && p != r ==> !Catches(p, r)
  }

  ghost predicate Safe(ids: set<string>) {
    Separate(ids) && forall p :: p in ids ==> FindsItself(p)
  }

  /** No id of `ids` is another one followed by a colon and more. */
  predicate ColonPrefixFree(ids: set<string>) {
    forall p, r :: p in ids && r in ids ==> !(p + ":" <= r)
  }

  ghost predicate SeesKey(p: string, r: string, q: string) { KeyPattern.Accepts(IdTokens(p), r + ":" + q) }

  lemma CatchesExactly(p: string, r: string)
    ensures Catches(p, r) <==> exists q :: SeesKey(p, r, q)
  {
    KeyPattern.CanExtendExactly(IdTokens(p), r + ":");
    if q :| SeesKey(p, r, q) {
      assert KeyPattern.Accepts(IdTokens(p), (r + ":") + q);
    }
    if q :| KeyPattern.Accepts(IdTokens(p), (r + ":") + q) {
      assert SeesKey(p, r, q);
    }
  }

  lemma FindsItselfExactly(p: string)
    ensures FindsItself(p) <==> forall q :: SeesKey(p, p, q)
  {
    KeyPattern.AllContinuationsExactly(IdTokens(p), p + ":");
    if FindsItself(p) {
      forall q
        ensures SeesKey(p, p, q)
      {
        assert KeyPattern.Accepts(IdTokens(p), (p + ":") + q);
      }
    }
    if forall q :: SeesKey(p, p, q) {
      forall q
        ensures KeyPattern.Accepts(IdTokens(p), (p + ":") + q)
      {
        assert SeesKey(p, p, q);
      }
    }
  }

  /** The scan for `p` in terms of the tokens of the id alone. */
  lemma ScanSees(prefix: string, p: string, r: string, q: string)
    requires KeyPattern.Plain(prefix)
    ensures KeyPattern.Matches(PrincipalPattern(prefix, p), AceKey(prefix, r, q)) <==> SeesKey(p, r, q)
  {
    var root, rest := AceRoot(prefix), r + ":" + q;
    KeyPattern.PlainTokens(root, p + ":*");
    KeyPattern.LiteralsAccept(root, IdTokens(p), root + rest);
    assert (root + rest)[|root|..] == rest && root <= root + rest;
  }

  lemma ScanUnderRoot(prefix: string, p: string, key: string)
    requires KeyPattern.Plain(prefix) && KeyPattern.Matches(PrincipalPattern(prefix, p), key)
    ensures AceRoot(prefix) <= key
  {
    KeyPattern.PlainTokens(AceRoot(prefix), p + ":*");
    KeyPattern.LiteralsAccept(AceRoot(prefix), IdTokens(p), key);
  }

  /** The scan for everyone sees every entry, and only keys under the entry root. */
  lemma EveryoneSees(prefix: string, key: string)
    requires KeyPattern.Plain(prefix)
    ensures KeyPattern.Matches(EveryonePattern(prefix), key) ==> AceRoot(prefix) <= key
    ensures forall p, q :: key == AceKey(prefix, p, q) ==> KeyPattern.Matches(EveryonePattern(prefix), key)
  {
    var root, ts := AceRoot(prefix), KeyPattern.Tokens("*:*");
    KeyPattern.PlainTokens(root, "*:*");
    KeyPattern.LiteralsAccept(root, ts, key);
    forall p, q | key == AceKey(prefix, p, q)
      ensures KeyPattern.Matches(EveryonePattern(prefix), key)
    {
      assert key[|root|..] == p + ":" + q;
      StarCatches(p, q);
    }
  }

  lemma {:induction false} StarCatches(p: string, q: string)
    ensures SeesKey("*", p, q)
    decreases p
  {
    var ts, rest := IdTokens("*"), p + ":" + q;
    StarTokens();
    if p == "" {
      KeyPattern.RunAccepts(q);
      assert rest[1..] == q && rest[0] == ':';
      assert KeyPattern.Accepts(ts[1..], rest);
    } else {
      StarCatches(p[1..], q);
      assert rest[1..] == p[1..] + ":" + q;
    }
  }

  lemma StarTokens()
    ensures IdTokens("*") == [KeyPattern.AnyRun, KeyPattern.Literal(':'), KeyPattern.AnyRun]
  {
    assert "*" + ":*" == "*:*" && "*:*"[1..] == ":*" && ":*"[1..] == "*" && "*"[1..] == "";
  }

  /** For ids without pattern characters the condition is about colons only. */
  lemma PlainIdsAreSafeExactly(ids: set<string>)
    requires forall id :: id in ids ==> KeyPattern.Plain(id)
    ensures Safe(ids) <==> ColonPrefixFree(ids)
    ensures Separate(ids) <==> ColonPrefixFree(ids)
  {
    forall p | p in ids
      ensures FindsItself(p)
    {
      forall q
        ensures SeesKey(p, p, q)
      {
        PlainSees(p, p, q);
        assert p + ":" <= p + ":" + q;
      }
      FindsItselfExactly(p);
    }
    forall p, r | p in ids && r in ids && p != r
      ensures Catches(p, r) <==> p + ":" <= r || r + ":" <= p
    {
      PlainCatches(p, r);
    }
    if !ColonPrefixFree(ids) {
      var p, r :| p in ids && r in ids && p + ":" <= r;
      assert |p| < |r|;
    }
  }

  lemma PlainSees(p: string, r: string, q: string)
    requires KeyPattern.Plain(p)
    ensures SeesKey(p, r, q) <==> p + ":" <= r + ":" + q
  {
    assert p + ":*" == (p + ":") + "*";
    KeyPattern.PlainPrefix(p + ":", r + ":" + q);
  }

  lemma PlainCatches(p: string, r: string)
    requires KeyPattern.Plain(p) && p != r
    ensures Catches(p, r) <==> p + ":" <= r || r + ":" <= p
  {
    CatchesExactly(p, r);
    if q :| SeesKey(p, r, q) {
      PlainSees(p, r, q);
      ColonCases(p, r, q);
    }
    if p + ":" <= r {
      PlainSees(p, r, "");
      assert r + ":" + "" == (p + ":") + (r + ":" + "")[|p| + 1..];
    } else if r + ":" <= p {
      var q := p[|r| + 1..] + ":";
      PlainSees(p, r, q);
      assert r + ":" + q == p + ":";
    }
  }

  lemma ColonCases(p: string, r: string, q: string)
    requires p + ":" <= r + ":" + q && p != r
    ensures p + ":" <= r || r + ":" <= p
  {
    var key := r + ":" + q;
    if |p| <= |r| {
      assert p == key[..|p|] == r[..|p|];
      assert |p| < |r|;
      assert r[|p|] == key[|p|] == (p + ":")[|p|] == ':';
      assert r[..|p| + 1] == p + ":";
    } else {
      assert p[..|r|] == key[..|r|] == r;
      assert p[|r|] == (p + ":")[|r|] == key[|r|] == ':';
      assert p[..|r| + 1] == r + ":";
    }
  }

  /** An id that finds itself also sees the keys of its extensions by a colon: they are keys of its own. */
  lemma ExtensionIsCaught(p: string, r: string)
    requires FindsItself(p) && p + ":" <= r
    ensures p != r && Catches(p, r)
  {
    var q := r[|p| + 1..] + ":";
    FindsItselfExactly(p);
    assert SeesKey(p, p, q);
    assert p + ":" + q == r + ":" + "";
    assert SeesKey(p, r, "");
    CatchesExactly(p, r);
    assert |p| < |r|;
  }

  /** Safe ids have distinct keys. */
  lemma SafeIsColonPrefixFree(ids: set<string>)
    requires Safe(ids)
    ensures ColonPrefixFree(ids)
  {
    forall p, r | p in ids && r in ids
      ensures !(p + ":" <= r)
    {
      if p + ":" <= r {
        ExtensionIsCaught(p, r);
      }
    }
  }

  lemma KeysAreDistinct(prefix: string, ids: set<string>, p: string, q: string, r: string, q': string)
    requires ColonPrefixFree(ids) && p in ids && r in ids
    requires AceKey(prefix, p, q) == AceKey(prefix, r, q')
    ensures p == r && q == q'
  {
    var root := AceRoot(prefix);
    var key := p + ":" + q;
    assert key == (root + key)[|root|..] == r + ":" + q';
    assert p + ":" == key[..|p| + 1];
    if p != r {
      ColonCases(p, r, q');
    }
    assert q == key[|p| + 1..] == q';
  }

  lemma OtherKeys(prefix: string, rest: string)
    ensures !(AceRoot(prefix) <= TenantKey(prefix, rest))
    ensures !(AceRoot(prefix) <= AuditKey(prefix, rest))
  {
    assert AceRoot(prefix)[|prefix| + 2] == 'c';
    assert TenantKey(prefix, rest)[|prefix| + 2] == 'e';
    assert AuditKey(prefix, rest)[|prefix| + 2] == 'u';
  }

  /** Tenants have keys of their own, which no audit record has. */
  lemma TenantKeysDiffer(prefix: string, tenantId: string, other: string, suffix: string)
    ensures TenantKey(prefix, tenantId) == TenantKey(prefix, other) <==> tenantId == other
    ensures TenantKey(prefix, tenantId) != AuditKey(prefix, suffix)
  {
    var root := prefix + ":tenant:";
    assert tenantId == (root + tenantId)[|root|..] && other == (root + other)[|root|..];
    assert TenantKey(prefix, tenantId)[|prefix| + 1] == 't' && AuditKey(prefix, suffix)[|prefix| + 1] == 'a';
  }

  // ---------------------------------------------------------------- the state machine

  datatype State = State(store: map<string, Record>, cache: map<string, seq<Ace>>, tenants: map<string, Tenant>)

  datatype Op =
    | Grant(ace: Ace)
    | Revoke(principalId: string, queuePattern: string)
    | Query(principalId: string)
    | CreateTenant(tenant: Tenant)
    | DeleteTenant(tenantId: string)
    | Audit(suffix: string, entry: AuditEntry)

  ghost function Entries(prefix: string, store: map<string, Record>, principalId: string): set<Ace> {
    set key | key in Scan(store, PrincipalPattern(prefix, principalId)) && store[key].AceRecord? :: store[key].ace
  }

  ghost predicate Step(prefix: string, s: State, op: Op, s': State) {
    match op
    case Grant(ace) =>
      s' == s.(store := s.store[AceKey(prefix, ace.principalId, ace.queuePattern) := AceRecord(Stored(ace))],
               cache := s.cache - {ace.principalId})
    case Revoke(p, q) =>
      s' == s.(store := s.store - {AceKey(prefix, p, q)}, cache := s.cache - {p})
    case Query(p) =>
      if p in s.cache then s' == s
      else
        && p in s'.cache
        && s' == s.(cache := s.cache[p := s'.cache[p]])
        && Lists(s'.cache[p], Entries(prefix, s.store, p))
    case CreateTenant(t) =>
      s' == s.(store := s.store[TenantKey(prefix, t.tenantId) := TenantRecord(t)],
               tenants := s.tenants[t.tenantId := t])
    case DeleteTenant(t) =>
      s' == s.(store := s.store - {TenantKey(prefix, t)}, tenants := s.tenants - {t})
    case Audit(suffix, entry) =>
      s' == s.(store := s.store[AuditKey(prefix, suffix) := AuditRecord(entry)])
  }

  const INITIAL := State(map[], map[], map[])

  ghost predicate Run(prefix: string, ops: seq<Op>, states: seq<State>) {
    && |states| == |ops| + 1
    && states[0] == INITIAL
    && forall i :: 0 <= i < |ops| ==> Step(prefix, states[i], ops[i], states[i + 1])
  }

  /** The principals that `op` names are among `ids`. */
  predicate Uses(op: Op, ids: set<string>) {
    match op
    case Grant(ace) => ace.principalId in ids
    case Revoke(p, _) => p in ids
    case Query(p) => p in ids
    case _ => true
  }

  ghost predicate RunOver(prefix: string, ids: set<string>, ops: seq<Op>, states: seq<State>) {
    Run(prefix, ops, states) && forall op :: op in ops ==> Uses(op, ids)
  }

  // ---------------------------------------------------------------- the abstract meaning

  type Grants = map<(string, string), Ace>

  function Apply(g: Grants, op: Op): Grants {
    match op
    case Grant(ace) => g[(ace.principalId, ace.queuePattern) := Stored(ace)]
    case Revoke(p, q) => g - {(p, q)}
    case _ => g
  }

  /** For each (principal, pattern) pair whose last write was a grant, the entry granted. */
  function Granted(ops: seq<Op>): Grants {
    if ops == [] then map[]
    else Apply(Granted(ops[..|ops| - 1]), ops[|ops| - 1])
  }

  /** `op` writes the entry of the pair (p, q). */
  predicate Writes(op: Op, p: string, q: string) {
    match op
    case Grant(ace) => ace.principalId == p && ace.queuePattern == q
    case Revoke(r, pattern) => r == p && pattern == q
    case _ => false
  }

  /** Operation `i` grants to `p` by the pattern `q`, and nothing has written that entry since. */
  predicate LastGrant(ops: seq<Op>, i: nat, p: string, q: string)
    requires i < |ops|
  {
    ops[i].Grant? && Writes(ops[i], p, q) && forall j :: i < j < |ops| ==> !Writes(ops[j], p, q)
  }

  /** `kept` is `ace` without its custom checker. */
  predicate KeptAs(ace: Ace, kept: Ace) {
    && kept == ace.(conditions := kept.conditions)
    && (kept.conditions.Some? <==> ace.conditions.Some?)
    && (ace.conditions.Some? ==>
          kept.conditions.value == Conditions(ace.conditions.value.timeRange, ace.conditions.value.ipWhitelist, None))
  }

  /** A pair has an entry exactly when its last write was a grant; it is what was granted then, all but a custom
      checker. */
  lemma {:induction false} GrantedExactly(ops: seq<Op>, p: string, q: string)
    ensures (p, q) in Granted(ops) <==> exists i :: 0 <= i < |ops| && LastGrant(ops, i, p, q)
    ensures forall i :: 0 <= i < |ops| && LastGrant(ops, i, p, q) ==>
              (p, q) in Granted(ops) && KeptAs(ops[i].ace, Granted(ops)[(p, q)])
    decreases |ops|
  {
    if ops == [] {
    } else {
      var n := |ops| - 1;
      var before := ops[..n];
      GrantedExactly(before, p, q);
      if Writes(ops[n], p, q) {
        assert forall i :: 0 <= i < n ==> !LastGrant(ops, i, p, q);
        assert ops[n].Grant? ==> LastGrant(ops, n, p, q);
      } else {
        forall i | 0 <= i < n
          ensures LastGrant(ops, i, p, q) <==> LastGrant(before, i, p, q)
        {
        }
        if (p, q) in Granted(before) {
          var i :| 0 <= i < n && LastGrant(before, i, p, q);
          assert LastGrant(ops, i, p, q);
        }
      }
    }
  }

  ghost function GrantedTo(g: Grants, principalId: string): set<Ace> {
    set pq | pq in g && pq.0 == principalId :: g[pq]
  }

  /** Every cached list shows exactly what a scan of the store would find. */
  ghost predicate Coherent(prefix: string, s: State) {
    forall p :: p in s.cache ==> Lists(s.cache[p], Entries(prefix, s.store, p))
  }

  // ---------------------------------------------------------------- what every step keeps

  /** Entry keys hold entries, filed under their own principal and pattern. */
  ghost predicate Keyed(prefix: string, store: map<string, Record>) {
    forall key :: key in store ==>
      && (store[key].AceRecord? <==> AceRoot(prefix) <= key)
      && (store[key].AceRecord? ==> key == AceKey(prefix, store[key].ace.principalId, store[key].ace.queuePattern))
  }

  /** The store holds the entries of `g` and no others. */
  ghost predicate Represents(prefix: string, ids: set<string>, store: map<string, Record>, g: Grants) {
    && Keyed(prefix, store)
    && (forall key :: key in store && store[key].AceRecord? ==>
          var ace := store[key].ace;
          ace.principalId in ids && (ace.principalId, ace.queuePattern) in g
          && g[(ace.principalId, ace.queuePattern)] == ace)
    && (forall p, q :: (p, q) in g ==>
          && p in ids && g[(p, q)].principalId == p && g[(p, q)].queuePattern == q
          && AceKey(prefix, p, q) in store && store[AceKey(prefix, p, q)] == AceRecord(g[(p, q)]))
  }

  lemma ScanMeansGrants(prefix: string, ids: set<string>, store: map<string, Record>, g: Grants, p: string)
    requires KeyPattern.Plain(prefix) && Safe(ids) && p in ids && Represents(prefix, ids, store, g)
    ensures Entries(prefix, store, p) == GrantedTo(g, p)
  {
    forall ace | ace in Entries(prefix, store, p)
      ensures ace in GrantedTo(g, p)
    {
      var key :| key in Scan(store, PrincipalPattern(prefix, p)) && store[key] == AceRecord(ace);
      ScanSees(prefix, p, ace.principalId, ace.queuePattern);
      CatchesExactly(p, ace.principalId);
      assert (p, ace.queuePattern) in g;
    }
    forall ace | ace in GrantedTo(g, p)
      ensures ace in Entries(prefix, store, p)
    {
      var pq :| pq in g && pq.0 == p && g[pq] == ace;
      assert (pq.0, pq.1) in g;
      FindsItselfExactly(p);
      ScanSees(prefix, p, p, pq.1);
      assert SeesKey(p, p, pq.1);
      assert AceKey(prefix, p, pq.1) in Scan(store, PrincipalPattern(prefix, p));
    }
  }

  lemma GrantKeeps(prefix: string, ids: set<string>, s: State, ace: Ace, s': State, g: Grants)
    requires ColonPrefixFree(ids) && ace.principalId in ids && Represents(prefix, ids, s.store, g)
    requires Step(prefix, s, Grant(ace), s')
    ensures Represents(prefix, ids, s'.store, Apply(g, Grant(ace)))
  {
    var p, q := ace.principalId, ace.queuePattern;
    var g' := Apply(g, Grant(ace));
    forall r, q' | (r, q') in g'
      ensures r in ids && g'[(r, q')].principalId == r && g'[(r, q')].queuePattern == q'
      ensures AceKey(prefix, r, q') in s'.store && s'.store[AceKey(prefix, r, q')] == AceRecord(g'[(r, q')])
    {
      if (r, q') != (p, q) {
        assert (r, q') in g;
        if AceKey(prefix, r, q') == AceKey(prefix, p, q) {
          KeysAreDistinct(prefix, ids, r, q', p, q);
        }
      }
    }
  }

  lemma RevokeKeeps(prefix: string, ids: set<string>, s: State, p: string, q: string, s': State, g: Grants)
    requires ColonPrefixFree(ids) && p in ids && Represents(prefix, ids, s.store, g)
    requires Step(prefix, s, Revoke(p, q), s')
    ensures Represents(prefix, ids, s'.store, Apply(g, Revoke(p, q)))
  {
    var g' := Apply(g, Revoke(p, q));
    forall r, q' | (r, q') in g'
      ensures AceKey(prefix, r, q') in s'.store
    {
      if AceKey(prefix, r, q') == AceKey(prefix, p, q) {
        KeysAreDistinct(prefix, ids, r, q', p, q);
      }
    }
  }

  lemma StepKeeps(prefix: string, ids: set<string>, s: State, op: Op, s': State, g: Grants)
    requires ColonPrefixFree(ids) && Uses(op, ids) && Represents(prefix, ids, s.store, g)
    requires Step(prefix, s, op, s')
    ensures Represents(prefix, ids, s'.store, Apply(g, op))
  {
    match op
    case Grant(ace) => GrantKeeps(prefix, ids, s, ace, s', g);
    case Revoke(p, q) => RevokeKeeps(prefix, ids, s, p, q, s', g);
    case Query(p) =>
    case CreateTenant(t) => OtherKeys(prefix, t.tenantId);
    case DeleteTenant(t) => OtherKeys(prefix, t);
    case Audit(suffix, _) => OtherKeys(prefix, suffix);
  }

  /** With colon-prefix-free ids the store holds the last writes after every run. */
  lemma {:induction false} RunKeeps(prefix: string, ids: set<string>, ops: seq<Op>, states: seq<State>)
    requires ColonPrefixFree(ids) && RunOver(prefix, ids, ops, states)
    ensures Represents(prefix, ids, states[|ops|].store, Granted(ops))
    decreases |ops|
  {
    if ops == [] {
    } else {
      var n := |ops| - 1;
      assert RunOver(prefix, ids, ops[..n], states[..n + 1]);
      RunKeeps(prefix, ids, ops[..n], states[..n + 1]);
      StepKeeps(prefix, ids, states[n], ops[n], states[n + 1], Granted(ops[..n]));
    }
  }

  // ---------------------------------------------------------------- the cache

  /** A write that the scan for `p` does not see leaves the entries of `p` alone. */
  lemma UnseenWrite(prefix: string, store: map<string, Record>, store': map<string, Record>, key: string, p: string)
    requires !KeyPattern.Matches(PrincipalPattern(prefix, p), key)
    requires store - {key} == store' - {key}
    ensures Entries(prefix, store, p) == Entries(prefix, store', p)
  {
    assert forall k :: k != key ==> (k in store <==> k in store' - {key});
    assert forall k :: k != key && k in store ==> (store - {key})[k] == (store' - {key})[k];
    assert Scan(store, PrincipalPattern(prefix, p)) == Scan(store', PrincipalPattern(prefix, p));
  }

  predicate CachedIds(s: State, ids: set<string>) { s.cache.Keys <= ids }

  /** The key that `op` writes or deletes. */
  function TouchedKey(prefix: string, op: Op): string
    requires !op.Query?
  {
    match op
    case Grant(ace) => AceKey(prefix, ace.principalId, ace.queuePattern)
    case Revoke(p, q) => AceKey(prefix, p, q)
    case CreateTenant(t) => TenantKey(prefix, t.tenantId)
    case DeleteTenant(t) => TenantKey(prefix, t)
    case Audit(suffix, _) => AuditKey(prefix, suffix)
  }

  lemma TouchedUnseen(prefix: string, ids: set<string>, s: State, op: Op, s': State, p: string)
    requires KeyPattern.Plain(prefix) && Separate(ids) && Uses(op, ids) && !op.Query?
    requires Step(prefix, s, op, s') && p in s'.cache && p in ids
    ensures !KeyPattern.Matches(PrincipalPattern(prefix, p), TouchedKey(prefix, op))
  {
    var key := TouchedKey(prefix, op);
    match op
    case Grant(ace) =>
      ScanSees(prefix, p, ace.principalId, ace.queuePattern);
      CatchesExactly(p, ace.principalId);
    case Revoke(r, q) =>
      ScanSees(prefix, p, r, q);
      CatchesExactly(p, r);
    case CreateTenant(t) => OtherKeys(prefix, t.tenantId); ScanNotUnder(prefix, p, key);
    case DeleteTenant(t) => OtherKeys(prefix, t); ScanNotUnder(prefix, p, key);
    case Audit(suffix, _) => OtherKeys(prefix, suffix); ScanNotUnder(prefix, p, key);
  }

  lemma ScanNotUnder(prefix: string, p: string, key: string)
    requires KeyPattern.Plain(prefix) && !(AceRoot(prefix) <= key)
    ensures !KeyPattern.Matches(PrincipalPattern(prefix, p), key)
  {
    if KeyPattern.Matches(PrincipalPattern(prefix, p), key) {
      ScanUnderRoot(prefix, p, key);
    }
  }

  lemma StepCoheres(prefix: string, ids: set<string>, s: State, op: Op, s': State)
    requires KeyPattern.Plain(prefix) && Separate(ids) && Uses(op, ids)
    requires CachedIds(s, ids) && Coherent(prefix, s) && Step(prefix, s, op, s')
    ensures CachedIds(s', ids) && Coherent(prefix, s')
  {
    if !op.Query? {
      forall p | p in s'.cache
        ensures Lists(s'.cache[p], Entries(prefix, s'.store, p))
      {
        TouchedUnseen(prefix, ids, s, op, s', p);
        var key := TouchedKey(prefix, op);
        assert s.store - {key} == s'.store - {key};
        UnseenWrite(prefix, s.store, s'.store, key, p);
      }
    }
  }

  /** With separate ids the cache is coherent after every run. */
  lemma {:induction false} RunCoheres(prefix: string, ids: set<string>, ops: seq<Op>, states: seq<State>)
    requires KeyPattern.Plain(prefix) && Separate(ids) && RunOver(prefix, ids, ops, states)
    ensures CachedIds(states[|ops|], ids) && Coherent(prefix, states[|ops|])
    decreases |ops|
  {
    if ops == [] {
    } else {
      var n := |ops| - 1;
      assert RunOver(prefix, ids, ops[..n], states[..n + 1]);
      RunCoheres(prefix, ids, ops[..n], states[..n + 1]);
      StepCoheres(prefix, ids, states[n], ops[n], states[n + 1]);
    }
  }

  // ---------------------------------------------------------------- what holds after every run

  /** The list that a `Query` step hands to the access check. */
  ghost predicate QueryReturns(prefix: string, s: State, p: string, list: seq<Ace>) {
    if p in s.cache then list == s.cache[p]
    else Lists(list, Entries(prefix, s.store, p))
  }

  ghost predicate AnyAllows(list: seq<Ace>, r: Request) {
    exists ace :: ace in list && Allows(ace, r)
  }

  /** What an entry is to grant: its permissions, on the queues that its pattern matches, until it expires, and
      during its hours if it has any. */
  ghost predicate Covers(ace: Ace, r: Request) {
    && Glob.Matches(ace.queuePattern, r.queue)
    && r.permission in ace.permissions
    && (ace.expiresAt.Some? ==> r.now <= ace.expiresAt.value)
    && (ace.conditions.Some? && ace.conditions.value.timeRange.Some? ==>
          ace.conditions.value.timeRange.value.startHour <= r.hour < ace.conditions.value.timeRange.value.endHour)
  }

  /** Some pattern whose last write for `p` was a grant covers the request, as it was granted. */
  ghost predicate LastWritesAllow(ops: seq<Op>, p: string, r: Request) {
    exists i :: && 0 <= i < |ops| && ops[i].Grant? && LastGrant(ops, i, p, ops[i].ace.queuePattern)
                && Covers(ops[i].ace, r)
  }

  /** With safe ids, after every run a query lists exactly what was last granted to the principal. */
  lemma {:induction false} QueriesFollowLastWrites(prefix: string, ids: set<string>, ops: seq<Op>,
                                                   states: seq<State>, p: string, list: seq<Ace>)
    requires KeyPattern.Plain(prefix) && Safe(ids) && RunOver(prefix, ids, ops, states) && p in ids
    requires QueryReturns(prefix, states[|ops|], p, list)
    ensures Lists(list, GrantedTo(Granted(ops), p))
  {
    SafeIsColonPrefixFree(ids);
    RunKeeps(prefix, ids, ops, states);
    RunCoheres(prefix, ids, ops, states);
    ScanMeansGrants(prefix, ids, states[|ops|].store, Granted(ops), p);
  }

  /** With safe ids, after every run the access check is true exactly when some entry last granted to the
      principal covers the request: pattern, permission, expiry and hours as they were granted. */
  lemma DecisionsFollowLastWrites(prefix: string, ids: set<string>, ops: seq<Op>, states: seq<State>,
                                  p: string, list: seq<Ace>, r: Request)
    requires KeyPattern.Plain(prefix) && Safe(ids) && RunOver(prefix, ids, ops, states) && p in ids
    requires QueryReturns(prefix, states[|ops|], p, list)
    ensures AnyAllows(list, r) <==> LastWritesAllow(ops, p, r)
  {
    var g := Granted(ops);
    QueriesFollowLastWrites(prefix, ids, ops, states, p, list);
    if AnyAllows(list, r) {
      var ace :| ace in list && Allows(ace, r);
      var pq :| pq in g && pq.0 == p && g[pq] == ace;
      assert (p, pq.1) in g;
      GrantedExactly(ops, p, pq.1);
      var i :| 0 <= i < |ops| && LastGrant(ops, i, p, pq.1);
    }
    if i :| 0 <= i < |ops| && ops[i].Grant? && LastGrant(ops, i, p, ops[i].ace.queuePattern) && Covers(ops[i].ace, r) {
      var q := ops[i].ace.queuePattern;
      GrantedExactly(ops, p, q);
      assert g[(p, q)] in GrantedTo(g, p);
    }
  }

  // ---------------------------------------------------------------- exactly which ids are safe

  ghost predicate AlwaysCoherent(prefix: string, ids: set<string>) {
    forall ops, states :: RunOver(prefix, ids, ops, states) ==> Coherent(prefix, states[|ops|])
  }

  ghost predicate DecidedAs(prefix: string, ops: seq<Op>, s: State, p: string, list: seq<Ace>, r: Request) {
    QueryReturns(prefix, s, p, list) ==> (AnyAllows(list, r) <==> LastWritesAllow(ops, p, r))
  }

  ghost predicate AlwaysDecidesByLastWrites(prefix: string, ids: set<string>) {
    forall ops, states, p, list, r ::
      RunOver(prefix, ids, ops, states) && p in ids ==> DecidedAs(prefix, ops, states[|ops|], p, list, r)
  }

  /** The cache is coherent on all runs over `ids` exactly when no id's scan sees keys of another id;
      access is decided by the last writes on all runs exactly when, besides, every id's scan sees all
      its own keys. */
  lemma SafeIdsExactly(prefix: string, ids: set<string>)
    requires KeyPattern.Plain(prefix)
    ensures AlwaysCoherent(prefix, ids) <==> Separate(ids)
    ensures AlwaysDecidesByLastWrites(prefix, ids) <==> Safe(ids)
  {
    if Separate(ids) {
      forall ops, states | RunOver(prefix, ids, ops, states)
        ensures Coherent(prefix, states[|ops|])
      {
        RunCoheres(prefix, ids, ops, states);
      }
    } else {
      var p, r :| p in ids && r in ids && p != r && Catches(p, r);
      StaleAfterGrant(prefix, ids, p, r);
      AllowedByOthersGrant(prefix, ids, p, r);
    }
    if Safe(ids) {
      SafeDecides(prefix, ids);
    } else if p :| p in ids && !FindsItself(p) {
      DeniedDespiteGrant(prefix, ids, p);
    }
  }

  lemma SafeDecides(prefix: string, ids: set<string>)
    requires KeyPattern.Plain(prefix) && Safe(ids)
    ensures AlwaysDecidesByLastWrites(prefix, ids)
  {
    forall ops, states, p, list, r | RunOver(prefix, ids, ops, states) && p in ids
      ensures DecidedAs(prefix, ops, states[|ops|], p, list, r)
    {
      if QueryReturns(prefix, states[|ops|], p, list) {
        DecisionsFollowLastWrites(prefix, ids, ops, states, p, list, r);
      }
    }
  }

  function SomeAce(principalId: string, queuePattern: string): Ace {
    Ace(principalId, User, queuePattern, {CanAddJob}, None, 0, None)
  }

  lemma SomeAceAllows(principalId: string, queue: string)
    ensures Allows(SomeAce(principalId, queue), Request(queue, CanAddJob, None, 0, 0))
  {
    Glob.MatchesItself(queue);
  }

  lemma GrantRun(prefix: string, ids: set<string>, r: string, q: string) returns (ops: seq<Op>, states: seq<State>)
    requires r in ids
    ensures RunOver(prefix, ids, ops, states) && ops == [Grant(SomeAce(r, q))]
    ensures states[1] == State(map[AceKey(prefix, r, q) := AceRecord(SomeAce(r, q))], map[], map[])
    ensures Granted(ops) == map[(r, q) := SomeAce(r, q)]
  {
    ops := [Grant(SomeAce(r, q))];
    states := [INITIAL, State(map[AceKey(prefix, r, q) := AceRecord(SomeAce(r, q))], map[], map[])];
    assert Step(prefix, states[0], ops[0], states[1]);
    assert Granted(ops[..0]) == map[];
  }

  /** Query `p`, then grant to `r`: the write invalidates `r` only, though the scan of `p` now finds more. */
  lemma StaleAfterGrant(prefix: string, ids: set<string>, p: string, r: string)
    requires KeyPattern.Plain(prefix) && p in ids && r in ids && p != r && Catches(p, r)
    ensures !AlwaysCoherent(prefix, ids)
  {
    CatchesExactly(p, r);
    var q :| SeesKey(p, r, q);
    var ace, key := SomeAce(r, q), AceKey(prefix, r, q);
    var none: seq<Ace> := [];
    var ops := [Query(p), Grant(ace)];
    var states := [INITIAL, State(map[], map[p := none], map[]),
                   State(map[key := AceRecord(ace)], map[p := none], map[])];
    ScanSees(prefix, p, r, q);
    assert Step(prefix, states[0], ops[0], states[1]);
    assert Step(prefix, states[1], ops[1], states[2]) by {
      assert states[1].cache - {r} == states[1].cache;
    }
    assert RunOver(prefix, ids, ops, states);
    assert key in Scan(states[2].store, PrincipalPattern(prefix, p));
    assert ace in Entries(prefix, states[2].store, p);
    assert !Coherent(prefix, states[|ops|]);
  }

  /** Grant to `r` alone: `p` is allowed, although nothing was granted to `p`. */
  lemma AllowedByOthersGrant(prefix: string, ids: set<string>, p: string, r: string)
    requires KeyPattern.Plain(prefix) && p in ids && r in ids && p != r && Catches(p, r)
    ensures !AlwaysDecidesByLastWrites(prefix, ids)
  {
    CatchesExactly(p, r);
    var q :| SeesKey(p, r, q);
    var ops, states := GrantRun(prefix, ids, r, q);
    var ace, request := SomeAce(r, q), Request(q, CanAddJob, None, 0, 0);
    SomeAceAllows(r, q);
    ScanSees(prefix, p, r, q);
    assert AceKey(prefix, r, q) in Scan(states[1].store, PrincipalPattern(prefix, p));
    assert Entries(prefix, states[1].store, p) == {ace};
    assert ace in [ace];
    assert ops[0] == Grant(ace);
    assert !DecidedAs(prefix, ops, states[|ops|], p, [ace], request);
  }

  /** Grant to `p` alone: `p` is denied, because its scan does not find the key. */
  lemma DeniedDespiteGrant(prefix: string, ids: set<string>, p: string)
    requires KeyPattern.Plain(prefix) && p in ids && !FindsItself(p)
    ensures !AlwaysDecidesByLastWrites(prefix, ids)
  {
    FindsItselfExactly(p);
    var q :| !SeesKey(p, p, q);
    var ops, states := GrantRun(prefix, ids, p, q);
    var none: seq<Ace>, request := [], Request(q, CanAddJob, None, 0, 0);
    SomeAceAllows(p, q);
    ScanSees(prefix, p, p, q);
    assert Entries(prefix, states[1].store, p) == {};
    assert LastGrant(ops, 0, p, q) && ops[0] == Grant(SomeAce(p, q));
    assert !DecidedAs(prefix, ops, states[|ops|], p, none, request);
  }

  /** The id "*" is not safe beside any other id: it is allowed whatever anyone else is granted, and its
      cached list goes stale when others are granted more. */
  lemma StarIsNeverSafe(prefix: string, ids: set<string>, r: string)
    requires KeyPattern.Plain(prefix) && "*" in ids && r in ids && r != "*"
    ensures !AlwaysCoherent(prefix, ids) && !AlwaysDecidesByLastWrites(prefix, ids)
  {
    StarCatches(r, "");
    CatchesExactly("*", r);
    StaleAfterGrant(prefix, ids, "*", r);
    AllowedByOthersGrant(prefix, ids, "*", r);
  }

  // ---------------------------------------------------------------- custom checkers

  ghost predicate NoCustomKept(s: State) {
    && (forall key :: key in s.store && s.store[key].AceRecord? ==> Stored(s.store[key].ace) == s.store[key].ace)
    && (forall p, i :: p in s.cache && 0 <= i < |s.cache[p]| ==> Stored(s.cache[p][i]) == s.cache[p][i])
  }

  lemma {:induction false} RunKeepsNoCustom(prefix: string, ops: seq<Op>, states: seq<State>)
    requires Run(prefix, ops, states)
    ensures NoCustomKept(states[|ops|])
    decreases |ops|
  {
    if ops == [] {
    } else {
      var n := |ops| - 1;
      assert Run(prefix, ops[..n], states[..n + 1]);
      RunKeepsNoCustom(prefix, ops[..n], states[..n + 1]);
      if ops[n].Query? && ops[n].principalId !in states[n].cache {
        ListedAreStored(prefix, states[n], ops[n].principalId, states[n + 1].cache[ops[n].principalId]);
      }
    }
  }

  lemma ListedAreStored(prefix: string, s: State, p: string, list: seq<Ace>)
    requires NoCustomKept(s) && QueryReturns(prefix, s, p, list)
    ensures forall i :: 0 <= i < |list| ==> Stored(list[i]) == list[i]
  {
    if p !in s.cache {
      forall i | 0 <= i < |list|
        ensures Stored(list[i]) == list[i]
      {
        assert list[i] in list;
      }
    }
  }

  /** On every run, whatever the ids, no decision depends on the context of the request: custom checkers
      are lost in the store. */
  lemma ContextNeverMatters(prefix: string, ops: seq<Op>, states: seq<State>, p: string, list: seq<Ace>, r: Request,
                            context: Option<Context>)
    requires Run(prefix, ops, states) && QueryReturns(prefix, states[|ops|], p, list)
    ensures AnyAllows(list, r) <==> AnyAllows(list, r.(context := context))
  {
    RunKeepsNoCustom(prefix, ops, states);
    ListedAreStored(prefix, states[|ops|], p, list);
    forall ace | ace in list
      ensures Allows(ace, r) <==> Allows(ace, r.(context := context))
    {
      assert Stored(ace) == ace;
    }
  }

  // ---------------------------------------------------------------- the list of a queue

  ghost function QueueEntries(prefix: string, store: map<string, Record>, queue: string): set<Ace> {
    set key | key in Scan(store, EveryonePattern(prefix)) && store[key].AceRecord?
              && Glob.Matches(store[key].ace.queuePattern, queue) :: store[key].ace
  }

  ghost function GrantedOn(g: Grants, queue: string): set<Ace> {
    set pq | pq in g && Glob.Matches(pq.1, queue) :: g[pq]
  }

  /** With colon-prefix-free ids, after every run the access list of a queue is every granted entry whose
      pattern matches it. */
  lemma QueueListsFollowLastWrites(prefix: string, ids: set<string>, ops: seq<Op>, states: seq<State>, queue: string)
    requires KeyPattern.Plain(prefix) && ColonPrefixFree(ids) && RunOver(prefix, ids, ops, states)
    ensures ListedAs(prefix, ops, states[|ops|], queue)
  {
    RunKeeps(prefix, ids, ops, states);
    var g, store := Granted(ops), states[|ops|].store;
    forall ace | ace in QueueEntries(prefix, store, queue)
      ensures ace in GrantedOn(g, queue)
    {
      assert (ace.principalId, ace.queuePattern) in g;
    }
    forall ace | ace in GrantedOn(g, queue)
      ensures ace in QueueEntries(prefix, store, queue)
    {
      var pq :| pq in g && Glob.Matches(pq.1, queue) && g[pq] == ace;
      assert (pq.0, pq.1) in g;
      EveryoneSees(prefix, AceKey(prefix, pq.0, pq.1));
      assert AceKey(prefix, pq.0, pq.1) in Scan(store, EveryonePattern(prefix));
    }
  }

  ghost predicate AlwaysListsLastWrites(prefix: string, ids: set<string>) {
    forall ops, states, queue ::
      RunOver(prefix, ids, ops, states) ==> ListedAs(prefix, ops, states[|ops|], queue)
  }

  ghost predicate ListedAs(prefix: string, ops: seq<Op>, s: State, queue: string) {
    forall ace :: ace in QueueEntries(prefix, s.store, queue) <==> ace in GrantedOn(Granted(ops), queue)
  }

  /** The queue lists are right on all runs exactly for colon-prefix-free ids: otherwise the keys of two
      principals can be the same, and revoking the one grant removes the other. */
  lemma QueueListsExactly(prefix: string, ids: set<string>)
    requires KeyPattern.Plain(prefix)
    ensures AlwaysListsLastWrites(prefix, ids) <==> ColonPrefixFree(ids)
  {
    if ColonPrefixFree(ids) {
      forall ops, states, queue | RunOver(prefix, ids, ops, states)
        ensures ListedAs(prefix, ops, states[|ops|], queue)
      {
        QueueListsFollowLastWrites(prefix, ids, ops, states, queue);
      }
    } else {
      var p, r :| p in ids && r in ids && p + ":" <= r;
      GrantLostToRevoke(prefix, ids, p, r);
    }
  }

  lemma GrantLostToRevoke(prefix: string, ids: set<string>, p: string, r: string)
    requires p in ids && r in ids && p + ":" <= r
    ensures !AlwaysListsLastWrites(prefix, ids)
  {
    var q := r[|p| + 1..] + ":";
    var before, reached := GrantRun(prefix, ids, p, q);
    assert p + ":" + q == r + ":" + "";
    var ops, states := before + [Revoke(r, "")], reached + [State(map[], map[], map[])];
    assert Step(prefix, states[0], ops[0], states[1]);
    assert Step(prefix, states[1], ops[1], states[2]);
    assert RunOver(prefix, ids, ops, states);
    assert ops[..1] == before && |p| < |r|;
    assert (p, q) in Granted(ops);
    Glob.MatchesItself(q);
    assert SomeAce(p, q) in GrantedOn(Granted(ops), q);
    assert !ListedAs(prefix, ops, states[|ops|], q);
  }

  // ---------------------------------------------------------------- the manager

  datatype Outcome = Done | Unreachable

  /** `store` stands for Redis; `reachable` says whether Redis answers during the call. */
  class AccessControlManager {
    const keyPrefix: string
    var store: map<string, Record>
    var aclCache: map<string, seq<Ace>>
    var tenantCache: map<string, Tenant>

    ghost function Value(): State
      reads this
    {
      State(store, aclCache, tenantCache)
    }

    ghost predicate Valid()
      reads this
    {
      KeyPattern.Plain(keyPrefix) && Keyed(keyPrefix, store)
    }

    constructor (keyPrefix: string)
      requires KeyPattern.Plain(keyPrefix)
      ensures Valid() && this.keyPrefix == keyPrefix && Value() == INITIAL
    {
      this.keyPrefix := keyPrefix;
      store, aclCache, tenantCache := map[], map[], map[];
    }

    method CreateTenant(tenant: Tenant, reachable: bool) returns (r: Outcome)
      requires Valid()
      modifies this
      ensures Valid()
      ensures r == (if reachable then Done else Unreachable)
      ensures if reachable then Step(keyPrefix, old(Value()), Op.CreateTenant(tenant), Value())
              else Value() == old(Value())
      ensures reachable ==>
                && tenant.tenantId in tenantCache && tenantCache[tenant.tenantId] == tenant
                && TenantKey(keyPrefix, tenant.tenantId) in store
                && store[TenantKey(keyPrefix, tenant.tenantId)] == TenantRecord(tenant)
    {
      if !reachable {
        return Unreachable;
      }
      OtherKeys(keyPrefix, tenant.tenantId);
      store := store[TenantKey(keyPrefix, tenant.tenantId) := TenantRecord(tenant)];
      tenantCache := tenantCache[tenant.tenantId := tenant];
      return Done;
    }

    method DeleteTenant(tenantId: string, reachable: bool) returns (r: Outcome)
      requires Valid()
      modifies this
      ensures Valid()
      ensures r == (if reachable then Done else Unreachable)
      ensures if reachable then Step(keyPrefix, old(Value()), Op.DeleteTenant(tenantId), Value())
              else Value() == old(Value())
      ensures reachable ==> tenantId !in tenantCache && TenantKey(keyPrefix, tenantId) !in store
    {
      if !reachable {
        return Unreachable;
      }
      store := store - {TenantKey(keyPrefix, tenantId)};
      tenantCache := tenantCache - {tenantId};
      return Done;
    }

    /** `suffix` is the timestamp and random part of the key; failures are swallowed. */
    method AuditAccess(suffix: string, principalId: string, action: string, queueName: string,
                       metadata: Option<Context>, now: int, reachable: bool)
      requires Valid()
      modifies this
      ensures Valid()
      ensures if reachable
              then Step(keyPrefix, old(Value()),
                        Audit(suffix, AuditEntry(principalId, action, queueName, now, metadata)), Value())
              else Value() == old(Value())
      ensures reachable ==>
                AuditKey(keyPrefix, suffix) in store
                && store[AuditKey(keyPrefix, suffix)] ==
                   AuditRecord(AuditEntry(principalId, action, queueName, now, metadata))
    {
      if reachable {
        OtherKeys(keyPrefix, suffix);
        var entry := AuditEntry(principalId, action, queueName, now, metadata);
        store := store[AuditKey(keyPrefix, suffix) := AuditRecord(entry)];
      }
    }

    method GrantAccess(ace: Ace, reachable: bool) returns (r: Outcome)
      requires Valid()
      modifies this
      ensures Valid()
      ensures r == (if reachable then Done else Unreachable)
      ensures if reachable then Step(keyPrefix, old(Value()), Grant(ace), Value())
              else Value() == old(Value())
      ensures reachable ==>
                var key := AceKey(keyPrefix, ace.principalId, ace.queuePattern);
                && key in store && store[key].AceRecord? && KeptAs(ace, store[key].ace)
                && (ace.conditions == None || ace.conditions.value.custom == None ==> store[key].ace == ace)
                && ace.principalId !in aclCache
    {
      if !reachable {
        return Unreachable;
      }
      var key := AceKey(keyPrefix, ace.principalId, ace.queuePattern);
      store := store[key := AceRecord(Stored(ace))];
      aclCache := aclCache - {ace.principalId};
      return Done;
    }

    method RevokeAccess(principalId: string, queuePattern: string, reachable: bool) returns (r: Outcome)
      requires Valid()
      modifies this
      ensures Valid()
      ensures r == (if reachable then Done else Unreachable)
      ensures if reachable then Step(keyPrefix, old(Value()), Revoke(principalId, queuePattern), Value())
              else Value() == old(Value())
      ensures reachable ==> AceKey(keyPrefix, principalId, queuePattern) !in store && principalId !in aclCache
    {
      if !reachable {
        return Unreachable;
      }
      store := store - {AceKey(keyPrefix, principalId, queuePattern)};
      aclCache := aclCache - {principalId};
      return Done;
    }

    method GetPrincipalAccess(principalId: string, reachable: bool) returns (aces: seq<Ace>)
      requires Valid()
      modifies this
      ensures Valid()
      ensures reachable || principalId in old(aclCache) ==>
                && Step(keyPrefix, old(Value()), Query(principalId), Value())
                && QueryReturns(keyPrefix, old(Value()), principalId, aces)
                && aces == aclCache[principalId]
      ensures !reachable && principalId !in old(aclCache) ==> aces == [] && Value() == old(Value())
    {
      if principalId in aclCache {
        return aclCache[principalId];
      }
      if !reachable {
        return [];
      }
      var keys := Enumerate(Scan(store, PrincipalPattern(keyPrefix, principalId)));
      forall j | 0 <= j < |keys|
        ensures keys[j] in store && store[keys[j]].AceRecord?
      {
        ScanUnderRoot(keyPrefix, principalId, keys[j]);
      }
      aces := [];
      for k := 0 to |keys|
        invariant |aces| == k
        invariant forall j :: 0 <= j < k ==> store[keys[j]] == AceRecord(aces[j])
      {
        aces := aces + [store[keys[k]].ace];
      }
      EntriesListed(keyPrefix, store, principalId, keys, aces);
      aclCache := aclCache[principalId := aces];
    }

    method IsAceAllowed(ace: Ace, r: Request) returns (allowed: bool)
      ensures allowed <==> Allows(ace, r)
      ensures allowed <==>
                && Covers(ace, r)
                && (ace.conditions.Some? && ace.conditions.value.custom.Some? && r.context.Some? ==>
                      r.context.value in ace.conditions.value.custom.value)
    {
      var matches := Glob.MatchesPattern(r.queue, ace.queuePattern);
      return matches && r.permission in ace.permissions
             && (ace.expiresAt == None || ace.expiresAt.value >= r.now)
             && (ace.conditions == None || ConditionsHold(ace.conditions.value, r.context, r.hour));
    }

    method CheckAccess(principalId: string, r: Request, reachable: bool) returns (allowed: bool)
      requires Valid()
      modifies this
      ensures Valid()
      ensures reachable || principalId in old(aclCache) ==>
                && Step(keyPrefix, old(Value()), Query(principalId), Value())
                && QueryReturns(keyPrefix, old(Value()), principalId, aclCache[principalId])
                && (allowed <==> AnyAllows(aclCache[principalId], r))
      ensures !reachable && principalId !in old(aclCache) ==> !allowed && Value() == old(Value())
    {
      var aces := GetPrincipalAccess(principalId, reachable);
      for k := 0 to |aces|
        invariant forall j :: 0 <= j < k ==> !Allows(aces[j], r)
        modifies {}
      {
        var ok := IsAceAllowed(aces[k], r);
        if ok {
          return true;
        }
      }
      return false;
    }

    method GetQueueAccess(queueName: string, reachable: bool) returns (aces: seq<Ace>)
      requires Valid()
      ensures reachable ==> Lists(aces, QueueEntries(keyPrefix, store, queueName))
      ensures !reachable ==> aces == []
    {
      if !reachable {
        return [];
      }
      var keys := Enumerate(Scan(store, EveryonePattern(keyPrefix)));
      forall j | 0 <= j < |keys|
        ensures keys[j] in store && store[keys[j]].AceRecord?
      {
        EveryoneSees(keyPrefix, keys[j]);
      }
      aces := [];
      for k := 0 to |keys|
        invariant NoDup(aces)
        invariant forall ace :: ace in aces ==>
                    exists j :: && 0 <= j < k && store[keys[j]] == AceRecord(ace)
                                && Glob.Matches(ace.queuePattern, queueName)
        invariant forall j :: 0 <= j < k && Glob.Matches(store[keys[j]].ace.queuePattern, queueName) ==>
                    store[keys[j]].ace in aces
      {
        var ace := store[keys[k]].ace;
        var matches := Glob.MatchesPattern(queueName, ace.queuePattern);
        if matches {
          assert ace !in aces;
          aces := aces + [ace];
        }
      }
    }
  }

  lemma EntriesListed(prefix: string, store: map<string, Record>, p: string, keys: seq<string>, aces: seq<Ace>)
    requires Keyed(prefix, store) && Lists(keys, Scan(store, PrincipalPattern(prefix, p))) && |aces| == |keys|
    requires forall j :: 0 <= j < |keys| ==> keys[j] in store && store[keys[j]] == AceRecord(aces[j])
    ensures Lists(aces, Entries(prefix, store, p))
  {
    forall ace | ace in Entries(prefix, store, p)
      ensures ace in aces
    {
      var key :| key in Scan(store, PrincipalPattern(prefix, p)) && store[key] == AceRecord(ace);
      assert key in keys;
      var j :| 0 <= j < |keys| && keys[j] == key;
      assert aces[j] == ace;
    }
    forall ace | ace in aces
      ensures ace in Entries(prefix, store, p)
    {
      var j :| 0 <= j < |aces| && aces[j] == ace;
      assert keys[j] in keys;
    }
  }
}
