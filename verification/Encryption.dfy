/** Encryption with rotating keys.

    The ciphers and the JSON codec are parameters with the laws that the manager relies on.  Key
    objects are shared with the caller and change in place, as in the original. */
module Encryption {
  import opened Prelude

  datatype Algorithm = Gcm | Cbc | Unsupported(name: string)

  /** A string, a record, or any other JSON value. */
  datatype Data = Text(text: string) | Record(fields: map<string, string>) | OtherJson(literal: string)

  /** JSON, and what becomes of a string on its way through UTF-8: `repair` replaces lone surrogates. */
  datatype Codec = Codec(stringify: Data -> string, parse: string -> Option<Data>, repair: string -> string)

  predicate TextWithin(d: Option<Data>, length: nat) {
    d.Some? && d.value.Text? ==> |d.value.text| < length
  }

  /** Records survive the codec and UTF-8, for JSON escapes lone surrogates.  A JSON string literal is longer than
      the string it denotes, and replacing surrogates makes no string longer. */
  ghost predicate CodecLaws(c: Codec) {
    && (forall d: Data :: !d.Text? ==> c.parse(c.repair(c.stringify(d))) == Some(d))
    && (forall s :: TextWithin(c.parse(c.repair(s)), |s|))
  }

  datatype Sealed = Sealed(ciphertext: string, tag: Option<string>)

  /** `usable` tells for which key material the cipher can be set up at all; sealing with other material
      throws.  The other functions take the algorithm, the key and the initialisation vector. */
  datatype Cipher = Cipher(
    usable: (Algorithm, string) -> bool,
    seal: (Algorithm, string, string, string) -> Sealed,
    unseal: (Algorithm, string, string, Sealed) -> Option<string>)

  ghost predicate CipherLaw(c: Cipher) {
    forall a: Algorithm, key, iv, plain ::
      !a.Unsupported? && c.usable(a, key) ==> c.unseal(a, key, iv, c.seal(a, key, iv, plain)) == Some(plain)
  }

  datatype Encrypted = Encrypted(payload: Sealed, iv: string, keyId: string, algorithm: Algorithm)

  datatype Result<+T> =
    | Ok(value: T)
    | NoActiveKey | KeyNotFound | UnsupportedAlgorithm | BadKeyMaterial | BadCiphertext | StoreFailed

  // ---------------------------------------------------------------- keys as values

  datatype Key = Key(keyId: string, material: string, algorithm: Algorithm, isActive: bool)

  /** What the store holds, what this manager has cached, and the id it encrypts with. */
  datatype State = State(store: map<string, Key>, cache: map<string, Key>, active: Option<string>)

  const FRESH := State(map[], map[], None)

  /** An empty id counts as none. */
  predicate HasActive(active: Option<string>) { active.Some? && active.value != "" }

  function AddKeyTo(s: State, k: Key): State {
    State(s.store[k.keyId := k], s.cache[k.keyId := k], s.active)
  }

  /** The cached key object marked inactive, the store not reached. */
  function MarkInactive(s: State, id: string): State
    requires id in s.cache
  {
    s.(cache := s.cache[id := s.cache[id].(isActive := false)])
  }

  function DeactivateIn(s: State, id: string): State {
    if id in s.cache then AddKeyTo(s, s.cache[id].(isActive := false)) else s
  }

  /** The first half of a rotation; `works` tells whether the store is reached. */
  function RetireIn(s: State, works: bool): State {
    if !HasActive(s.active) || s.active.value !in s.cache then s
    else if works then DeactivateIn(s, s.active.value)
    else MarkInactive(s, s.active.value)
  }

  predicate RetireWorks(s: State, works: bool) {
    works || !HasActive(s.active) || s.active.value !in s.cache
  }

  function RotateTo(s: State, k: Key): State {
    AddKeyTo(RetireIn(s, true), k.(isActive := true)).(active := Some(k.keyId))
  }

  function RemoveFrom(s: State, id: string): State {
    s.(store := s.store - {id}, cache := s.cache - {id})
  }

  /** What the cipher gives back, as a string again. */
  function Plaintext(codec: Codec, d: Data): string {
    codec.repair(if d.Text? then d.text else codec.stringify(d))
  }

  /** No string, or a string without lone surrogates that is not valid JSON. */
  predicate Encodes(codec: Codec, d: Data) {
    !d.Text? || (codec.repair(d.text) == d.text && codec.parse(d.text) == None)
  }

  function Encrypt(cipher: Cipher, codec: Codec, s: State, d: Data, iv: string): Result<Encrypted> {
    if !HasActive(s.active) then NoActiveKey
    else if s.active.value !in s.cache then KeyNotFound
    else
      var k := s.cache[s.active.value];
      if k.algorithm.Unsupported? then UnsupportedAlgorithm
      else if !cipher.usable(k.algorithm, k.material) then BadKeyMaterial
      else Ok(Encrypted(cipher.seal(k.algorithm, k.material, iv, Plaintext(codec, d)), iv, k.keyId, k.algorithm))
  }

  function Parsed(codec: Codec, plaintext: string): Data {
    codec.parse(plaintext).GetOr(Text(plaintext))
  }

  function Decrypt(cipher: Cipher, codec: Codec, s: State, e: Encrypted): Result<Data> {
    if e.keyId !in s.cache then KeyNotFound
    else if e.algorithm.Unsupported? then UnsupportedAlgorithm
    else
      match cipher.unseal(e.algorithm, s.cache[e.keyId].material, e.iv, e.payload)
      case None => BadCiphertext
      case Some(plaintext) => Ok(Parsed(codec, plaintext))
  }

  // ---------------------------------------------------------------- runs

  datatype Op =
    | DoEncrypt(data: Data, iv: string)
    | DoAdd(key: Key)
    | DoRotate(key: Key)
    | DoDeactivate(id: string)
    | DoRemove(id: string)

  function Step(s: State, op: Op): State {
    match op
    case DoEncrypt(_, _) => s
    case DoAdd(k) => AddKeyTo(s, k)
    case DoRotate(k) => RotateTo(s, k)
    case DoDeactivate(id) => DeactivateIn(s, id)
    case DoRemove(id) => RemoveFrom(s, id)
  }

  /** The state after the first `n` operations, starting from `s`. */
  function After(s: State, ops: seq<Op>, n: nat): State
    requires n <= |ops|
  {
    if n == 0 then s else Step(After(s, ops, n - 1), ops[n - 1])
  }

  predicate InstallsKey(op: Op) { op.DoAdd? || op.DoRotate? }

  predicate FiledByOwnId(s: State) {
    forall id :: id in s.cache ==> s.cache[id].keyId == id
  }

  lemma {:induction false} CacheIsFiled(s: State, ops: seq<Op>, n: nat)
    requires n <= |ops| && FiledByOwnId(s)
    ensures FiledByOwnId(After(s, ops, n))
  {
    if n == 0 {
    } else {
      CacheIsFiled(s, ops, n - 1);
    }
  }

  /** The key last installed under `id` and not removed since. */
  function Installed(ops: seq<Op>, n: nat, id: string): Option<Key>
    requires n <= |ops|
  {
    if n == 0 then None
    else
      var op := ops[n - 1];
      if InstallsKey(op) && op.key.keyId == id then Some(op.key)
      else if op == DoRemove(id) then None
      else Installed(ops, n - 1, id)
  }

  predicate SameKey(a: Key, b: Key) { a.material == b.material && a.algorithm == b.algorithm }

  /** A manager that starts with an empty cache has cached exactly the keys installed and not removed
      since. */
  lemma {:induction false} CacheIsInstalled(s: State, ops: seq<Op>, n: nat, id: string)
    requires n <= |ops| && s.cache == map[]
    ensures var cache := After(s, ops, n).cache;
            && (id in cache <==> Installed(ops, n, id).Some?)
            && (id in cache ==> SameKey(cache[id], Installed(ops, n, id).value))
  {
    if n == 0 {
    } else {
      CacheIsInstalled(s, ops, n - 1, id);
      CacheIsFiled(s, ops, n - 1);
    }
  }

  // ---------------------------------------------------------------- which ciphertexts survive

  /** Some key can be used for encryption, as far as the manager can tell. */
  predicate Ready(s: State) {
    HasActive(s.active) && s.active.value in s.cache && !s.cache[s.active.value].algorithm.Unsupported?
  }

  /** The key material that `s` encrypts with is the one cached under that id in `s'`. */
  predicate KeepsMaterial(s: State, s': State)
    requires Ready(s)
  {
    s.active.value in s'.cache && s'.cache[s.active.value].material == s.cache[s.active.value].material
  }

  /** A lawful cipher that can use the key `s` encrypts with. */
  ghost predicate Suits(cipher: Cipher, s: State)
    requires Ready(s)
  {
    CipherLaw(cipher) && cipher.usable(s.cache[s.active.value].algorithm, s.cache[s.active.value].material)
  }

  ghost predicate DecryptsTo(cipher: Cipher, codec: Codec, s: State, s': State, d: Data, iv: string, back: Data)
    requires Ready(s)
  {
    Suits(cipher, s) ==>
      var r := Encrypt(cipher, codec, s, d, iv);
      r.Ok? && Decrypt(cipher, codec, s', r.value) == Ok(back)
  }

  ghost predicate AlwaysDecryptsTo(codec: Codec, s: State, s': State, d: Data, iv: string, back: Data)
    requires Ready(s)
  {
    forall cipher: Cipher :: DecryptsTo(cipher, codec, s, s', d, iv, back)
  }

  lemma DecryptsWithSameMaterial(cipher: Cipher, codec: Codec, s: State, s': State, d: Data, iv: string)
    requires FiledByOwnId(s) && Ready(s) && KeepsMaterial(s, s')
    ensures DecryptsTo(cipher, codec, s, s', d, iv, Parsed(codec, Plaintext(codec, d)))
  {
    if Suits(cipher, s) {
      var k := s.cache[s.active.value];
      assert cipher.unseal(k.algorithm, k.material, iv, cipher.seal(k.algorithm, k.material, iv, Plaintext(codec, d)))
             == Some(Plaintext(codec, d));
    }
  }

  /** A cipher that tells its keys apart. */
  function CommittingCipher(): Cipher {
    Cipher(
      (a: Algorithm, key: string) => true,
      (a: Algorithm, key: string, iv: string, plain: string) => Sealed(plain, Some(key)),
      (a: Algorithm, key: string, iv: string, c: Sealed) => if c.tag == Some(key) then Some(c.ciphertext) else None)
  }

  lemma RefusedWithOtherMaterial(codec: Codec, s: State, s': State, d: Data, iv: string)
    requires FiledByOwnId(s) && Ready(s) && !KeepsMaterial(s, s')
    ensures Suits(CommittingCipher(), s) && Encrypt(CommittingCipher(), codec, s, d, iv).Ok?
    ensures !Decrypt(CommittingCipher(), codec, s', Encrypt(CommittingCipher(), codec, s, d, iv).value).Ok?
  {
  }

  /** The data survives encoding exactly when it is no string, or a string without lone surrogates that is
      not valid JSON. */
  lemma EncodingIsFaithful(codec: Codec, d: Data)
    requires CodecLaws(codec)
    ensures Parsed(codec, Plaintext(codec, d)) == d <==> Encodes(codec, d)
  {
    if d.Text? {
      assert TextWithin(codec.parse(codec.repair(d.text)), |d.text|);
    }
  }

  /** What is encrypted in state `s` decrypts in state `s'`, for every cipher that suits, exactly when the
      material cached under the key's id is the same; and it decrypts to the original data exactly when,
      besides, that survives encoding. */
  lemma SurvivesExactly(codec: Codec, s: State, s': State, d: Data, iv: string)
    requires CodecLaws(codec) && FiledByOwnId(s) && Ready(s)
    ensures AlwaysDecryptsTo(codec, s, s', d, iv, Parsed(codec, Plaintext(codec, d))) <==> KeepsMaterial(s, s')
    ensures AlwaysDecryptsTo(codec, s, s', d, iv, d) <==>
            KeepsMaterial(s, s') && Encodes(codec, d)
  {
    EncodingIsFaithful(codec, d);
    var back := Parsed(codec, Plaintext(codec, d));
    if KeepsMaterial(s, s') {
      forall cipher: Cipher
        ensures DecryptsTo(cipher, codec, s, s', d, iv, back)
      {
        DecryptsWithSameMaterial(cipher, codec, s, s', d, iv);
      }
      assert Suits(CommittingCipher(), s);
      assert DecryptsTo(CommittingCipher(), codec, s, s', d, iv, back);
      assert DecryptsTo(CommittingCipher(), codec, s, s', d, iv, d) ==> back == d;
    } else {
      RefusedWithOtherMaterial(codec, s, s', d, iv);
      assert !DecryptsTo(CommittingCipher(), codec, s, s', d, iv, back);
      assert !DecryptsTo(CommittingCipher(), codec, s, s', d, iv, d);
    }
  }

  /** The keys installed under `id` at the two steps have the same material. */
  predicate SameInstalled(ops: seq<Op>, m: nat, n: nat, id: string)
    requires m <= |ops| && n <= |ops|
  {
    var before, later := Installed(ops, m, id), Installed(ops, n, id);
    before.Some? && later.Some? && later.value.material == before.value.material
  }

  /** Over any run of all operations from a manager with an empty cache: a ciphertext issued at step `m`
      decrypts to its data at step `n`, for every cipher that suits, exactly when the key installed under
      its id has the same material at both steps and the data survives encoding. */
  lemma CiphertextsSurviveExactly(codec: Codec, start: State, ops: seq<Op>, m: nat, n: nat)
    requires CodecLaws(codec) && start.cache == map[] && m < n <= |ops| && ops[m].DoEncrypt?
    requires Ready(After(start, ops, m))
    ensures var s, d := After(start, ops, m), ops[m].data;
            AlwaysDecryptsTo(codec, s, After(start, ops, n), d, ops[m].iv, d) <==>
              SameInstalled(ops, m, n, s.active.value) && Encodes(codec, d)
  {
    var s := After(start, ops, m);
    CacheIsFiled(start, ops, m);
    CacheIsInstalled(start, ops, m, s.active.value);
    CacheIsInstalled(start, ops, n, s.active.value);
    SurvivesExactly(codec, s, After(start, ops, n), ops[m].data, ops[m].iv);
  }

  /** `op` installs nothing over cached material that differs, and removes no cached key. */
  predicate Harmless(s: State, op: Op) {
    && (InstallsKey(op) && op.key.keyId in s.cache ==> s.cache[op.key.keyId].material == op.key.material)
    && (op.DoRemove? ==> op.id !in s.cache)
  }

  /** The material cached under an id. */
  function MaterialOf(s: State, id: string): Option<string> {
    if id in s.cache then Some(s.cache[id].material) else None
  }

  lemma HarmlessKeeps(s: State, op: Op, id: string)
    requires FiledByOwnId(s) && Harmless(s, op) && MaterialOf(s, id).Some?
    ensures MaterialOf(Step(s, op), id) == MaterialOf(s, id)
  {
  }

  lemma {:induction false} MaterialStays(s: State, ops: seq<Op>, m: nat, n: nat, id: string)
    requires m <= n <= |ops| && FiledByOwnId(s) && MaterialOf(After(s, ops, m), id).Some?
    requires forall i :: m <= i < n ==> Harmless(After(s, ops, i), ops[i])
    ensures MaterialOf(After(s, ops, n), id) == MaterialOf(After(s, ops, m), id)
    decreases n
  {
    if m == n {
    } else {
      MaterialStays(s, ops, m, n - 1, id);
      CacheIsFiled(s, ops, n - 1);
      HarmlessKeeps(After(s, ops, n - 1), ops[n - 1], id);
    }
  }

  /** In particular every ciphertext survives encryptions, deactivations, and rotations and additions that
      replace no material. */
  lemma {:induction false} CiphertextsSurvive(cipher: Cipher, codec: Codec, start: State, ops: seq<Op>,
                                              m: nat, n: nat, e: Encrypted)
    requires CipherLaw(cipher) && FiledByOwnId(start) && m < n <= |ops| && ops[m].DoEncrypt?
    requires forall i :: m <= i < n ==> Harmless(After(start, ops, i), ops[i])
    requires Encrypt(cipher, codec, After(start, ops, m), ops[m].data, ops[m].iv) == Ok(e)
    ensures Decrypt(cipher, codec, After(start, ops, n), e) == Ok(Parsed(codec, Plaintext(codec, ops[m].data)))
  {
    var s := After(start, ops, m);
    CacheIsFiled(start, ops, m);
    MaterialStays(start, ops, m, n, s.active.value);
    DecryptsWithSameMaterial(cipher, codec, s, After(start, ops, n), ops[m].data, ops[m].iv);
  }

  /** Replacing the material under an id in use does lose ciphertexts, for a cipher that tells keys apart. */
  lemma ReplacedMaterialLosesCiphertext(codec: Codec, d: Data) returns (ops: seq<Op>)
    ensures CipherLaw(CommittingCipher()) && |ops| == 3 && ops[1] == DoEncrypt(d, "")
    ensures var r := Encrypt(CommittingCipher(), codec, After(FRESH, ops, 1), d, "");
            r.Ok? && Decrypt(CommittingCipher(), codec, After(FRESH, ops, 3), r.value) == BadCiphertext
  {
    var first, second := Key("k", "old", Gcm, true), Key("k", "new", Gcm, true);
    ops := [DoRotate(first), DoEncrypt(d, ""), DoRotate(second)];
    assert After(FRESH, ops, 0) == FRESH;
    assert After(FRESH, ops, 1) == State(map["k" := first], map["k" := first], Some("k"));
    assert After(FRESH, ops, 2) == After(FRESH, ops, 1);
    assert After(FRESH, ops, 3).cache["k"] == second;
  }

  // ---------------------------------------------------------------- which key is active

  predicate RotatesOnly(ops: seq<Op>) {
    forall i :: 0 <= i < |ops| ==> ops[i].DoRotate?
  }

  predicate RotatedTo(ops: seq<Op>, n: nat, id: string)
    requires RotatesOnly(ops) && n <= |ops|
  {
    exists i :: 0 <= i < n && ops[i].key.keyId == id
  }

  /** Cache and store agree and mark active exactly the key encrypted with and the one with the empty id. */
  predicate LastAndEmptyActive(s: State) {
    && s.store == s.cache && FiledByOwnId(s)
    && s.active.Some? && s.active.value in s.cache
    && forall id :: id in s.cache ==> (s.cache[id].isActive <==> id == s.active.value || id == "")
  }

  lemma RotateKeepsActive(s: State, k: Key)
    requires s == FRESH || LastAndEmptyActive(s)
    ensures LastAndEmptyActive(RotateTo(s, k)) && RotateTo(s, k).active == Some(k.keyId)
    ensures RotateTo(s, k).cache.Keys == s.cache.Keys + {k.keyId}
  {
  }

  /** In a run of rotations only, cache and store agree, hold the keys rotated to, and mark active exactly
      the last one and the one with the empty id. */
  lemma {:induction false} ActiveKeys(ops: seq<Op>, n: nat)
    requires RotatesOnly(ops) && 0 < n <= |ops|
    ensures LastAndEmptyActive(After(FRESH, ops, n)) && After(FRESH, ops, n).active == Some(ops[n - 1].key.keyId)
    ensures forall id :: id in After(FRESH, ops, n).cache <==> RotatedTo(ops, n, id)
  {
    var before := After(FRESH, ops, n - 1);
    if n == 1 {
    } else {
      ActiveKeys(ops, n - 1);
    }
    RotateKeepsActive(before, ops[n - 1].key);
    forall id
      ensures RotatedTo(ops, n, id) <==> RotatedTo(ops, n - 1, id) || id == ops[n - 1].key.keyId
    {
      if RotatedTo(ops, n - 1, id) {
        var i :| 0 <= i < n - 1 && ops[i].key.keyId == id;
      }
    }
    assert forall id :: id in After(FRESH, ops, n).cache <==> id in before.cache || id == ops[n - 1].key.keyId;
  }

  /** Only the key encrypted with is marked active. */
  predicate OneActive(s: State) {
    && s.active.Some? && s.active.value in s.cache
    && forall id :: id in s.cache ==> (s.cache[id].isActive <==> id == s.active.value)
  }

  /** In a run of rotations only, exactly the last key is active exactly when its id is empty or no key with
      an empty id has been rotated to. */
  lemma OneActiveKeyExactly(ops: seq<Op>, n: nat)
    requires RotatesOnly(ops) && 0 < n <= |ops|
    ensures OneActive(After(FRESH, ops, n)) <==> ops[n - 1].key.keyId == "" || !RotatedTo(ops, n, "")
  {
    ActiveKeys(ops, n);
    var s := After(FRESH, ops, n);
    assert RotatedTo(ops, n, ops[n - 1].key.keyId);
    if RotatedTo(ops, n, "") {
      assert "" in s.cache && s.cache[""].isActive;
    }
  }

  /** An empty key id counts as "no active key", so the next rotation leaves two keys active. */
  lemma EmptyIdLeavesTwoActive() returns (ops: seq<Op>)
    ensures |ops| == 2 && RotatesOnly(ops)
    ensures var s := After(FRESH, ops, 2);
            "" in s.cache && "b" in s.cache && s.cache[""].isActive && s.cache["b"].isActive
  {
    var a, b := Key("", "x", Gcm, false), Key("b", "y", Gcm, false);
    ops := [DoRotate(a), DoRotate(b)];
    ActiveKeys(ops, 2);
    assert ops[0].key.keyId == "" && ops[1].key.keyId == "b";
    assert RotatedTo(ops, 2, "") && RotatedTo(ops, 2, "b");
  }

  /** The id of the last rotation among the first `n` operations, else the one at the start. */
  function LastRotated(start: Option<string>, ops: seq<Op>, n: nat): Option<string>
    requires n <= |ops|
  {
    if n == 0 then start
    else if ops[n - 1].DoRotate? then Some(ops[n - 1].key.keyId)
    else LastRotated(start, ops, n - 1)
  }

  lemma {:induction false} ActiveIsLastRotated(s: State, ops: seq<Op>, n: nat)
    requires n <= |ops|
    ensures After(s, ops, n).active == LastRotated(s.active, ops, n)
  {
    if n == 0 {
    } else {
      ActiveIsLastRotated(s, ops, n - 1);
    }
  }

  /** For a manager that starts with an empty cache, encryption works exactly when the id last rotated to,
      or found at the start, is not empty and a key is installed under it whose algorithm is supported and
      whose material the cipher can use.  So adding keys alone never enables it for a new manager, and
      deactivating the active key does not disable it. */
  lemma EncryptWorksExactly(cipher: Cipher, codec: Codec, start: State, ops: seq<Op>, n: nat, d: Data, iv: string)
    requires n <= |ops| && start.cache == map[]
    ensures var last := LastRotated(start.active, ops, n);
            Encrypt(cipher, codec, After(start, ops, n), d, iv).Ok? <==>
            && last.Some? && last.value != ""
            && Installed(ops, n, last.value).Some?
            && !Installed(ops, n, last.value).value.algorithm.Unsupported?
            && cipher.usable(Installed(ops, n, last.value).value.algorithm,
                             Installed(ops, n, last.value).value.material)
    ensures start.active == None && (forall i :: 0 <= i < n ==> !ops[i].DoRotate?) ==>
              Encrypt(cipher, codec, After(start, ops, n), d, iv) == NoActiveKey
  {
    ActiveIsLastRotated(start, ops, n);
    var last := LastRotated(start.active, ops, n);
    if last.Some? {
      CacheIsInstalled(start, ops, n, last.value);
    }
    if forall i :: 0 <= i < n ==> !ops[i].DoRotate? {
      NeverRotated(start.active, ops, n);
    }
  }

  lemma {:induction false} NeverRotated(start: Option<string>, ops: seq<Op>, n: nat)
    requires n <= |ops| && forall i :: 0 <= i < n ==> !ops[i].DoRotate?
    ensures LastRotated(start, ops, n) == start
  {
    if n == 0 {
    } else {
      NeverRotated(start, ops, n - 1);
    }
  }

  // ---------------------------------------------------------------- restarting

  /** The first active key of a listing. */
  function FirstActive(keys: seq<Key>): Option<string> {
    if keys == [] then None
    else if keys[0].isActive then Some(keys[0].keyId)
    else FirstActive(keys[1..])
  }

  /** It is the first key marked active, and found exactly when there is one. */
  lemma {:induction false} FirstActiveIsFirst(keys: seq<Key>)
    ensures FirstActive(keys) == None <==> forall i :: 0 <= i < |keys| ==> !keys[i].isActive
    ensures forall i :: 0 <= i < |keys| && keys[i].isActive && (forall j :: 0 <= j < i ==> !keys[j].isActive) ==>
              FirstActive(keys) == Some(keys[i].keyId)
    ensures FirstActive(keys).Some? ==>
              exists i :: 0 <= i < |keys| && keys[i].isActive && keys[i].keyId == FirstActive(keys).value
  {
    if keys == [] {
    } else {
      FirstActiveIsFirst(keys[1..]);
      forall i | 0 <= i < |keys| && keys[i].isActive && (forall j :: 0 <= j < i ==> !keys[j].isActive)
        ensures FirstActive(keys) == Some(keys[i].keyId)
      {
        if i > 0 {
          assert keys[1..][i - 1].isActive && forall j :: 0 <= j < i - 1 ==> keys[1..][j] == keys[j + 1];
        }
      }
      if !keys[0].isActive && FirstActive(keys).Some? {
        var i :| 0 <= i < |keys| - 1 && keys[1..][i].isActive && keys[1..][i].keyId == FirstActive(keys).value;
        assert keys[i + 1].isActive;
      }
    }
  }

  function FoundActive(keys: seq<Key>, otherwise: Option<string>): Option<string> {
    if FirstActive(keys).Some? then FirstActive(keys) else otherwise
  }

  /** A new manager over an existing store, after `initialize`: the active id is found, the cache
      stays empty. */
  function Restarted(store: map<string, Key>, listing: seq<Key>): State {
    State(store, map[], FoundActive(listing, None))
  }

  lemma {:induction false} NeverInstalled(ops: seq<Op>, n: nat, id: string)
    requires n <= |ops|
    ensures (forall i :: 0 <= i < n ==> !(InstallsKey(ops[i]) && ops[i].key.keyId == id)) ==>
              Installed(ops, n, id) == None
  {
    if n == 0 {
    } else {
      NeverInstalled(ops, n - 1, id);
    }
  }

  /** On every run after a restart: until a key is installed again under the active id nothing can be
      encrypted, although the store holds it; and a ciphertext is not even tried exactly as long as no key
      is installed under its id, whatever the store holds. */
  lemma RestartNeedsKeysAgain(cipher: Cipher, codec: Codec, store: map<string, Key>, listing: seq<Key>,
                              ops: seq<Op>, n: nat, e: Encrypted, d: Data, iv: string)
    requires n <= |ops|
    ensures var start := Restarted(store, listing);
            var last := LastRotated(start.active, ops, n);
            && (Encrypt(cipher, codec, After(start, ops, n), d, iv).Ok? ==>
                  exists i :: 0 <= i < n && InstallsKey(ops[i]) && Some(ops[i].key.keyId) == last)
            && (Decrypt(cipher, codec, After(start, ops, n), e) == KeyNotFound <==> Installed(ops, n, e.keyId) == None)
  {
    var start := Restarted(store, listing);
    EncryptWorksExactly(cipher, codec, start, ops, n, d, iv);
    CacheIsInstalled(start, ops, n, e.keyId);
    var last := LastRotated(start.active, ops, n);
    if last.Some? {
      NeverInstalled(ops, n, last.value);
    }
  }

  /** A ciphertext from before the restart decrypts once its material is installed again under its id. */
  lemma RestartDecrypts(cipher: Cipher, codec: Codec, store: map<string, Key>, listing: seq<Key>, ops: seq<Op>, n: nat,
                        s: State, d: Data, iv: string)
    requires n <= |ops| && FiledByOwnId(s) && Ready(s) && Suits(cipher, s)
    requires Installed(ops, n, s.active.value).Some?
    requires Installed(ops, n, s.active.value).value.material == s.cache[s.active.value].material
    ensures Encrypt(cipher, codec, s, d, iv).Ok?
    ensures Decrypt(cipher, codec, After(Restarted(store, listing), ops, n), Encrypt(cipher, codec, s, d, iv).value)
            == Ok(Parsed(codec, Plaintext(codec, d)))
  {
    var now := After(Restarted(store, listing), ops, n);
    CacheIsInstalled(Restarted(store, listing), ops, n, s.active.value);
    DecryptsWithSameMaterial(cipher, codec, s, now, d, iv);
  }

  // ---------------------------------------------------------------- the manager

  class EncryptionKey {
    const keyId: string
    const material: string
    const algorithm: Algorithm
    var isActive: bool

    constructor (keyId: string, material: string, algorithm: Algorithm, isActive: bool)
      ensures this.keyId == keyId && this.material == material && this.algorithm == algorithm
      ensures this.isActive == isActive
    {
      this.keyId, this.material, this.algorithm, this.isActive := keyId, material, algorithm, isActive;
    }

    function Value(): Key
      reads this
    {
      Key(keyId, material, algorithm, isActive)
    }
  }

  class EncryptionManager {
    const cipher: Cipher
    const codec: Codec
    var store: map<string, Key>
    var activeKeyId: Option<string>
    var keysCache: map<string, EncryptionKey>

    ghost predicate Valid()
      reads this
    {
      forall id :: id in keysCache ==> keysCache[id].keyId == id
    }

    ghost function Value(): State
      reads this, keysCache.Values
    {
      State(store, map id | id in keysCache :: keysCache[id].Value(), activeKeyId)
    }

    constructor (cipher: Cipher, codec: Codec, store: map<string, Key>)
      ensures Valid() && Value() == State(store, map[], None)
      ensures this.cipher == cipher && this.codec == codec && keysCache == map[]
    {
      this.cipher, this.codec, this.store := cipher, codec, store;
      activeKeyId, keysCache := None, map[];
    }

    method Initialize(reachable: bool)
      requires Valid()
      modifies this`activeKeyId
      ensures Valid()
      ensures !reachable ==> activeKeyId == old(activeKeyId)
      ensures reachable ==>
                exists listing :: Lists(listing, store.Values)
                  && Value() == old(Value()).(active := FoundActive(listing, old(activeKeyId)))
      ensures reachable ==>
                if exists id :: id in store && store[id].isActive
                then exists id :: id in store && store[id].isActive && activeKeyId == Some(store[id].keyId)
                else activeKeyId == old(activeKeyId)
    {
      if !reachable {
        return;
      }
      var listing := Enumerate(store.Values);
      FirstActiveIsFirst(listing);
      assert forall id :: id in store ==> store[id] in listing;
      assert forall i :: 0 <= i < |listing| ==> listing[i] in store.Values;
      activeKeyId := FoundActive(listing, activeKeyId);
    }

    method EncryptData(data: Data, iv: string) returns (r: Result<Encrypted>)
      requires Valid()
      ensures r == Encrypt(cipher, codec, Value(), data, iv)
      ensures r == NoActiveKey <==> activeKeyId == None || activeKeyId == Some("")
      ensures r == KeyNotFound <==> activeKeyId.Some? && activeKeyId.value != "" && activeKeyId.value !in keysCache
      ensures r != NoActiveKey && r != KeyNotFound ==>
                var config := keysCache[activeKeyId.value];
                && (r == UnsupportedAlgorithm <==> config.algorithm.Unsupported?)
                && (r == BadKeyMaterial <==>
                      !config.algorithm.Unsupported? && !cipher.usable(config.algorithm, config.material))
                && (r.Ok? ==>
                      r.value.iv == iv && r.value.keyId == activeKeyId.value && r.value.algorithm == config.algorithm
                      && var plaintext := if data.Text? then data.text else codec.stringify(data);
                         r.value.payload == cipher.seal(config.algorithm, config.material, iv, codec.repair(plaintext)))
    {
      if activeKeyId == None || activeKeyId.value == "" {
        return NoActiveKey;
      }
      if activeKeyId.value !in keysCache {
        return KeyNotFound;
      }
      var config := keysCache[activeKeyId.value];
      var plaintext := if data.Text? then data.text else codec.stringify(data);
      if config.algorithm.Unsupported? {
        return UnsupportedAlgorithm;
      }
      if !cipher.usable(config.algorithm, config.material) {
        return BadKeyMaterial;
      }
      var sealed := cipher.seal(config.algorithm, config.material, iv, codec.repair(plaintext));
      return Ok(Encrypted(sealed, iv, config.keyId, config.algorithm));
    }

    method DecryptData(e: Encrypted) returns (r: Result<Data>)
      requires Valid()
      ensures r == Decrypt(cipher, codec, Value(), e)
      ensures r == KeyNotFound <==> e.keyId !in keysCache
      ensures r == UnsupportedAlgorithm <==> e.keyId in keysCache && e.algorithm.Unsupported?
    {
      if e.keyId !in keysCache {
        return KeyNotFound;
      }
      if e.algorithm.Unsupported? {
        return UnsupportedAlgorithm;
      }
      var plaintext := cipher.unseal(e.algorithm, keysCache[e.keyId].material, e.iv, e.payload);
      if plaintext == None {
        return BadCiphertext;
      }
      var parsed := codec.parse(plaintext.value);
      return Ok(if parsed.Some? then parsed.value else Text(plaintext.value));
    }

    method AddKey(k: EncryptionKey, reachable: bool) returns (r: Result<()>)
      requires Valid()
      modifies this`store, this`keysCache
      ensures Valid()
      ensures r == (if reachable then Ok(()) else StoreFailed)
      ensures keysCache == if reachable then old(keysCache)[k.keyId := k] else old(keysCache)
      ensures Value() == if reachable then AddKeyTo(old(Value()), k.Value()) else old(Value())
    {
      if !reachable {
        return StoreFailed;
      }
      store := store[k.keyId := k.Value()];
      keysCache := keysCache[k.keyId := k];
      return Ok(());
    }

    method DeactivateKey(keyId: string, reachable: bool) returns (r: Result<()>)
      requires Valid()
      modifies this`store, this`keysCache, keysCache.Values
      ensures Valid() && keysCache == old(keysCache)
      ensures reachable || keyId !in keysCache ==> r == Ok(()) && Value() == DeactivateIn(old(Value()), keyId)
      ensures !reachable && keyId in keysCache ==>
                r == StoreFailed && Value() == MarkInactive(old(Value()), keyId)
      ensures keyId in keysCache ==> !keysCache[keyId].isActive
      ensures reachable && keyId in keysCache ==> keyId in store && !store[keyId].isActive
    {
      if keyId !in keysCache {
        return Ok(());
      }
      var config := keysCache[keyId];
      config.isActive := false;
      r := AddKey(config, reachable);
    }

    /** The first half of `rotateKey`: deactivate the key encrypted with so far, if it is cached. */
    method RetireActive(reachable: bool) returns (r: Result<()>)
      requires Valid()
      modifies this`store, this`keysCache, keysCache.Values
      ensures Valid() && keysCache == old(keysCache)
      ensures r == (if RetireWorks(old(Value()), reachable) then Ok(()) else StoreFailed)
      ensures Value() == RetireIn(old(Value()), reachable)
    {
      if activeKeyId == None || activeKeyId.value == "" || activeKeyId.value !in keysCache {
        return Ok(());
      }
      r := DeactivateKey(activeKeyId.value, reachable);
    }

    /** `oldWrite` and `newWrite` tell whether the two writes to the store succeed.  When one fails
        the manager goes on encrypting with the old key, which may by then be marked inactive. */
    method RotateKey(newKey: EncryptionKey, oldWrite: bool, newWrite: bool) returns (r: Result<()>)
      requires Valid()
      modifies this, newKey, keysCache.Values
      ensures Valid()
      ensures r == if RetireWorks(old(Value()), oldWrite) && newWrite then Ok(()) else StoreFailed
      ensures !RetireWorks(old(Value()), oldWrite) ==> Value() == RetireIn(old(Value()), oldWrite)
      ensures RetireWorks(old(Value()), oldWrite) && !newWrite ==>
                var retired := RetireIn(old(Value()), oldWrite);
                Value() == if IsCached(newKey)
                           then retired.(cache := retired.cache[newKey.keyId := newKey.Value()]) else retired
      ensures r == Ok(()) ==> Value() == RotateTo(old(Value()), old(newKey.Value()))
      ensures r != Ok(()) ==> keysCache == old(keysCache)
    {
      r := RetireActive(oldWrite);
      if r != Ok(()) {
        return;
      }
      r := ActivateKey(newKey, newWrite);
      if r != Ok(()) {
        return;
      }
      activeKeyId := Some(newKey.keyId);
    }

    /** Marking a key object active shows in the cache if it is the very object cached under its id. */
    method MarkActive(k: EncryptionKey)
      requires Valid()
      modifies k
      ensures k.isActive && IsCached(k) == old(IsCached(k))
      ensures Value() == if IsCached(k) then old(Value()).(cache := old(Value()).cache[k.keyId := k.Value()])
                         else old(Value())
    {
      k.isActive := true;
      assert forall id :: id in keysCache && keysCache[id] != k ==> keysCache[id].Value() == old(keysCache[id].Value());
    }

    /** The very object is the one cached under its id. */
    predicate IsCached(k: EncryptionKey)
      reads this
    {
      k.keyId in keysCache && keysCache[k.keyId] == k
    }

    /** The second half of `rotateKey`: mark the new key active and file it. */
    method ActivateKey(newKey: EncryptionKey, reachable: bool) returns (r: Result<()>)
      requires Valid()
      modifies this`store, this`keysCache, newKey
      ensures Valid()
      ensures newKey.isActive
      ensures r == (if reachable then Ok(()) else StoreFailed)
      ensures reachable ==> Value() == AddKeyTo(old(Value()), newKey.Value())
      ensures !reachable ==> keysCache == old(keysCache)
      ensures !reachable ==>
                Value() == if IsCached(newKey)
                           then old(Value()).(cache := old(Value()).cache[newKey.keyId := newKey.Value()])
                           else old(Value())
    {
      MarkActive(newKey);
      r := AddKey(newKey, reachable);
    }

    method RemoveKey(keyId: string, reachable: bool) returns (r: Result<()>)
      requires Valid()
      modifies this`store, this`keysCache
      ensures Valid()
      ensures r == (if reachable then Ok(()) else StoreFailed)
      ensures Value() == if reachable then RemoveFrom(old(Value()), keyId) else old(Value())
      ensures reachable ==> keyId !in store && keyId !in keysCache
    {
      if !reachable {
        return StoreFailed;
      }
      store := store - {keyId};
      keysCache := keysCache - {keyId};
      return Ok(());
    }
  }
}
