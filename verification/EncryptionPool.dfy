/** The vault's key pool: one key per version, the newest one seals. The cipher itself is only a round-trip law. */
module EncryptionPool {
  import opened JsStrings

  type Bytes = seq<bv8>

  datatype Key = Key(bytes: Bytes)

  datatype Sealed = Sealed(ciphertext: Bytes, authTag: Bytes)

  /** `open` is None when authentication fails. */
  datatype Cipher<!P> = Cipher(seal: (Key, Bytes, P) -> Sealed, open: (Key, Bytes, Sealed) -> Option<P>)

  ghost predicate RoundTrips<P(!new)>(c: Cipher<P>) {
    forall key, iv, plain :: c.open(key, iv, c.seal(key, iv, plain)) == Some(plain)
  }

  datatype Algorithm = Aes256Gcm | OtherAlgorithm(name: JsString)

  datatype Record = Record(sealed: Sealed, iv: Bytes, keyVersion: nat, algorithm: Algorithm)

  type Pool = map<nat, Key>

  datatype Error = NoKeyConfigured | MalformedKey | UnsupportedAlgorithm | KeyNotLoaded | AuthenticationFailed

  datatype Result<+T> = Ok(value: T) | Err(error: Error)

  // ---------- loading the pool ----------

  datatype RawKey = EmptyValue | Malformed | Parsed(key: Key)

  /** An environment variable: `version` is its number when the name is CREDENTIAL_VAULT_MASTER_KEY_V<n>. */
  datatype EnvVar = EnvVar(version: Option<nat>, raw: RawKey)

  predicate IsKeyVar(v: EnvVar) { v.version.Some? && !v.raw.EmptyValue? }

  /** The pool of a variable list, a later variable of the same version winning; None when a key is malformed. */
  function KeysOf(env: seq<EnvVar>): Option<Pool> {
    if env == [] then Some(map[])
    else
      var v, before := env[|env| - 1], KeysOf(env[..|env| - 1]);
      if before.None? || !IsKeyVar(v) then before
      else if v.raw.Malformed? then None
      else Some(before.value[v.version.value := v.raw.key])
  }

  function Loaded(env: seq<EnvVar>): Result<Pool> {
    var keys := KeysOf(env);
    if keys.None? then Err(MalformedKey)
    else if keys.value.Keys == {} then Err(NoKeyConfigured)
    else Ok(keys.value)
  }

  predicate SetsKey(v: EnvVar, n: nat) { v.version == Some(n) && !v.raw.EmptyValue? }

  /** The i-th variable is the last that sets a key of this version. */
  ghost predicate LastKey(env: seq<EnvVar>, i: nat, n: nat) {
    i < |env| && SetsKey(env[i], n) && forall j :: i < j < |env| ==> !SetsKey(env[j], n)
  }

  /** There is a pool exactly when no key is malformed; it has the versions that are set, the last key winning. */
  lemma {:induction false} KeysAreTheLastSet(env: seq<EnvVar>)
    ensures KeysOf(env).None? <==> exists i :: 0 <= i < |env| && env[i].version.Some? && env[i].raw.Malformed?
    ensures KeysOf(env).Some? ==> forall n: nat ::
              n in KeysOf(env).value <==> exists i :: 0 <= i < |env| && SetsKey(env[i], n)
    ensures KeysOf(env).Some? ==> forall i: nat, n: nat :: LastKey(env, i, n) && n in KeysOf(env).value ==>
              Parsed(KeysOf(env).value[n]) == env[i].raw
  {
    if env == [] {
    } else {
      var init, v := env[..|env| - 1], env[|env| - 1];
      KeysAreTheLastSet(init);
      assert forall i :: 0 <= i < |init| ==> env[i] == init[i];
      forall i: nat, n: nat | LastKey(env, i, n) && i < |init| ensures LastKey(init, i, n) && !SetsKey(v, n) {}
    }
  }

  predicate SetsMalformed(v: EnvVar) { v.version.Some? && v.raw.Malformed? }

  /**
   * Loading refuses any malformed key first and then an empty pool; otherwise it finds the versions that are set, each
   * with the key it was last set to.
   */
  lemma LoadsExactlyWhen(env: seq<EnvVar>)
    ensures Loaded(env) == Err(MalformedKey) <==> exists i :: 0 <= i < |env| && SetsMalformed(env[i])
    ensures Loaded(env) == Err(NoKeyConfigured) <==>
            (forall i :: 0 <= i < |env| ==> !SetsMalformed(env[i]) && forall n: nat :: !SetsKey(env[i], n))
    ensures Loaded(env).Ok? ==> forall n: nat ::
              n in Loaded(env).value <==> exists i :: 0 <= i < |env| && SetsKey(env[i], n)
    ensures Loaded(env).Ok? ==> forall i: nat, n: nat :: LastKey(env, i, n) && n in Loaded(env).value ==>
              Parsed(Loaded(env).value[n]) == env[i].raw
  {
    KeysAreTheLastSet(env);
    if KeysOf(env).Some? {
      if n :| n in KeysOf(env).value {
        var i :| 0 <= i < |env| && SetsKey(env[i], n);
      }
      if i, n: nat :| 0 <= i < |env| && SetsKey(env[i], n) {
        assert n in KeysOf(env).value;
      }
    }
  }

  ghost predicate IsMaximum(m: nat, s: set<nat>) { m in s && forall n :: n in s ==> n <= m }

  lemma {:induction false} SomeMaximum(s: set<nat>) returns (m: nat)
    requires s != {}
    ensures IsMaximum(m, s)
  {
    var x :| x in s;
    if s == {x} {
      m := x;
    } else {
      var rest := SomeMaximum(s - {x});
      m := if rest < x then x else rest;
      assert forall n :: n in s ==> n == x || n in s - {x};
    }
  }

  function Newest(pool: Pool): (v: nat)
    requires pool.Keys != {}
    ensures IsMaximum(v, pool.Keys)
  {
    assert exists v :: v in pool.Keys && forall w :: w in pool.Keys ==> w <= v by {
      var m := SomeMaximum(pool.Keys);
    }
    var v :| v in pool.Keys && forall w :: w in pool.Keys ==> w <= v;
    v
  }

  // ---------- sealing and opening ----------

  function Encrypted<P>(c: Cipher<P>, pool: Pool, iv: Bytes, plain: P): Record
    requires pool.Keys != {}
  {
    Record(c.seal(pool[Newest(pool)], iv, plain), iv, Newest(pool), Aes256Gcm)
  }

  function Decrypted<P>(c: Cipher<P>, pool: Pool, r: Record): Result<P> {
    if r.algorithm != Aes256Gcm then Err(UnsupportedAlgorithm)
    else if r.keyVersion !in pool then Err(KeyNotLoaded)
    else
      var plain := c.open(pool[r.keyVersion], r.iv, r.sealed);
      if plain.None? then Err(AuthenticationFailed) else Ok(plain.value)
  }

  /** A record opens exactly under the algorithm and key it was sealed with; each refusal has its own reason. */
  lemma OpensExactlyWhen<P>(c: Cipher<P>, pool: Pool, r: Record, plain: P)
    ensures Decrypted(c, pool, r) == Ok(plain)
       <==> && r.algorithm == Aes256Gcm && r.keyVersion in pool
            && c.open(pool[r.keyVersion], r.iv, r.sealed) == Some(plain)
    ensures Decrypted(c, pool, r) == Err(UnsupportedAlgorithm) <==> r.algorithm != Aes256Gcm
    ensures Decrypted(c, pool, r) == Err(KeyNotLoaded) <==> r.algorithm == Aes256Gcm && r.keyVersion !in pool
    ensures Decrypted(c, pool, r) == Err(AuthenticationFailed)
       <==> && r.algorithm == Aes256Gcm && r.keyVersion in pool
            && c.open(pool[r.keyVersion], r.iv, r.sealed) == None
  {
  }

  /** Rotation adds versions and never drops or replaces one. */
  ghost predicate Grows(pool: Pool, later: Pool) {
    forall v :: v in pool ==> v in later && later[v] == pool[v]
  }

  /** What a pool sealed is opened by every pool grown from it, though those seal with another key. */
  lemma RotationKeepsRecords<P(!new)>(c: Cipher<P>, pool: Pool, later: Pool, iv: Bytes, plain: P)
    requires RoundTrips(c) && pool.Keys != {} && Grows(pool, later)
    ensures Decrypted(c, later, Encrypted(c, pool, iv, plain)) == Ok(plain)
    ensures later.Keys != {} && Newest(pool) <= Newest(later)
  {
    assert Newest(pool) in later;
  }

  lemma {:induction false} MoreVariablesGrowThePool(env: seq<EnvVar>, added: seq<EnvVar>)
    requires KeysOf(env).Some? && KeysOf(env + added).Some?
    requires forall v :: v in added && IsKeyVar(v) ==> v.version.value !in KeysOf(env).value
    ensures Grows(KeysOf(env).value, KeysOf(env + added).value)
  {
    if added == [] {
      assert env + added == env;
    } else {
      var init, last := added[..|added| - 1], added[|added| - 1];
      assert (env + added)[..|env + added| - 1] == env + init;
      assert last in added && forall v :: v in init ==> v in added;
      MoreVariablesGrowThePool(env, init);
    }
  }

  /** The service of one process: it reads the environment once, at the first use that succeeds. */
  class EncryptionService {
    const env: seq<EnvVar>
    var pool: Option<Pool>
    var currentVersion: nat

    ghost predicate Valid()
      reads this
    {
      pool.Some? ==> Loaded(env) == Ok(pool.value) && currentVersion == Newest(pool.value)
    }

    constructor (env: seq<EnvVar>)
      ensures Valid() && this.env == env
    {
      this.env := env;
      pool, currentVersion := None, 0;
    }

    method EnsureInitialized() returns (status: Result<Pool>)
      requires Valid()
      modifies this
      ensures Valid() && status == Loaded(env)
      ensures pool == if status.Ok? then Some(status.value) else None
    {
      if pool.Some? { return Ok(pool.value); }
      var found: Pool := map[];
      var i := 0;
      while i < |env|
        invariant 0 <= i <= |env|
        invariant KeysOf(env[..i]) == Some(found)
        invariant pool == None
      {
        assert env[..i + 1][..i] == env[..i];
        if IsKeyVar(env[i]) {
          if env[i].raw.Malformed? {
            MalformedStays(env, i + 1);
            return Err(MalformedKey);
          }
          found := found[env[i].version.value := env[i].raw.key];
        }
        i := i + 1;
      }
      assert env[..i] == env;
      if found.Keys == {} { return Err(NoKeyConfigured); }
      pool := Some(found);
      currentVersion := Newest(found);
      status := Ok(found);
    }

    method EncryptBuffer<P>(c: Cipher<P>, iv: Bytes, plain: P) returns (r: Result<Record>)
      requires Valid()
      modifies this
      ensures Valid()
      ensures r == if Loaded(env).Ok? then Ok(Encrypted(c, Loaded(env).value, iv, plain)) else Err(Loaded(env).error)
    {
      var status := EnsureInitialized();
      if status.Err? { return Err(status.error); }
      var version := currentVersion;
      var key := pool.value[version];
      r := Ok(Record(c.seal(key, iv, plain), iv, version, Aes256Gcm));
    }

    method DecryptBuffer<P>(c: Cipher<P>, record: Record) returns (r: Result<P>)
      requires Valid()
      modifies this
      ensures Valid()
      ensures r == if Loaded(env).Ok? then Decrypted(c, Loaded(env).value, record) else Err(Loaded(env).error)
    {
      var status := EnsureInitialized();
      if status.Err? { return Err(status.error); }
      if record.algorithm != Aes256Gcm { return Err(UnsupportedAlgorithm); }
      if record.keyVersion !in pool.value { return Err(KeyNotLoaded); }
      var plain := c.open(pool.value[record.keyVersion], record.iv, record.sealed);
      if plain.None? { return Err(AuthenticationFailed); }
      r := Ok(plain.value);
    }
  }

  lemma {:induction false} MalformedStays(env: seq<EnvVar>, i: nat)
    requires i <= |env| && KeysOf(env[..i]).None?
    ensures KeysOf(env).None?
    decreases |env| - i
  {
    if i == |env| {
      assert env[..i] == env;
    } else {
      assert env[..i + 1][..i] == env[..i];
      MalformedStays(env, i + 1);
    }
  }
}
