/** Credential accounts with append-only history: create, edit, restore a version, and rotate the key pool. */
module CredentialHistory {
  import opened JsStrings
  import opened EncryptionPool
  import opened SecretPayloads

  datatype Reason = Edit | Restore

  /** A snapshot row; its id is its position, rows are only ever added. */
  datatype Version = Version(accountId: nat, reason: Reason, record: Record)

  /** One payload that was live, and how many requests crashed between their snapshot and their write meanwhile. */
  datatype Life = Life(payload: Payload, crashes: nat)

  /** The two tables, and for every account the payloads that were ever live, oldest first. */
  datatype Vault = Vault(accounts: map<nat, Record>, versions: seq<Version>, lives: map<nat, seq<Life>>)

  function HistoryOf(versions: seq<Version>, id: nat): seq<Record> {
    if versions == [] then []
    else
      var v := versions[|versions| - 1];
      HistoryOf(versions[..|versions| - 1], id) + if v.accountId == id then [v.record] else []
  }

  /** The history of an account followed by its live record. */
  function Told(v: Vault, id: nat): seq<Record>
    requires id in v.accounts
  {
    HistoryOf(v.versions, id) + [v.accounts[id]]
  }

  function Repeat(p: Payload, n: nat): seq<Payload> {
    if n == 0 then [] else Repeat(p, n - 1) + [p]
  }

  /** Every life once, and once more for each crash during it. */
  function Expand(lives: seq<Life>): seq<Payload> {
    if lives == [] then []
    else
      var last := lives[|lives| - 1];
      Expand(lives[..|lives| - 1]) + Repeat(last.payload, last.crashes + 1)
  }

  ghost predicate OpensTo(c: Cipher<Payload>, pool: Pool, records: seq<Record>, payloads: seq<Payload>) {
    && |records| == |payloads|
    && forall i :: 0 <= i < |records| ==> Decrypted(c, pool, records[i]) == Ok(payloads[i])
  }

  ghost predicate TellsOf(c: Cipher<Payload>, pool: Pool, v: Vault, id: nat)
    requires id in v.accounts
  {
    id in v.lives && v.lives[id] != [] && OpensTo(c, pool, Told(v, id), Expand(v.lives[id]))
  }

  /** History and live record of every account open to exactly the payloads that were ever live, in order. */
  ghost predicate Tells(c: Cipher<Payload>, pool: Pool, v: Vault) {
    && (forall i :: 0 <= i < |v.versions| ==> v.versions[i].accountId in v.accounts)
    && (forall id :: id in v.accounts ==> TellsOf(c, pool, v, id))
  }

  // ---------- the operations ----------

  function Snapshotted(v: Vault, id: nat, reason: Reason): Vault
    requires id in v.accounts
  {
    v.(versions := v.versions + [Version(id, reason, v.accounts[id])])
  }

  function LivesOf(v: Vault, id: nat): seq<Life> { if id in v.lives then v.lives[id] else [] }

  function Rewritten(v: Vault, id: nat, record: Record, payload: Payload): Vault {
    v.(accounts := v.accounts[id := record], lives := v.lives[id := LivesOf(v, id) + [Life(payload, 0)]])
  }

  /** The last life, with one more crash during it. */
  function OneMore(lives: seq<Life>): (r: seq<Life>)
    requires lives != []
    ensures r != []
  {
    var last := lives[|lives| - 1];
    lives[..|lives| - 1] + [last.(crashes := last.crashes + 1)]
  }

  function Interrupted(v: Vault, id: nat): Vault {
    if LivesOf(v, id) == [] then v else v.(lives := v.lives[id := OneMore(LivesOf(v, id))])
  }

  function Created(
      c: Cipher<Payload>, pool: Pool, upper: JsString -> JsString, v: Vault, id: nat, secrets: Payload,
      iv: Bytes): Vault
    requires pool.Keys != {}
  {
    var payload := Sanitize(secrets, upper);
    if id in v.accounts then v
    else Rewritten(v.(lives := v.lives[id := []]), id, Encrypted(c, pool, iv, payload), payload)
  }

  /** What an update starts from: nothing, when the stored record does not open. */
  function Previous(c: Cipher<Payload>, pool: Pool, record: Record): Payload {
    var plain := Decrypted(c, pool, record);
    if plain.Ok? then plain.value else EMPTY
  }

  function Merged(
      c: Cipher<Payload>, pool: Pool, upper: JsString -> JsString, record: Record, secrets: Payload): Payload {
    Sanitize(Merge(Previous(c, pool, record), secrets), upper)
  }

  /** Metadata aside, an edit does nothing unless the diff names a key. */
  predicate Changes(
      c: Cipher<Payload>, pool: Pool, upper: JsString -> JsString, v: Vault, id: nat, secrets: Option<Payload>) {
    && id in v.accounts
    && secrets.Some?
    && Diff(Previous(c, pool, v.accounts[id]), Merged(c, pool, upper, v.accounts[id], secrets.value)) != []
  }

  function Updated(
      c: Cipher<Payload>, pool: Pool, upper: JsString -> JsString, v: Vault,
      id: nat, secrets: Option<Payload>, iv: Bytes, crash: bool): Vault
    requires pool.Keys != {}
  {
    if !Changes(c, pool, upper, v, id, secrets) then v
    else
      var merged := Merged(c, pool, upper, v.accounts[id], secrets.value);
      if crash then Interrupted(Snapshotted(v, id, Edit), id)
      else Rewritten(Snapshotted(v, id, Edit), id, Encrypted(c, pool, iv, merged), merged)
  }

  predicate Restorable(v: Vault, id: nat, version: nat) {
    id in v.accounts && version < |v.versions| && v.versions[version].accountId == id
  }

  function Restored(c: Cipher<Payload>, pool: Pool, v: Vault, id: nat, version: nat, crash: bool): Vault {
    if !Restorable(v, id, version) then v
    else if crash then Interrupted(Snapshotted(v, id, Restore), id)
    else
      var record := v.versions[version].record;
      Rewritten(Snapshotted(v, id, Restore), id, record, Previous(c, pool, record))
  }

  // ---------- what each operation keeps ----------

  lemma HistorySnoc(versions: seq<Version>, v: Version, id: nat)
    ensures HistoryOf(versions + [v], id) == HistoryOf(versions, id) + if v.accountId == id then [v.record] else []
  {
    assert (versions + [v])[..|versions|] == versions;
  }

  lemma {:induction false} NoHistory(versions: seq<Version>, id: nat)
    requires forall i :: 0 <= i < |versions| ==> versions[i].accountId != id
    ensures HistoryOf(versions, id) == []
  {
    if versions == [] {
    } else {
      NoHistory(versions[..|versions| - 1], id);
    }
  }

  lemma ExpandSnoc(lives: seq<Life>, life: Life)
    ensures Expand(lives + [life]) == Expand(lives) + Repeat(life.payload, life.crashes + 1)
  {
    assert (lives + [life])[..|lives|] == lives;
  }

  lemma NewLife(lives: seq<Life>, payload: Payload)
    ensures Expand(lives + [Life(payload, 0)]) == Expand(lives) + [payload]
  {
    ExpandSnoc(lives, Life(payload, 0));
    assert Repeat(payload, 0) + [payload] == [payload];
  }

  lemma OneMoreCrash(lives: seq<Life>)
    requires lives != []
    ensures Expand(OneMore(lives)) == Expand(lives) + [lives[|lives| - 1].payload]
  {
    var init, last := lives[..|lives| - 1], lives[|lives| - 1];
    ExpandSnoc(init, last.(crashes := last.crashes + 1));
    ConcatAssoc(Expand(init), Repeat(last.payload, last.crashes + 1), [last.payload]);
  }

  lemma LiveIsLast(c: Cipher<Payload>, pool: Pool, v: Vault, id: nat)
    requires id in v.accounts && TellsOf(c, pool, v, id)
    ensures var lives := v.lives[id]; Decrypted(c, pool, v.accounts[id]) == Ok(lives[|lives| - 1].payload)
  {
    var told, lives := Told(v, id), v.lives[id];
    var last := lives[|lives| - 1];
    assert Expand(lives)[|Expand(lives)| - 1] == last.payload;
    assert Decrypted(c, pool, told[|told| - 1]) == Ok(Expand(lives)[|told| - 1]);
  }

  /** Another account is not touched by a step on `id`. */
  lemma OthersStay(c: Cipher<Payload>, pool: Pool, v: Vault, next: Vault, id: nat, other: nat, reason: Reason)
    requires id in v.accounts && other != id && other in v.accounts && TellsOf(c, pool, v, other)
    requires next.versions == Snapshotted(v, id, reason).versions
    requires other in next.accounts && next.accounts[other] == v.accounts[other]
    requires other in next.lives && next.lives[other] == v.lives[other]
    ensures TellsOf(c, pool, next, other)
  {
    HistorySnoc(v.versions, Version(id, reason, v.accounts[id]), other);
    assert Told(next, other) == Told(v, other);
  }

  lemma ToldGrows(
      c: Cipher<Payload>, pool: Pool, v: Vault, next: Vault, id: nat, reason: Reason, payload: Payload)
    requires id in v.accounts && TellsOf(c, pool, v, id)
    requires next.versions == Snapshotted(v, id, reason).versions
    requires id in next.accounts && Decrypted(c, pool, next.accounts[id]) == Ok(payload)
    requires id in next.lives && next.lives[id] != [] && Expand(next.lives[id]) == Expand(v.lives[id]) + [payload]
    ensures TellsOf(c, pool, next, id)
  {
    HistorySnoc(v.versions, Version(id, reason, v.accounts[id]), id);
    assert Told(next, id) == Told(v, id) + [next.accounts[id]];
  }

  lemma CrashIsTold(c: Cipher<Payload>, pool: Pool, v: Vault, next: Vault, id: nat, reason: Reason)
    requires id in v.accounts && TellsOf(c, pool, v, id)
    requires next.versions == Snapshotted(v, id, reason).versions && next.accounts == v.accounts
    requires next.lives == v.lives[id := OneMore(v.lives[id])]
    ensures TellsOf(c, pool, next, id)
  {
    var lives := v.lives[id];
    LiveIsLast(c, pool, v, id);
    OneMoreCrash(lives);
    ToldGrows(c, pool, v, next, id, reason, lives[|lives| - 1].payload);
  }

  /** A crash between the snapshot and the write leaves the live payload told once more. */
  lemma CrashOnlyRepeats(c: Cipher<Payload>, pool: Pool, v: Vault, id: nat, reason: Reason)
    requires Tells(c, pool, v) && id in v.accounts
    ensures Tells(c, pool, Interrupted(Snapshotted(v, id, reason), id))
  {
    var next := Interrupted(Snapshotted(v, id, reason), id);
    assert TellsOf(c, pool, v, id);
    CrashIsTold(c, pool, v, next, id, reason);
    forall other | other in next.accounts ensures TellsOf(c, pool, next, other) {
      if other != id { OthersStay(c, pool, v, next, id, other, reason); }
    }
  }

  /** Snapshot, then write: the tale grows by the new payload. */
  lemma WriteIsTold(c: Cipher<Payload>, pool: Pool, v: Vault, id: nat, reason: Reason, record: Record, payload: Payload)
    requires Tells(c, pool, v) && id in v.accounts && Decrypted(c, pool, record) == Ok(payload)
    ensures Tells(c, pool, Rewritten(Snapshotted(v, id, reason), id, record, payload))
  {
    var next := Rewritten(Snapshotted(v, id, reason), id, record, payload);
    assert TellsOf(c, pool, v, id);
    NewLife(v.lives[id], payload);
    ToldGrows(c, pool, v, next, id, reason, payload);
    forall other | other in next.accounts ensures TellsOf(c, pool, next, other) {
      if other != id { OthersStay(c, pool, v, next, id, other, reason); }
    }
  }

  lemma CreateIsTold(
      c: Cipher<Payload>, pool: Pool, upper: JsString -> JsString, v: Vault, id: nat, secrets: Payload, iv: Bytes)
    requires RoundTrips(c) && Tells(c, pool, v) && pool.Keys != {}
    ensures Tells(c, pool, Created(c, pool, upper, v, id, secrets, iv))
  {
    var next := Created(c, pool, upper, v, id, secrets, iv);
    if id !in v.accounts {
      var payload := Sanitize(secrets, upper);
      NoHistory(v.versions, id);
      RotationKeepsRecords(c, pool, pool, iv, payload);
      NewLife([], payload);
      assert [] + [Life(payload, 0)] == [Life(payload, 0)];
      assert TellsOf(c, pool, next, id);
      forall other | other in v.accounts ensures TellsOf(c, pool, next, other) {
        assert TellsOf(c, pool, v, other);
        assert Told(next, other) == Told(v, other);
      }
    }
  }

  lemma UpdateIsTold(
      c: Cipher<Payload>, pool: Pool, upper: JsString -> JsString, v: Vault,
      id: nat, secrets: Option<Payload>, iv: Bytes, crash: bool)
    requires RoundTrips(c) && Tells(c, pool, v) && pool.Keys != {}
    ensures Tells(c, pool, Updated(c, pool, upper, v, id, secrets, iv, crash))
  {
    if Changes(c, pool, upper, v, id, secrets) {
      if crash {
        CrashOnlyRepeats(c, pool, v, id, Edit);
      } else {
        var merged := Merged(c, pool, upper, v.accounts[id], secrets.value);
        RotationKeepsRecords(c, pool, pool, iv, merged);
        WriteIsTold(c, pool, v, id, Edit, Encrypted(c, pool, iv, merged), merged);
      }
    }
  }

  lemma {:induction false} HistoryHas(versions: seq<Version>, i: nat)
    requires i < |versions|
    ensures versions[i].record in HistoryOf(versions, versions[i].accountId)
  {
    if i == |versions| - 1 {
    } else {
      HistoryHas(versions[..|versions| - 1], i);
    }
  }

  /** Every version row opens, to a payload its account once had. */
  lemma VersionOpens(c: Cipher<Payload>, pool: Pool, v: Vault, version: nat)
    requires Tells(c, pool, v) && version < |v.versions|
    ensures Decrypted(c, pool, v.versions[version].record).Ok?
    ensures Decrypted(c, pool, v.versions[version].record).value in Expand(LivesOf(v, v.versions[version].accountId))
  {
    var id, record := v.versions[version].accountId, v.versions[version].record;
    assert TellsOf(c, pool, v, id);
    HistoryHas(v.versions, version);
    var history := HistoryOf(v.versions, id);
    var i :| 0 <= i < |history| && history[i] == record;
    assert Told(v, id)[i] == record;
    assert Decrypted(c, pool, record) == Ok(Expand(v.lives[id])[i]);
  }

  lemma RestoreIsTold(c: Cipher<Payload>, pool: Pool, v: Vault, id: nat, version: nat, crash: bool)
    requires Tells(c, pool, v)
    ensures Tells(c, pool, Restored(c, pool, v, id, version, crash))
  {
    if Restorable(v, id, version) {
      if crash {
        CrashOnlyRepeats(c, pool, v, id, Restore);
      } else {
        var record := v.versions[version].record;
        VersionOpens(c, pool, v, version);
        WriteIsTold(c, pool, v, id, Restore, record, Previous(c, pool, record));
      }
    }
  }

  lemma {:induction false} HistoryFrom(versions: seq<Version>, id: nat, i: nat) returns (k: nat)
    requires i < |HistoryOf(versions, id)|
    ensures k < |versions| && versions[k].record == HistoryOf(versions, id)[i]
  {
    var init := versions[..|versions| - 1];
    if i < |HistoryOf(init, id)| {
      k := HistoryFrom(init, id, i);
    } else {
      k := |versions| - 1;
    }
  }

  /** The pool still has the key of every stored record. */
  ghost predicate KeysKept(pool: Pool, v: Vault) {
    && (forall id :: id in v.accounts ==> v.accounts[id].keyVersion in pool)
    && (forall i :: 0 <= i < |v.versions| ==> v.versions[i].record.keyVersion in pool)
  }

  lemma OpensUnderOther(c: Cipher<Payload>, pool: Pool, other: Pool, record: Record)
    requires Decrypted(c, pool, record).Ok?
    requires record.keyVersion in other && other[record.keyVersion] == pool[record.keyVersion]
    ensures Decrypted(c, other, record) == Decrypted(c, pool, record)
  {
  }

  /**
   * However the pool changes, as long as no version gets another key: all histories stay readable exactly while
   * every version some record was sealed with is kept.
   */
  lemma ReadableExactlyWhile(c: Cipher<Payload>, pool: Pool, other: Pool, v: Vault)
    requires Tells(c, pool, v) && forall n :: n in pool && n in other ==> pool[n] == other[n]
    ensures Tells(c, other, v) <==> KeysKept(other, v)
  {
    TellingKeepsKeys(c, pool, v);
    if Tells(c, other, v) { TellingKeepsKeys(c, other, v); }
    if KeysKept(other, v) {
      forall id | id in v.accounts ensures TellsOf(c, other, v, id) {
        var told, payloads := Told(v, id), Expand(v.lives[id]);
        assert TellsOf(c, pool, v, id);
        forall i | 0 <= i < |told| ensures Decrypted(c, other, told[i]) == Ok(payloads[i]) {
          assert Decrypted(c, pool, told[i]) == Ok(payloads[i]);
          if i < |told| - 1 { var k := HistoryFrom(v.versions, id, i); }
          OpensUnderOther(c, pool, other, told[i]);
        }
      }
    }
  }

  lemma TellingKeepsKeys(c: Cipher<Payload>, pool: Pool, v: Vault)
    requires Tells(c, pool, v)
    ensures KeysKept(pool, v)
  {
    forall id | id in v.accounts ensures v.accounts[id].keyVersion in pool { LiveIsLast(c, pool, v, id); }
    forall i | 0 <= i < |v.versions| ensures v.versions[i].record.keyVersion in pool { VersionOpens(c, pool, v, i); }
  }

  /** Growing the key pool keeps everything readable. */
  lemma GrownPoolTells(c: Cipher<Payload>, pool: Pool, later: Pool, v: Vault)
    requires Tells(c, pool, v) && Grows(pool, later)
    ensures Tells(c, later, v)
  {
    TellingKeepsKeys(c, pool, v);
    ReadableExactlyWhile(c, pool, later, v);
  }

  // ---------- whole runs ----------

  datatype Op =
    | DoCreate(id: nat, secrets: Payload, iv: Bytes)
    | DoUpdate(id: nat, change: Option<Payload>, iv: Bytes, crash: bool)
    | DoRestore(id: nat, version: nat, crash: bool)
    | DoRotate(later: Pool)

  datatype Site = Site(pool: Pool, vault: Vault)

  function Step(c: Cipher<Payload>, upper: JsString -> JsString, s: Site, op: Op): Site
    requires s.pool.Keys != {}
  {
    match op
    case DoCreate(id, secrets, iv) => s.(vault := Created(c, s.pool, upper, s.vault, id, secrets, iv))
    case DoUpdate(id, change, iv, crash) => s.(vault := Updated(c, s.pool, upper, s.vault, id, change, iv, crash))
    case DoRestore(id, version, crash) => s.(vault := Restored(c, s.pool, s.vault, id, version, crash))
    case DoRotate(later) => s.(pool := later)
  }

  /** A run of operations one after another; rotations only ever grow the pool. */
  ghost predicate Run(c: Cipher<Payload>, upper: JsString -> JsString, trace: seq<Site>, ops: seq<Op>) {
    && |trace| == |ops| + 1
    && trace[0].pool.Keys != {} && trace[0].vault == Vault(map[], [], map[])
    && forall i :: 0 <= i < |ops| ==>
         && trace[i].pool.Keys != {}
         && (ops[i].DoRotate? ==> Grows(trace[i].pool, ops[i].later))
         && trace[i + 1] == Step(c, upper, trace[i], ops[i])
  }

  lemma StepTells(c: Cipher<Payload>, upper: JsString -> JsString, s: Site, op: Op)
    requires RoundTrips(c) && s.pool.Keys != {} && Tells(c, s.pool, s.vault)
    requires op.DoRotate? ==> Grows(s.pool, op.later)
    ensures Tells(c, Step(c, upper, s, op).pool, Step(c, upper, s, op).vault)
  {
    match op
    case DoCreate(id, secrets, iv) => CreateIsTold(c, s.pool, upper, s.vault, id, secrets, iv);
    case DoUpdate(id, change, iv, crash) => UpdateIsTold(c, s.pool, upper, s.vault, id, change, iv, crash);
    case DoRestore(id, version, crash) => RestoreIsTold(c, s.pool, s.vault, id, version, crash);
    case DoRotate(later) => GrownPoolTells(c, s.pool, later, s.vault);
  }

  lemma RunPrefix(c: Cipher<Payload>, upper: JsString -> JsString, trace: seq<Site>, ops: seq<Op>)
    requires Run(c, upper, trace, ops) && ops != []
    ensures Run(c, upper, trace[..|ops|], ops[..|ops| - 1])
  {
    var n := |ops| - 1;
    assert forall i :: 0 <= i < n ==> ops[..n][i] == ops[i] && trace[..n + 1][i] == trace[i];
  }

  /**
   * After every run of creates, edits, restores, crashes and rotations, each account's history and live record
   * still open, to exactly the sequence of payloads it ever had, each repeated once per crash.
   */
  lemma {:induction false} HistoryTellsEveryRun(
      c: Cipher<Payload>, upper: JsString -> JsString, trace: seq<Site>, ops: seq<Op>)
    requires RoundTrips(c) && Run(c, upper, trace, ops)
    ensures Tells(c, trace[|ops|].pool, trace[|ops|].vault)
  {
    if ops == [] {
    } else {
      var n := |ops| - 1;
      RunPrefix(c, upper, trace, ops);
      HistoryTellsEveryRun(c, upper, trace[..n + 1], ops[..n]);
      StepTells(c, upper, trace[n], ops[n]);
    }
  }

  /** Restoring a version, then restoring the snapshot that made, brings the live record back. */
  lemma RestoreIsReversible(c: Cipher<Payload>, pool: Pool, v: Vault, id: nat, version: nat)
    requires Restorable(v, id, version)
    ensures var there := Restored(c, pool, v, id, version, false);
            var back := Restored(c, pool, there, id, |v.versions|, false);
            && there.accounts == v.accounts[id := v.versions[version].record]
            && back.accounts == v.accounts
            && back.versions == v.versions
                 + [Version(id, Restore, v.accounts[id]), Version(id, Restore, v.versions[version].record)]
  {
    var there := Restored(c, pool, v, id, version, false);
    assert there.versions[|v.versions|] == Version(id, Restore, v.accounts[id]);
  }

  /** No operation drops or edits a version row. */
  lemma HistoryOnlyGrows(c: Cipher<Payload>, upper: JsString -> JsString, s: Site, op: Op)
    requires s.pool.Keys != {}
    ensures s.vault.versions <= Step(c, upper, s, op).vault.versions
    ensures |Step(c, upper, s, op).vault.versions| <= |s.vault.versions| + 1
  {
  }

  // ---------- what an account opens to ----------

  /** A created account opens to what it was given, and nothing else changes. */
  lemma CreateStoresWhatIsGiven(
      c: Cipher<Payload>, pool: Pool, upper: JsString -> JsString, v: Vault, id: nat, secrets: Payload, iv: Bytes)
    requires RoundTrips(c) && pool.Keys != {} && id !in v.accounts
    ensures var next := Created(c, pool, upper, v, id, secrets, iv);
            && next.accounts.Keys == v.accounts.Keys + {id} && next.versions == v.versions
            && (forall other :: other in v.accounts ==> next.accounts[other] == v.accounts[other])
            && Decrypted(c, pool, next.accounts[id]).Ok?
            && PayloadStored(secrets, Decrypted(c, pool, next.accounts[id]).value, upper)
  {
    RotationKeepsRecords(c, pool, pool, iv, Sanitize(secrets, upper));
    CleaningStoresWhatIsGiven(secrets, upper);
  }

  /**
   * After every run, an edit that changes anything leaves the account opening to what it was given, key by key, over
   * what it opened to before; the old record goes into the history, and no other account changes.
   */
  lemma EditStoresWhatIsGiven(
      c: Cipher<Payload>, upper: JsString -> JsString, trace: seq<Site>, ops: seq<Op>, id: nat, dto: Payload, iv: Bytes)
    requires RoundTrips(c) && UpperLaw(upper) && Run(c, upper, trace, ops)
    requires trace[|ops|].pool.Keys != {} && id in trace[|ops|].vault.accounts
    requires var s := trace[|ops|]; Updated(c, s.pool, upper, s.vault, id, Some(dto), iv, false) != s.vault
    ensures var s := trace[|ops|];
            var next := Updated(c, s.pool, upper, s.vault, id, Some(dto), iv, false);
            var before, after := Decrypted(c, s.pool, s.vault.accounts[id]), Decrypted(c, s.pool, next.accounts[id]);
            && before.Ok? && after.Ok? && Survives(dto, before.value, after.value, upper)
            && next.versions == s.vault.versions + [Version(id, Edit, s.vault.accounts[id])]
            && next.accounts == s.vault.accounts[id := next.accounts[id]]
  {
    var pool, v := trace[|ops|].pool, trace[|ops|].vault;
    HistoryTellsEveryRun(c, upper, trace, ops);
    RunStaysClean(c, upper, trace, ops);
    LiveIsLast(c, pool, v, id);
    var lives := v.lives[id];
    assert IsClean(lives[|lives| - 1].payload, upper);
    var merged := Merged(c, pool, upper, v.accounts[id], dto);
    EditKeepsAbsentKeys(Previous(c, pool, v.accounts[id]), dto, upper);
    RotationKeepsRecords(c, pool, pool, iv, merged);
  }

  /**
   * Before a record is replaced, the old one is kept as a version with the reason why; a crash comes after that and
   * before the write.
   */
  lemma OldRecordIsKeptFirst(
      c: Cipher<Payload>, pool: Pool, upper: JsString -> JsString, v: Vault,
      id: nat, dto: Payload, version: nat, iv: Bytes, crash: bool)
    requires pool.Keys != {} && id in v.accounts
    ensures var edited := Updated(c, pool, upper, v, id, Some(dto), iv, crash);
            edited != v ==>
              && edited.versions == v.versions + [Version(id, Edit, v.accounts[id])]
              && edited.accounts.Keys == v.accounts.Keys
              && forall k :: k in v.accounts && (crash || k != id) ==> edited.accounts[k] == v.accounts[k]
    ensures var restored := Restored(c, pool, v, id, version, crash);
            if version < |v.versions| && v.versions[version].accountId == id
            then && restored.versions == v.versions + [Version(id, Restore, v.accounts[id])]
                 && restored.accounts == if crash then v.accounts else v.accounts[id := v.versions[version].record]
            else restored == v
  {
  }

  // ---------- what an edit can lose ----------

  /** Every payload an account ever had was cleaned before it was stored. */
  ghost predicate AllClean(v: Vault, upper: JsString -> JsString) {
    forall id, i :: id in v.lives && 0 <= i < |v.lives[id]| ==> IsClean(v.lives[id][i].payload, upper)
  }

  lemma {:induction false} ExpandedFrom(lives: seq<Life>, p: Payload) returns (i: nat)
    requires p in Expand(lives)
    ensures i < |lives| && lives[i].payload == p
  {
    var last := lives[|lives| - 1];
    if p in Expand(lives[..|lives| - 1]) {
      i := ExpandedFrom(lives[..|lives| - 1], p);
    } else {
      RepeatHolds(last.payload, last.crashes + 1, p);
      i := |lives| - 1;
    }
  }

  lemma {:induction false} RepeatHolds(payload: Payload, n: nat, p: Payload)
    requires p in Repeat(payload, n)
    ensures p == payload
  {
    if p in Repeat(payload, n - 1) {
      RepeatHolds(payload, n - 1, p);
    }
  }

  lemma RewrittenClean(v: Vault, id: nat, record: Record, payload: Payload, upper: JsString -> JsString)
    requires AllClean(v, upper) && IsClean(payload, upper)
    ensures AllClean(Rewritten(v, id, record, payload), upper)
  {
    var next := Rewritten(v, id, record, payload);
    forall other, i | other in next.lives && 0 <= i < |next.lives[other]|
      ensures IsClean(next.lives[other][i].payload, upper)
    {
      if other == id && i == |LivesOf(v, id)| {
        assert next.lives[other][i].payload == payload;
      } else {
        assert next.lives[other][i] == v.lives[other][i];
      }
    }
  }

  lemma InterruptedClean(v: Vault, id: nat, upper: JsString -> JsString)
    requires AllClean(v, upper)
    ensures AllClean(Interrupted(v, id), upper)
  {
    var next := Interrupted(v, id);
    forall other, i | other in next.lives && 0 <= i < |next.lives[other]|
      ensures IsClean(next.lives[other][i].payload, upper)
    {
      assert next.lives[other][i].payload == v.lives[other][i].payload;
    }
  }

  lemma RestoreStaysClean(
      c: Cipher<Payload>, upper: JsString -> JsString, pool: Pool, v: Vault, id: nat, version: nat, crash: bool)
    requires Tells(c, pool, v) && AllClean(v, upper)
    ensures AllClean(Restored(c, pool, v, id, version, crash), upper)
  {
    if Restorable(v, id, version) {
      var record := v.versions[version].record;
      VersionOpens(c, pool, v, version);
      var i := ExpandedFrom(LivesOf(v, id), Previous(c, pool, record));
      assert IsClean(v.lives[id][i].payload, upper);
      InterruptedClean(Snapshotted(v, id, Restore), id, upper);
      RewrittenClean(Snapshotted(v, id, Restore), id, record, Previous(c, pool, record), upper);
    }
  }

  lemma StepStaysClean(c: Cipher<Payload>, upper: JsString -> JsString, s: Site, op: Op)
    requires s.pool.Keys != {} && Tells(c, s.pool, s.vault) && AllClean(s.vault, upper)
    ensures AllClean(Step(c, upper, s, op).vault, upper)
  {
    match op
    case DoRotate(_) =>
    case DoRestore(id, version, crash) => RestoreStaysClean(c, upper, s.pool, s.vault, id, version, crash);
    case DoCreate(id, secrets, iv) =>
      var payload := Sanitize(secrets, upper);
      RewrittenClean(s.vault.(lives := s.vault.lives[id := []]), id, Encrypted(c, s.pool, iv, payload), payload, upper);
    case DoUpdate(id, change, iv, _) =>
      if Changes(c, s.pool, upper, s.vault, id, change) {
        var merged := Merged(c, s.pool, upper, s.vault.accounts[id], change.value);
        InterruptedClean(Snapshotted(s.vault, id, Edit), id, upper);
        RewrittenClean(Snapshotted(s.vault, id, Edit), id, Encrypted(c, s.pool, iv, merged), merged, upper);
      }
  }

  lemma {:induction false} RunStaysClean(
      c: Cipher<Payload>, upper: JsString -> JsString, trace: seq<Site>, ops: seq<Op>)
    requires RoundTrips(c) && Run(c, upper, trace, ops)
    ensures AllClean(trace[|ops|].vault, upper)
  {
    if ops == [] {
    } else {
      var n := |ops| - 1;
      RunPrefix(c, upper, trace, ops);
      RunStaysClean(c, upper, trace[..n + 1], ops[..n]);
      HistoryTellsEveryRun(c, upper, trace[..n + 1], ops[..n]);
      StepStaysClean(c, upper, trace[n], ops[n]);
    }
  }

  /**
   * After every run, an edit of only the security answers is dropped without a trace: the tables stay as they are,
   * whatever the answers, and even when the stored payload would not survive another cleaning.
   */
  lemma AnswersAloneAreNotStored(
      c: Cipher<Payload>, upper: JsString -> JsString, trace: seq<Site>, ops: seq<Op>, id: nat,
      answers: Prop<seq<Text>>, iv: Bytes, crash: bool)
    requires RoundTrips(c) && UpperLaw(upper) && Run(c, upper, trace, ops)
    requires trace[|ops|].pool.Keys != {} && id in trace[|ops|].vault.accounts
    ensures var s := trace[|ops|];
            Updated(c, s.pool, upper, s.vault, id, Some(EMPTY.(securityAnswers := answers)), iv, crash) == s.vault
  {
    var pool, v := trace[|ops|].pool, trace[|ops|].vault;
    HistoryTellsEveryRun(c, upper, trace, ops);
    RunStaysClean(c, upper, trace, ops);
    LiveIsLast(c, pool, v, id);
    var lives := v.lives[id];
    assert IsClean(lives[|lives| - 1].payload, upper);
    CleanedTwiceDiffersNowhere(Previous(c, pool, v.accounts[id]), answers, upper);
  }

  /** An edit leaves both tables alone exactly when what it would store reads the same as what is stored. */
  lemma EditIsDroppedExactlyWhen(
      c: Cipher<Payload>, pool: Pool, upper: JsString -> JsString, v: Vault,
      id: nat, dto: Payload, iv: Bytes, crash: bool)
    requires pool.Keys != {} && id in v.accounts
    ensures Updated(c, pool, upper, v, id, Some(dto), iv, crash) == v
       <==> ReadsTheSame(Previous(c, pool, v.accounts[id]), Merged(c, pool, upper, v.accounts[id], dto))
  {
    DiffIsEmptyExactlyWhen(Previous(c, pool, v.accounts[id]), Merged(c, pool, upper, v.accounts[id], dto));
    if Changes(c, pool, upper, v, id, Some(dto)) {
      assert |Updated(c, pool, upper, v, id, Some(dto), iv, crash).versions| == |v.versions| + 1;
    }
  }

  /** For plain payloads that is when no secret but the answers changes. */
  lemma PlainEditIsDroppedExactlyWhen(
      c: Cipher<Payload>, pool: Pool, upper: JsString -> JsString, v: Vault,
      id: nat, dto: Payload, iv: Bytes, crash: bool)
    requires pool.Keys != {} && id in v.accounts
    requires Plain(Previous(c, pool, v.accounts[id])) && Plain(Merged(c, pool, upper, v.accounts[id], dto))
    ensures Updated(c, pool, upper, v, id, Some(dto), iv, crash) == v
       <==> SameSecrets(Previous(c, pool, v.accounts[id]), Merged(c, pool, upper, v.accounts[id], dto))
  {
    var previous, merged := Previous(c, pool, v.accounts[id]), Merged(c, pool, upper, v.accounts[id], dto);
    EditIsDroppedExactlyWhen(c, pool, upper, v, id, dto, iv, crash);
    DiffIsEmptyExactlyWhen(previous, merged);
    PlainDiffIsEmptyExactlyWhen(previous, merged);
  }

  /** When the stored record no longer opens, an edit stores only what it was given; the history keeps the record. */
  lemma LostKeyReplacesThePayload(
      c: Cipher<Payload>, pool: Pool, upper: JsString -> JsString, v: Vault, id: nat, dto: Payload, iv: Bytes)
    requires pool.Keys != {} && RoundTrips(c) && id in v.accounts && Decrypted(c, pool, v.accounts[id]).Err?
    requires Diff(EMPTY, Sanitize(dto, upper)) != []
    ensures var next := Updated(c, pool, upper, v, id, Some(dto), iv, false);
            && Decrypted(c, pool, next.accounts[id]) == Ok(Sanitize(dto, upper))
            && next.versions == v.versions + [Version(id, Edit, v.accounts[id])]
  {
    assert Sanitize(Merge(EMPTY, dto), upper) == Sanitize(dto, upper);
    RotationKeepsRecords(c, pool, pool, iv, Sanitize(dto, upper));
  }

  // ---------- the service ----------

  datatype Status = Done | NotFound | BadProfile | Failed(error: Error) | Crashed

  class CredentialsAccountService {
    var accounts: map<nat, Record>
    var versions: seq<Version>
    ghost var lives: map<nat, seq<Life>>

    ghost function State(): Vault
      reads this
    {
      Vault(accounts, versions, lives)
    }

    constructor ()
      ensures State() == Vault(map[], [], map[])
    {
      accounts, versions, lives := map[], [], map[];
    }

    method Create(
        enc: EncryptionService, c: Cipher<Payload>, upper: JsString -> JsString,
        id: nat, profileExists: bool, secrets: Payload, iv: Bytes) returns (status: Status)
      requires enc.Valid() && id !in accounts
      modifies this, enc
      ensures enc.Valid()
      ensures status.Done? <==> profileExists && Loaded(enc.env).Ok?
      ensures State() == if status.Done? then Created(c, Loaded(enc.env).value, upper, old(State()), id, secrets, iv)
                         else old(State())
    {
      if !profileExists { return BadProfile; }
      ghost var was := State();
      var payload := Sanitize(secrets, upper);
      var r := enc.EncryptBuffer(c, iv, payload);
      if r.Err? { return Failed(r.error); }
      accounts := accounts[id := r.value];
      lives := lives[id := [] + [Life(payload, 0)]];
      assert was.lives[id := []][id := [] + [Life(payload, 0)]] == lives;
      status := Done;
    }

    /** A request that crashes does so between the snapshot and the write. */
    method Update(
        enc: EncryptionService, c: Cipher<Payload>, upper: JsString -> JsString,
        id: nat, secrets: Option<Payload>, iv: Bytes, crash: bool) returns (status: Status)
      requires enc.Valid()
      modifies this, enc
      ensures enc.Valid()
      ensures status == NotFound <==> id !in old(accounts)
      ensures Loaded(enc.env).Ok? ==>
                State() == Updated(c, Loaded(enc.env).value, upper, old(State()), id, secrets, iv, crash)
      ensures Loaded(enc.env).Ok? && id in old(accounts) ==>
                status == if crash && Changes(c, Loaded(enc.env).value, upper, old(State()), id, secrets)
                          then Crashed else Done
      ensures Loaded(enc.env).Err? ==> State() == old(State())
    {
      if id !in accounts { return NotFound; }
      var existing := accounts[id];
      var previous := EMPTY;
      var plain := enc.DecryptBuffer(c, existing);
      if plain.Ok? { previous := plain.value; }
      if secrets.None? { return Done; }
      var merged := Sanitize(Merge(previous, secrets.value), upper);
      var changedSecretKeys := DiffSecretKeys(previous, merged);
      if changedSecretKeys == [] { return Done; }
      var sealed := enc.EncryptBuffer(c, iv, merged);
      if sealed.Err? { return Failed(sealed.error); }
      versions := versions + [Version(id, Edit, existing)];
      if crash {
        lives := Interrupted(State(), id).lives;
        return Crashed;
      }
      lives := lives[id := LivesOf(State(), id) + [Life(merged, 0)]];
      accounts := accounts[id := sealed.value];
      status := Done;
    }

    method RestoreVersion(
        ghost c: Cipher<Payload>, ghost pool: Pool, id: nat, version: nat, crash: bool) returns (status: Status)
      modifies this
      ensures State() == Restored(c, pool, old(State()), id, version, crash)
      ensures status == NotFound
         <==> !(id in old(accounts) && version < |old(versions)| && old(versions)[version].accountId == id)
    {
      if id !in accounts { return NotFound; }
      if version >= |versions| || versions[version].accountId != id { return NotFound; }
      var record := versions[version].record;
      versions := versions + [Version(id, Restore, accounts[id])];
      if crash {
        lives := Interrupted(State(), id).lives;
        return Crashed;
      }
      lives := lives[id := LivesOf(State(), id) + [Life(Previous(c, pool, record), 0)]];
      accounts := accounts[id := record];
      status := Done;
    }
  }
}
