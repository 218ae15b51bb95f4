/** Which backups the prune script may delete, and the gate that lets a migration run. */
module BackupRetention {
  import opened JsStrings
  import opened Sieving

  const DAY_MS := 86400000
  const DEFAULT_MAX_AGE_MS := 86400000

  datatype BackupStatus = Running | Succeeded | Verified | Failed

  datatype Environment = Production | Other(name: nat)

  /** `id` is a UUID, so never the empty string. */
  datatype BackupRun = BackupRun(id: nat, status: BackupStatus, startedAt: int, environment: Environment)

  // ---------- retention ----------

  /** The reduce over the VERIFIED rows: a later row replaces the current one only if it is strictly newer. */
  function LatestVerified(runs: seq<BackupRun>): (r: Option<BackupRun>) {
    if runs == [] then None
    else
      var acc, last := LatestVerified(runs[..|runs| - 1]), runs[|runs| - 1];
      if last.status == Verified && (acc == None || last.startedAt > acc.value.startedAt) then Some(last) else acc
  }

  predicate Prunable(run: BackupRun, latest: Option<BackupRun>, cutoff: int) {
    run.startedAt < cutoff && (latest == None || run.id != latest.value.id)
  }

  function Keep(runs: seq<BackupRun>, latest: Option<BackupRun>, cutoff: int): seq<BackupRun> {
    if runs == [] then []
    else
      var init, last := Keep(runs[..|runs| - 1], latest, cutoff), runs[|runs| - 1];
      if Prunable(last, latest, cutoff) then init + [last] else init
  }

  function PickRunsToPrune(runs: seq<BackupRun>, cutoff: int): seq<BackupRun> {
    Keep(runs, LatestVerified(runs), cutoff)
  }

  ghost predicate DistinctIds(runs: seq<BackupRun>) {
    forall i, j :: 0 <= i < j < |runs| ==> runs[i].id != runs[j].id
  }

  /** The table after a prune that managed to delete the rows in `deleted`. */
  function Remaining(runs: seq<BackupRun>, deleted: set<nat>): seq<BackupRun> {
    if runs == [] then []
    else
      var init, last := Remaining(runs[..|runs| - 1], deleted), runs[|runs| - 1];
      if last.id in deleted then init else init + [last]
  }

  ghost function Ids(runs: seq<BackupRun>): set<nat> {
    set i | 0 <= i < |runs| :: runs[i].id
  }

  lemma {:induction false} KeepHolds(runs: seq<BackupRun>, latest: Option<BackupRun>, cutoff: int)
    ensures forall r :: r in Keep(runs, latest, cutoff) <==> r in runs && Prunable(r, latest, cutoff)
  {
    if runs == [] {
    } else {
      KeepHolds(runs[..|runs| - 1], latest, cutoff);
      assert runs == runs[..|runs| - 1] + [runs[|runs| - 1]];
    }
  }

  /** The candidates are listed in the order of the table. */
  lemma {:induction false} KeepSieves(runs: seq<BackupRun>, latest: Option<BackupRun>, cutoff: int)
    ensures Sieves(runs, Keep(runs, latest, cutoff), (r: BackupRun) => Prunable(r, latest, cutoff))
  {
    var wanted := (r: BackupRun) => Prunable(r, latest, cutoff);
    if runs == [] {
      NothingSieved(wanted);
    } else {
      var init, last := runs[..|runs| - 1], runs[|runs| - 1];
      KeepSieves(init, latest, cutoff);
      assert runs == init + [last];
      if wanted(last) { SieveKeeps(init, Keep(init, latest, cutoff), last, wanted); }
      else { SieveDrops(init, Keep(init, latest, cutoff), last, wanted); }
    }
  }

  lemma {:induction false} RemainingHolds(runs: seq<BackupRun>, deleted: set<nat>)
    ensures forall r :: r in Remaining(runs, deleted) <==> r in runs && r.id !in deleted
  {
    if runs == [] {
    } else {
      RemainingHolds(runs[..|runs| - 1], deleted);
      assert runs == runs[..|runs| - 1] + [runs[|runs| - 1]];
    }
  }

  /** Of several newest VERIFIED runs the first is the anchor. */
  lemma {:induction false} AnchorIsFirst(runs: seq<BackupRun>)
    requires LatestVerified(runs).Some?
    ensures exists k :: FirstNewest(runs, k) && runs[k] == LatestVerified(runs).value
  {
    var init, last := runs[..|runs| - 1], runs[|runs| - 1];
    var acc := LatestVerified(init);
    if acc.Some? && LatestVerified(runs) == acc {
      AnchorIsFirst(init);
      var k :| FirstNewest(init, k) && init[k] == acc.value;
      FirstNewestStays(runs, k);
    } else {
      NewerThanAll(runs);
    }
  }

  lemma FirstNewestStays(runs: seq<BackupRun>, k: int)
    requires runs != [] && FirstNewest(runs[..|runs| - 1], k)
    ensures FirstNewest(runs, k) && runs[k] == runs[..|runs| - 1][k]
  {
  }

  lemma NewerThanAll(runs: seq<BackupRun>)
    requires runs != [] && LatestVerified(runs) == Some(runs[|runs| - 1])
    requires LatestVerified(runs[..|runs| - 1]) != LatestVerified(runs) || LatestVerified(runs[..|runs| - 1]) == None
    ensures FirstNewest(runs, |runs| - 1)
  {
    var init := runs[..|runs| - 1];
    AnchorIsNewest(init);
    forall j | 0 <= j < |init| && init[j].status == Verified ensures init[j].startedAt < runs[|init|].startedAt {
      assert init[j] in init;
    }
  }

  /** Every VERIFIED run before position k is older than the run there. */
  ghost predicate FirstNewest(runs: seq<BackupRun>, k: int) {
    0 <= k < |runs| && forall j :: 0 <= j < k && runs[j].status == Verified ==> runs[j].startedAt < runs[k].startedAt
  }

  /** The anchor is a VERIFIED run that no VERIFIED run is newer than; there is one if any run is VERIFIED. */
  lemma {:induction false} AnchorIsNewest(runs: seq<BackupRun>)
    ensures var latest := LatestVerified(runs);
            && (latest.Some? ==> latest.value in runs && latest.value.status == Verified)
            && (forall r :: r in runs && r.status == Verified ==> latest.Some? && r.startedAt <= latest.value.startedAt)
  {
    if runs == [] {
    } else {
      AnchorIsNewest(runs[..|runs| - 1]);
      assert runs == runs[..|runs| - 1] + [runs[|runs| - 1]];
    }
  }

  /** A row is pruned exactly when it is older than the cutoff and is not the anchor. */
  lemma PrunedExactlyWhen(runs: seq<BackupRun>, cutoff: int, r: BackupRun)
    requires DistinctIds(runs) && r in runs
    ensures r in PickRunsToPrune(runs, cutoff) <==> r.startedAt < cutoff && LatestVerified(runs) != Some(r)
  {
    KeepHolds(runs, LatestVerified(runs), cutoff);
    AnchorIsNewest(runs);
  }

  // ---------- the gate ----------

  datatype Verdict = Allowed | NoVerified | NotVerified | NoCurrentRun | OtherRun | OtherEnvironment | TooOld

  function EvaluateMigrationGate(environment: Environment, now: int, latest: Option<BackupRun>, maxAgeMs: Option<int>,
                                 requireCurrentRun: bool, currentRunId: Option<nat>): Verdict {
    if latest == None then NoVerified
    else if latest.value.status != Verified then NotVerified
    else if requireCurrentRun && currentRunId == None then NoCurrentRun
    else if requireCurrentRun && latest.value.id != currentRunId.value then OtherRun
    else if environment == Production && latest.value.environment != Production then OtherEnvironment
    else if environment == Production
            && now - latest.value.startedAt > (if maxAgeMs.Some? then maxAgeMs.value else DEFAULT_MAX_AGE_MS)
                 then TooOld
    else Allowed
  }

  /** The checks in the order they are made, each with the verdict it gives when it fails. */
  function Checks(environment: Environment, now: int, latest: BackupRun, maxAgeMs: Option<int>,
                  requireCurrentRun: bool, currentRunId: Option<nat>): seq<(bool, Verdict)> {
    [(latest.status == Verified, NotVerified),
     (requireCurrentRun ==> currentRunId.Some?, NoCurrentRun),
     (requireCurrentRun ==> currentRunId == Some(latest.id), OtherRun),
     (environment == Production ==> latest.environment == Production, OtherEnvironment),
     (environment == Production ==>
        now - latest.startedAt <= if maxAgeMs.Some? then maxAgeMs.value else 24 * 60 * 60 * 1000, TooOld)]
  }

  /** The migration is allowed exactly when a run is found and all checks hold; else the first failing one is named. */
  lemma VerdictNamesTheFirstFailure(
      environment: Environment, now: int, latest: Option<BackupRun>, maxAgeMs: Option<int>, requireCurrentRun: bool,
      currentRunId: Option<nat>)
    ensures var verdict := EvaluateMigrationGate(environment, now, latest, maxAgeMs, requireCurrentRun, currentRunId);
            && (verdict == NoVerified <==> latest == None)
            && (latest.Some? ==>
                  var checks := Checks(environment, now, latest.value, maxAgeMs, requireCurrentRun, currentRunId);
                  && (verdict == Allowed <==> forall i :: 0 <= i < 5 ==> checks[i].0)
                  && (forall i :: 0 <= i < 5 && !checks[i].0 && (forall j :: 0 <= j < i ==> checks[j].0) ==>
                        verdict == checks[i].1))
  {
    if latest.Some? {
      var checks := Checks(environment, now, latest.value, maxAgeMs, requireCurrentRun, currentRunId);
      assert (forall i :: 0 <= i < 5 ==> checks[i].0)
        <==> checks[0].0 && checks[1].0 && checks[2].0 && checks[3].0 && checks[4].0;
    }
  }

  /** What `findFirst ... orderBy startedAt desc` may return: any newest VERIFIED run of the environment. */
  ghost predicate MayFind(runs: seq<BackupRun>, environment: Environment, found: Option<BackupRun>) {
    match found
    case None => forall r :: r in runs ==> !(r.status == Verified && r.environment == environment)
    case Some(f) =>
      && f in runs && f.status == Verified && f.environment == environment
      && forall r :: r in runs && r.status == Verified && r.environment == environment ==> r.startedAt <= f.startedAt
  }

  /** The gate script can let the migration through, or refuse it. */
  ghost predicate MayPass(runs: seq<BackupRun>, environment: Environment, now: int, pre: bool, current: Option<nat>) {
    exists found :: MayFind(runs, environment, found)
      && EvaluateMigrationGate(environment, now, found, None, pre, current) == Allowed
  }

  ghost predicate MayRefuse(runs: seq<BackupRun>, environment: Environment, now: int, pre: bool, current: Option<nat>) {
    exists found :: MayFind(runs, environment, found)
      && EvaluateMigrationGate(environment, now, found, None, pre, current) != Allowed
  }

  lemma {:induction false} SomethingIsFound(runs: seq<BackupRun>, environment: Environment)
    returns (found: Option<BackupRun>)
    ensures MayFind(runs, environment, found)
  {
    if runs == [] {
      found := None;
    } else {
      var last := runs[|runs| - 1];
      var before := SomethingIsFound(runs[..|runs| - 1], environment);
      assert runs == runs[..|runs| - 1] + [last];
      found := if last.status == Verified && last.environment == environment
                  && (before == None || last.startedAt > before.value.startedAt)
               then Some(last) else before;
    }
  }

  /** The script's cutoff for a prune at `prunedAt`. */
  function Cutoff(prunedAt: int, retentionDays: int): int {
    prunedAt - retentionDays * DAY_MS
  }

  /** The prune deleted some of its candidates, not necessarily all: single deletes may fail. */
  ghost predicate PartOfPrune(runs: seq<BackupRun>, cutoff: int, deleted: set<nat>) {
    deleted <= Ids(PickRunsToPrune(runs, cutoff))
  }

  /** Exactly the runs older than the retention are pruned, and never the newest VERIFIED one. */
  lemma PrunedAfterRetention(runs: seq<BackupRun>, prunedAt: int, retentionDays: int, r: BackupRun)
    requires DistinctIds(runs) && r in runs
    ensures r in PickRunsToPrune(runs, Cutoff(prunedAt, retentionDays))
       <==> prunedAt - r.startedAt > retentionDays * 86400000 && LatestVerified(runs) != Some(r)
  {
    PrunedExactlyWhen(runs, Cutoff(prunedAt, retentionDays), r);
  }

  lemma DeletedIsOld(runs: seq<BackupRun>, cutoff: int, deleted: set<nat>, r: BackupRun)
    requires DistinctIds(runs) && PartOfPrune(runs, cutoff, deleted) && r in runs && r.id in deleted
    ensures r.startedAt < cutoff && LatestVerified(runs) != Some(r)
  {
    var picked := PickRunsToPrune(runs, cutoff);
    var k :| 0 <= k < |picked| && picked[k].id == r.id;
    KeepHolds(runs, LatestVerified(runs), cutoff);
    assert picked[k] in runs;
    PrunedExactlyWhen(runs, cutoff, r);
  }

  /** The production gate lets an accepted newest run of at most 24 hours through, and refuses any other. */
  lemma ProductionGateMeans(runs: seq<BackupRun>, now: int, pre: bool, current: Option<nat>)
    ensures MayPass(runs, Production, now, pre, current)
       <==> exists f :: MayFind(runs, Production, Some(f)) && Accepts(pre, current, f) && now - f.startedAt <= 86400000
    ensures MayRefuse(runs, Production, now, pre, current)
       <==> (MayFind(runs, Production, None)
             || exists f :: MayFind(runs, Production, Some(f))
                            && !(Accepts(pre, current, f) && now - f.startedAt <= 86400000))
  {
    forall found | MayFind(runs, Production, found)
      ensures EvaluateMigrationGate(Production, now, found, None, pre, current) == Allowed
         <==> found.Some? && Accepts(pre, current, found.value) && now - found.value.startedAt <= 86400000
    {
    }
  }

  /** A fresh production backup survives; an old one cannot pass the gate, with or without the prune. */
  lemma ProductionFinds(runs: seq<BackupRun>, prunedAt: int, retentionDays: int, deleted: set<nat>, now: int,
                        pre: bool, current: Option<nat>, found: Option<BackupRun>, after: Option<BackupRun>)
    requires DistinctIds(runs) && retentionDays >= 1 && now >= prunedAt
    requires PartOfPrune(runs, Cutoff(prunedAt, retentionDays), deleted)
    requires MayFind(runs, Production, found) && MayFind(Remaining(runs, deleted), Production, after)
    ensures (MayFind(Remaining(runs, deleted), Production, found) && MayFind(runs, Production, after))
            || (EvaluateMigrationGate(Production, now, found, None, pre, current) != Allowed
                && EvaluateMigrationGate(Production, now, after, None, pre, current) != Allowed)
  {
    RemainingHolds(runs, deleted);
    if found.Some? && found.value.id in deleted {
      DeletedIsOld(runs, Cutoff(prunedAt, retentionDays), deleted, found.value);
    }
  }

  /**
   * Pruning never changes the production gate's verdict from the prune on: for every run table, mix of
   * environments, retention of at least a day, set of deletes that succeeded, and gate mode.
   */
  lemma PruneNeverMovesTheProductionGate(
      runs: seq<BackupRun>, prunedAt: int, retentionDays: int, deleted: set<nat>, now: int, pre: bool,
      current: Option<nat>)
    requires DistinctIds(runs) && retentionDays >= 1 && now >= prunedAt
    requires PartOfPrune(runs, Cutoff(prunedAt, retentionDays), deleted)
    ensures MayPass(runs, Production, now, pre, current)
       <==> MayPass(Remaining(runs, deleted), Production, now, pre, current)
    ensures MayRefuse(runs, Production, now, pre, current)
       <==> MayRefuse(Remaining(runs, deleted), Production, now, pre, current)
  {
    var left := Remaining(runs, deleted);
    var f := SomethingIsFound(runs, Production);
    var g := SomethingIsFound(left, Production);
    forall found, after | MayFind(runs, Production, found) && MayFind(left, Production, after)
      ensures (MayFind(left, Production, found) && MayFind(runs, Production, after))
              || (EvaluateMigrationGate(Production, now, found, None, pre, current) != Allowed
                  && EvaluateMigrationGate(Production, now, after, None, pre, current) != Allowed)
    {
      ProductionFinds(runs, prunedAt, retentionDays, deleted, now, pre, current, found, after);
    }
    assert MayFind(runs, Production, f) && MayFind(left, Production, g);
  }

  // ---------- the gate outside production ----------

  ghost predicate Mine(r: BackupRun, name: nat) { r.status == Verified && r.environment == Other(name) }

  /** The run the pre-migration flow accepts: any run outside that flow, only the current one in it. */
  ghost predicate Accepts(pre: bool, current: Option<nat>, r: BackupRun) { pre ==> current == Some(r.id) }

  /** Elsewhere the gate asks for a VERIFIED run, and before a migration for the current run to be the newest. */
  lemma OtherGateMeans(runs: seq<BackupRun>, name: nat, now: int, pre: bool, current: Option<nat>)
    ensures MayPass(runs, Other(name), now, pre, current)
       <==> exists f :: MayFind(runs, Other(name), Some(f)) && Accepts(pre, current, f)
    ensures MayRefuse(runs, Other(name), now, pre, current)
       <==> (MayFind(runs, Other(name), None)
             || exists f :: MayFind(runs, Other(name), Some(f)) && !Accepts(pre, current, f))
  {
    forall found | MayFind(runs, Other(name), found)
      ensures EvaluateMigrationGate(Other(name), now, found, None, pre, current) == Allowed
         <==> found.Some? && Accepts(pre, current, found.value)
    {
    }
  }

  /** What is found among the remaining runs: a run no VERIFIED run left over is newer than. */
  lemma FoundAmongRemaining(runs: seq<BackupRun>, deleted: set<nat>, name: nat, f: BackupRun)
    ensures MayFind(Remaining(runs, deleted), Other(name), Some(f))
       <==> && f in runs && Mine(f, name) && f.id !in deleted
            && forall r :: r in runs && Mine(r, name) && r.startedAt > f.startedAt ==> r.id in deleted
    ensures MayFind(Remaining(runs, deleted), Other(name), None)
       <==> forall r :: r in runs && Mine(r, name) ==> r.id in deleted
  {
    RemainingHolds(runs, deleted);
  }

  /**
   * Deleting runs takes away that the gate can pass exactly when it could before and every run it accepts is
   * deleted: for every set of deletes that succeeded and in either flow.
   */
  lemma PruneClosesOtherGatesExactlyWhen(
      runs: seq<BackupRun>, deleted: set<nat>, name: nat, now: int, pre: bool, current: Option<nat>)
    requires DistinctIds(runs)
    ensures MayPass(runs, Other(name), now, pre, current)
              && !MayPass(Remaining(runs, deleted), Other(name), now, pre, current)
       <==> && (exists f :: MayFind(runs, Other(name), Some(f)) && Accepts(pre, current, f))
            && (forall r :: r in runs && Mine(r, name) && Accepts(pre, current, r) ==> r.id in deleted)
  {
    var left := Remaining(runs, deleted);
    OtherGateMeans(runs, name, now, pre, current);
    OtherGateMeans(left, name, now, pre, current);
    forall f
      ensures MayFind(left, Other(name), Some(f)) ==> f in runs && Mine(f, name) && f.id !in deleted
      ensures MayFind(runs, Other(name), Some(f)) && f.id !in deleted ==> MayFind(left, Other(name), Some(f))
    {
      FoundAmongRemaining(runs, deleted, name, f);
    }
    if MayPass(runs, Other(name), now, pre, current) && !MayPass(left, Other(name), now, pre, current) {
      forall r | r in runs && Mine(r, name) && Accepts(pre, current, r) ensures r.id in deleted {
        if r.id !in deleted { AcceptedSurvivorPasses(runs, deleted, name, now, pre, current, r); }
      }
    }
  }

  /** A gate that could pass still can, as long as a run it accepts is left. */
  lemma AcceptedSurvivorPasses(
      runs: seq<BackupRun>, deleted: set<nat>, name: nat, now: int, pre: bool, current: Option<nat>, r: BackupRun)
    requires DistinctIds(runs) && MayPass(runs, Other(name), now, pre, current)
    requires r in runs && Mine(r, name) && Accepts(pre, current, r) && r.id !in deleted
    ensures MayPass(Remaining(runs, deleted), Other(name), now, pre, current)
  {
    var left := Remaining(runs, deleted);
    OtherGateMeans(runs, name, now, pre, current);
    OtherGateMeans(left, name, now, pre, current);
    if pre {
      var f :| MayFind(runs, Other(name), Some(f)) && Accepts(pre, current, f);
      assert f == r;
      FoundAmongRemaining(runs, deleted, name, f);
    } else {
      var found := SomethingIsFound(left, Other(name));
      FoundAmongRemaining(runs, deleted, name, r);
      assert MayFind(left, Other(name), found) && found.Some?;
      assert Accepts(pre, current, found.value);
    }
  }

  /**
   * Deleting runs makes a gate pass that could not exactly when, before a migration, the current run is left and
   * all the newer ones, of which there are some, are deleted.
   */
  lemma PruneOpensOtherGatesExactlyWhen(
      runs: seq<BackupRun>, deleted: set<nat>, name: nat, now: int, pre: bool, current: Option<nat>)
    requires DistinctIds(runs)
    ensures !MayPass(runs, Other(name), now, pre, current)
              && MayPass(Remaining(runs, deleted), Other(name), now, pre, current)
       <==> exists r ::
              r in runs && Mine(r, name) && r.id !in deleted
              && OvertakenOnlyByDeleted(runs, deleted, name, pre, current, r)
  {
    var left := Remaining(runs, deleted);
    OtherGateMeans(runs, name, now, pre, current);
    OtherGateMeans(left, name, now, pre, current);
    if !MayPass(runs, Other(name), now, pre, current) && MayPass(left, Other(name), now, pre, current) {
      var f :| MayFind(left, Other(name), Some(f)) && Accepts(pre, current, f);
      FoundAmongRemaining(runs, deleted, name, f);
      NotFoundMeansOvertaken(runs, name, now, pre, current, f);
      assert OvertakenOnlyByDeleted(runs, deleted, name, pre, current, f);
    }
    if r :| r in runs && Mine(r, name) && r.id !in deleted
            && OvertakenOnlyByDeleted(runs, deleted, name, pre, current, r)
    {
      OvertakenMeansOpened(runs, deleted, name, now, pre, current, r);
    }
  }

  lemma OvertakenMeansOpened(
      runs: seq<BackupRun>, deleted: set<nat>, name: nat, now: int, pre: bool, current: Option<nat>, r: BackupRun)
    requires DistinctIds(runs) && r in runs && Mine(r, name) && r.id !in deleted
    requires OvertakenOnlyByDeleted(runs, deleted, name, pre, current, r)
    ensures !MayPass(runs, Other(name), now, pre, current)
    ensures MayPass(Remaining(runs, deleted), Other(name), now, pre, current)
  {
    var left := Remaining(runs, deleted);
    OtherGateMeans(runs, name, now, pre, current);
    OtherGateMeans(left, name, now, pre, current);
    FoundAmongRemaining(runs, deleted, name, r);
    assert MayFind(left, Other(name), Some(r)) && Accepts(pre, current, r);
    var q :| q in runs && Mine(q, name) && q.startedAt > r.startedAt;
    forall f | MayFind(runs, Other(name), Some(f)) ensures !Accepts(pre, current, f) {
      assert f.startedAt >= q.startedAt;
      assert f.id == r.id ==> f == r;
    }
  }

  /** The current run of the pre-migration flow, with newer runs, all of them deleted. */
  ghost predicate OvertakenOnlyByDeleted(
      runs: seq<BackupRun>, deleted: set<nat>, name: nat, pre: bool, current: Option<nat>, r: BackupRun) {
    && pre && current == Some(r.id)
    && (exists q :: q in runs && Mine(q, name) && q.startedAt > r.startedAt)
    && (forall q :: q in runs && Mine(q, name) && q.startedAt > r.startedAt ==> q.id in deleted)
  }

  lemma NotFoundMeansOvertaken(runs: seq<BackupRun>, name: nat, now: int, pre: bool, current: Option<nat>, f: BackupRun)
    requires f in runs && Mine(f, name) && Accepts(pre, current, f) && !MayPass(runs, Other(name), now, pre, current)
    ensures pre && exists q :: q in runs && Mine(q, name) && q.startedAt > f.startedAt
  {
    OtherGateMeans(runs, name, now, pre, current);
    var found := SomethingIsFound(runs, Other(name));
    assert MayFind(runs, Other(name), found) && found.Some?;
    assert !Accepts(pre, current, found.value);
    assert MayFind(runs, Other(name), Some(f))
       <==> forall q :: q in runs && Mine(q, name) ==> q.startedAt <= f.startedAt;
  }

  /**
   * With equal start times a gate may both pass and refuse. Deleting runs lets a gate refuse that could not before
   * exactly when it closes it for good: every run it accepts is deleted.
   */
  lemma PruneLetsOtherGatesRefuseExactlyWhen(
      runs: seq<BackupRun>, deleted: set<nat>, name: nat, now: int, pre: bool, current: Option<nat>)
    requires DistinctIds(runs)
    ensures !MayRefuse(runs, Other(name), now, pre, current)
              && MayRefuse(Remaining(runs, deleted), Other(name), now, pre, current)
       <==> && (exists r :: r in runs && Mine(r, name))
            && (forall f :: MayFind(runs, Other(name), Some(f)) ==> Accepts(pre, current, f))
            && (forall r :: r in runs && Mine(r, name) && Accepts(pre, current, r) ==> r.id in deleted)
  {
    var left := Remaining(runs, deleted);
    OtherGateMeans(runs, name, now, pre, current);
    OtherGateMeans(left, name, now, pre, current);
    if !MayRefuse(runs, Other(name), now, pre, current) {
      var found := SomethingIsFound(runs, Other(name));
      assert MayFind(runs, Other(name), found) && found.Some?;
      var f := found.value;
      assert Accepts(pre, current, f);
      var after := SomethingIsFound(left, Other(name));
      FoundAmongRemaining(runs, deleted, name, f);
      if after.Some? { FoundAmongRemaining(runs, deleted, name, after.value); }
      if MayRefuse(left, Other(name), now, pre, current) {
        forall r | r in runs && Mine(r, name) && Accepts(pre, current, r) ensures r.id in deleted {
          if r.id !in deleted { SurvivorNeverRefused(runs, deleted, name, now, pre, current, r); }
        }
      }
    }
  }

  /** A gate that could not refuse still cannot, as long as a run it accepts is left. */
  lemma SurvivorNeverRefused(
      runs: seq<BackupRun>, deleted: set<nat>, name: nat, now: int, pre: bool, current: Option<nat>, r: BackupRun)
    requires DistinctIds(runs) && !MayRefuse(runs, Other(name), now, pre, current)
    requires r in runs && Mine(r, name) && Accepts(pre, current, r) && r.id !in deleted
    ensures !MayRefuse(Remaining(runs, deleted), Other(name), now, pre, current)
  {
    var left := Remaining(runs, deleted);
    OtherGateMeans(runs, name, now, pre, current);
    OtherGateMeans(left, name, now, pre, current);
    FoundAmongRemaining(runs, deleted, name, r);
    var found := SomethingIsFound(runs, Other(name));
    assert MayFind(runs, Other(name), found) && found.Some? && Accepts(pre, current, found.value);
    forall f | MayFind(left, Other(name), Some(f)) ensures Accepts(pre, current, f) {
      FoundAmongRemaining(runs, deleted, name, f);
      if pre {
        assert found.value == r;
        assert r.startedAt >= f.startedAt;
        assert MayFind(runs, Other(name), Some(f)) <==> f.startedAt == r.startedAt;
      }
    }
  }

  /** The current run of the pre-migration flow, with others as new or newer, all of them deleted. */
  ghost predicate RivalledOnlyByDeleted(
      runs: seq<BackupRun>, deleted: set<nat>, name: nat, pre: bool, current: Option<nat>, r: BackupRun) {
    && pre && current == Some(r.id)
    && (exists q :: q in runs && Mine(q, name) && q != r && q.startedAt >= r.startedAt)
    && (forall q :: q in runs && Mine(q, name) && q != r && q.startedAt >= r.startedAt ==> q.id in deleted)
  }

  /**
   * And it ends that a gate can refuse exactly when, before a migration, the current run is left and all its
   * rivals, of which there are some, are deleted.
   */
  lemma PruneEndsRefusalExactlyWhen(
      runs: seq<BackupRun>, deleted: set<nat>, name: nat, now: int, pre: bool, current: Option<nat>)
    requires DistinctIds(runs)
    ensures MayRefuse(runs, Other(name), now, pre, current)
              && !MayRefuse(Remaining(runs, deleted), Other(name), now, pre, current)
       <==> exists r ::
              r in runs && Mine(r, name) && r.id !in deleted
              && RivalledOnlyByDeleted(runs, deleted, name, pre, current, r)
  {
    var left := Remaining(runs, deleted);
    OtherGateMeans(runs, name, now, pre, current);
    OtherGateMeans(left, name, now, pre, current);
    if MayRefuse(runs, Other(name), now, pre, current) && !MayRefuse(left, Other(name), now, pre, current) {
      var found := SomethingIsFound(left, Other(name));
      assert found.Some? && Accepts(pre, current, found.value);
      RefusalEnded(runs, deleted, name, now, pre, current, found.value);
    }
    if r :| r in runs && Mine(r, name) && r.id !in deleted
            && RivalledOnlyByDeleted(runs, deleted, name, pre, current, r)
    {
      RivalMeansRefusal(runs, deleted, name, now, pre, current, r);
    }
  }

  lemma RefusalEnded(
      runs: seq<BackupRun>, deleted: set<nat>, name: nat, now: int, pre: bool, current: Option<nat>, r: BackupRun)
    requires DistinctIds(runs) && MayFind(Remaining(runs, deleted), Other(name), Some(r))
    requires MayRefuse(runs, Other(name), now, pre, current)
    requires !MayRefuse(Remaining(runs, deleted), Other(name), now, pre, current)
    ensures r in runs && Mine(r, name) && r.id !in deleted
    ensures RivalledOnlyByDeleted(runs, deleted, name, pre, current, r)
  {
    var left := Remaining(runs, deleted);
    OtherGateMeans(runs, name, now, pre, current);
    OtherGateMeans(left, name, now, pre, current);
    FoundAmongRemaining(runs, deleted, name, r);
    var f :| MayFind(runs, Other(name), Some(f)) && !Accepts(pre, current, f);
    assert f != r && f.startedAt >= r.startedAt;
    forall q | q in runs && Mine(q, name) && q != r && q.startedAt >= r.startedAt ensures q.id in deleted {
      FoundAmongRemaining(runs, deleted, name, q);
      assert q.id !in deleted ==> MayFind(left, Other(name), Some(q)) && !Accepts(pre, current, q);
    }
  }

  lemma RivalMeansRefusal(
      runs: seq<BackupRun>, deleted: set<nat>, name: nat, now: int, pre: bool, current: Option<nat>, r: BackupRun)
    requires DistinctIds(runs) && r in runs && Mine(r, name) && r.id !in deleted
    requires RivalledOnlyByDeleted(runs, deleted, name, pre, current, r)
    ensures MayRefuse(runs, Other(name), now, pre, current)
    ensures !MayRefuse(Remaining(runs, deleted), Other(name), now, pre, current)
  {
    var left := Remaining(runs, deleted);
    OtherGateMeans(runs, name, now, pre, current);
    OtherGateMeans(left, name, now, pre, current);
    FoundAmongRemaining(runs, deleted, name, r);
    forall f | MayFind(left, Other(name), Some(f)) ensures f == r { FoundAmongRemaining(runs, deleted, name, f); }
    var q :| q in runs && Mine(q, name) && q != r && q.startedAt >= r.startedAt;
    var found := SomethingIsFound(runs, Other(name));
    assert MayFind(runs, Other(name), found) && found.Some?;
    if found.value == r {
      assert MayFind(runs, Other(name), Some(q));
      assert !Accepts(pre, current, q);
    }
  }

  /** A complete prune, outside the pre-migration flow: every VERIFIED run is past the cutoff and none is the anchor. */
  lemma FullPruneClosesOtherGatesExactlyWhen(runs: seq<BackupRun>, cutoff: int, name: nat, now: int)
    requires DistinctIds(runs)
    ensures (MayPass(runs, Other(name), now, false, None)
             && !MayPass(Remaining(runs, Ids(PickRunsToPrune(runs, cutoff))), Other(name), now, false, None))
            <==> && (exists r :: r in runs && Mine(r, name))
                 && forall r :: r in runs && Mine(r, name) ==> r.startedAt < cutoff && LatestVerified(runs) != Some(r)
  {
    var picked := PickRunsToPrune(runs, cutoff);
    PruneClosesOtherGatesExactlyWhen(runs, Ids(picked), name, now, false, None);
    KeepHolds(runs, LatestVerified(runs), cutoff);
    var found := SomethingIsFound(runs, Other(name));
    assert found.Some? ==> MayFind(runs, Other(name), Some(found.value)) && Accepts(false, None, found.value);
    forall r | r in runs ensures r.id in Ids(picked) <==> r.startedAt < cutoff && LatestVerified(runs) != Some(r) {
      PrunedExactlyWhen(runs, cutoff, r);
      if r in picked {
        PickedIds(picked);
      } else if r.id in Ids(picked) {
        DeletedIsOld(runs, cutoff, Ids(picked), r);
      }
    }
  }

  /** A prune that only gets through part of its candidates can let a migration through that was refused before it. */
  lemma PartialPruneOpensAGate() returns (runs: seq<BackupRun>, deleted: set<nat>)
    ensures DistinctIds(runs) && PartOfPrune(runs, 100, deleted)
    ensures forall now :: !MayPass(runs, Other(0), now, true, Some(1))
    ensures forall now :: MayPass(Remaining(runs, deleted), Other(0), now, true, Some(1))
  {
    var current := BackupRun(1, Verified, 10, Other(0));
    var newer := BackupRun(2, Verified, 20, Other(0));
    var anchor := BackupRun(3, Verified, 500, Production);
    runs, deleted := [current, newer, anchor], {2};
    assert runs[0] == current && runs[1] == newer && runs[2] == anchor;
    forall now
      ensures !MayPass(runs, Other(0), now, true, Some(1))
      ensures MayPass(Remaining(runs, deleted), Other(0), now, true, Some(1))
    {
      assert current in runs && newer in runs;
      assert OvertakenOnlyByDeleted(runs, deleted, 0, true, Some(1), current);
      PruneOpensOtherGatesExactlyWhen(runs, deleted, 0, now, true, Some(1));
    }
    PrunedExactlyWhen(runs, 100, newer);
    AnchorIsNewest(runs);
    assert anchor in runs;
    assert newer in PickRunsToPrune(runs, 100);
    PickedIds(PickRunsToPrune(runs, 100));
  }

  /** For a fixed cutoff a second prune finds nothing, and the anchor is still there. */
  lemma PruneIsIdempotent(runs: seq<BackupRun>, cutoff: int)
    requires DistinctIds(runs)
    ensures var left := Remaining(runs, Ids(PickRunsToPrune(runs, cutoff)));
            && PickRunsToPrune(left, cutoff) == []
            && LatestVerified(left) == LatestVerified(runs)
  {
    var picked := PickRunsToPrune(runs, cutoff);
    AnchorSurvives(runs, Ids(picked), cutoff);
    var left := Remaining(runs, Ids(picked));
    RemainingHolds(runs, Ids(picked));
    KeepHolds(runs, LatestVerified(runs), cutoff);
    PickedIds(picked);
    KeepsNothing(left, LatestVerified(left), cutoff);
  }

  lemma {:induction false} KeepsNothing(runs: seq<BackupRun>, latest: Option<BackupRun>, cutoff: int)
    requires forall r :: r in runs ==> !Prunable(r, latest, cutoff)
    ensures Keep(runs, latest, cutoff) == []
  {
    if runs == [] {
    } else {
      KeepsNothing(runs[..|runs| - 1], latest, cutoff);
      assert runs[|runs| - 1] in runs;
    }
  }

  lemma PickedIds(picked: seq<BackupRun>)
    ensures forall r :: r in picked ==> r.id in Ids(picked)
  {
    forall r | r in picked ensures r.id in Ids(picked) {
      var k :| 0 <= k < |picked| && picked[k] == r;
      assert picked[k].id in Ids(picked);
    }
  }

  /** Deleting rows other than the anchor leaves the anchor the one the reduce picks. */
  lemma {:induction false} ReduceSkips(runs: seq<BackupRun>, deleted: set<nat>)
    requires LatestVerified(runs).Some? ==> LatestVerified(runs).value.id !in deleted
    ensures LatestVerified(runs).Some? ==> LatestVerified(Remaining(runs, deleted)) == LatestVerified(runs)
    ensures LatestVerified(runs) == None ==> LatestVerified(Remaining(runs, deleted)) == None
  {
    if runs == [] {
    } else {
      var init, last := runs[..|runs| - 1], runs[|runs| - 1];
      var left := Remaining(init, deleted);
      if LatestVerified(runs) == LatestVerified(init) {
        ReduceSkips(init, deleted);
        assert (left + [last])[..|left|] == left;
      } else {
        NeverNewer(init, deleted);
        assert (left + [last])[..|left|] == left;
      }
    }
  }

  lemma NeverNewer(runs: seq<BackupRun>, deleted: set<nat>)
    ensures var all, left := LatestVerified(runs), LatestVerified(Remaining(runs, deleted));
            left.Some? ==> all.Some? && left.value.startedAt <= all.value.startedAt
  {
    AnchorIsNewest(runs);
    AnchorIsNewest(Remaining(runs, deleted));
    RemainingHolds(runs, deleted);
  }

  lemma AnchorSurvives(runs: seq<BackupRun>, deleted: set<nat>, cutoff: int)
    requires DistinctIds(runs) && PartOfPrune(runs, cutoff, deleted)
    ensures LatestVerified(Remaining(runs, deleted)) == LatestVerified(runs)
  {
    AnchorIsNewest(runs);
    if LatestVerified(runs).Some? && LatestVerified(runs).value.id in deleted {
      DeletedIsOld(runs, cutoff, deleted, LatestVerified(runs).value);
    }
    ReduceSkips(runs, deleted);
  }
}
