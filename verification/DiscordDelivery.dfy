/** The durable delivery row of one digest chunk, and the sender loop that claims, posts and finalises it. */
module DiscordDelivery {
  import opened JsStrings

  /** How long a claimed chunk counts as being sent by somebody. */
  const CHUNK_LEASE_TTL_MS := 120000

  datatype Status = Pending | Sent | Failed

  /** `sentAt` doubles as the end of the lease while the row is pending. */
  datatype Row = Row(status: Status, attempts: nat, sentAt: Option<int>, lastError: Option<JsString>)

  /** The answer to a post: accepted, refused (429 carries a retry delay), or thrown by the client. */
  datatype PostResult = Ok | Refused(error: JsString, retryAfterMs: Option<int>) | Thrown(error: JsString)

  datatype Claim = Claimed | AlreadySent | Leased(until: int) | Contended

  type Rows = map<nat, Row>

  // ---------- what one transaction does to one row ----------

  function Lookup(rows: Rows, chunk: nat): Option<Row> {
    if chunk in rows then Some(rows[chunk]) else None
  }

  predicate LiveLease(row: Row, now: int) {
    row.status == Pending && row.sentAt.Some? && row.sentAt.value > now
  }

  function Decide(existing: Option<Row>, now: int): Claim {
    if existing.Some? && existing.value.status == Sent then AlreadySent
    else if existing.Some? && LiveLease(existing.value, now) then Leased(existing.value.sentAt.value)
    else Claimed
  }

  /** The claim's write: `seen` is what the transaction read, `current` what is there when it commits. */
  function ClaimedRow(current: Option<Row>, seen: Option<Row>, leaseUntil: int): Row {
    Row(Pending, if seen.Some? then seen.value.attempts + 1 else 1, Some(leaseUntil),
        if current.Some? then current.value.lastError else None)
  }

  /** The four finalisers: an unconditional update by id, chosen by the answer. */
  function Finalised(row: Row, result: PostResult, now: int): Row {
    match result
    case Ok => row.(status := Sent, sentAt := Some(now), lastError := None)
    case Thrown(error) => row.(lastError := Some(error))
    case Refused(error, retryAfterMs) =>
      if retryAfterMs.Some? && retryAfterMs.value != 0
      then row.(status := Pending, lastError := Some(error), sentAt := Some(now + retryAfterMs.value))
      else row.(status := Pending, lastError := Some(error), sentAt := None)
  }

  // ---------- one tick of one sender ----------

  /** What the outside world does while a tick handles one chunk. */
  datatype Env = Env(startedAt: int, readAt: int, lockFree: bool, result: PostResult, accepted: bool, finishedAt: int)

  datatype TickEnd = TickEnd(rows: Rows, log: seq<nat>, failed: bool)

  /** The tick from chunk `i` on: the rows it leaves, what Discord accepted, and whether a post failed. */
  function Send(rows: Rows, log: seq<nat>, n: nat, i: nat, env: nat -> Env): TickEnd
    requires i <= n
    decreases n - i
  {
    if i == n then TickEnd(rows, log, false)
    else
      var e := env(i);
      if !e.lockFree then TickEnd(rows, log, false)
      else match Decide(Lookup(rows, i), e.readAt)
        case AlreadySent => Send(rows, log, n, i + 1, env)
        case Claimed =>
          var claimed := ClaimedRow(Lookup(rows, i), Lookup(rows, i), e.startedAt + CHUNK_LEASE_TTL_MS);
          var rows' := rows[i := Finalised(claimed, e.result, e.finishedAt)];
          var log' := if e.accepted then log + [i] else log;
          if e.result.Ok? then Send(rows', log', n, i + 1, env) else TickEnd(rows', log', true)
        case _ => TickEnd(rows, log, false)
  }

  class ChunkSender {
    var rows: Rows
    /** The chunks whose message Discord accepted, in order. */
    var log: seq<nat>

    constructor ()
      ensures rows == map[] && log == []
    {
      rows, log := map[], [];
    }

    method ClaimChunk(chunk: nat, e: Env) returns (claim: Claim)
      modifies this`rows
      ensures claim == if e.lockFree then Decide(Lookup(old(rows), chunk), e.readAt) else Contended
      ensures claim == Claimed <==> e.lockFree && Open(old(rows), chunk, e.readAt)
      ensures claim == AlreadySent <==> e.lockFree && chunk in old(rows) && old(rows)[chunk].status == Sent
      ensures claim.Leased? ==> chunk in old(rows) && old(rows)[chunk].sentAt == Some(claim.until)
      ensures claim != Claimed ==> rows == old(rows)
      ensures claim == Claimed ==>
                var seen := Lookup(old(rows), chunk);
                rows == old(rows)[chunk := Row(Pending, if seen.Some? then seen.value.attempts + 1 else 1,
                                               Some(e.startedAt + 120000),
                                               if seen.Some? then seen.value.lastError else None)]
    {
      var leaseUntil := e.startedAt + CHUNK_LEASE_TTL_MS;
      if !e.lockFree { return Contended; }
      if chunk in rows && rows[chunk].status == Sent { return AlreadySent; }
      if chunk in rows && LiveLease(rows[chunk], e.readAt) { return Leased(rows[chunk].sentAt.value); }
      if chunk in rows {
        var existing := rows[chunk];
        rows :=
          rows[chunk := existing.(status := Pending, attempts := existing.attempts + 1, sentAt := Some(leaseUntil))];
      } else {
        rows := rows[chunk := Row(Pending, 1, Some(leaseUntil), None)];
      }
      return Claimed;
    }

    method FinaliseSuccess(chunk: nat, now: int)
      requires chunk in rows
      modifies this`rows
      ensures rows == old(rows)[chunk := old(rows)[chunk].(status := Sent, sentAt := Some(now), lastError := None)]
    {
      rows := rows[chunk := Row(Sent, rows[chunk].attempts, Some(now), None)];
    }

    method FinaliseRateLimited(chunk: nat, error: JsString, leaseUntil: int)
      requires chunk in rows
      modifies this`rows
      ensures rows == old(rows)[chunk := old(rows)[chunk].(status := Pending, sentAt := Some(leaseUntil),
                                                           lastError := Some(error))]
    {
      rows := rows[chunk := Row(Pending, rows[chunk].attempts, Some(leaseUntil), Some(error))];
    }

    method FinaliseRecoverableFailure(chunk: nat, error: JsString)
      requires chunk in rows
      modifies this`rows
      ensures rows == old(rows)[chunk := old(rows)[chunk].(status := Pending, sentAt := None,
                                                           lastError := Some(error))]
    {
      rows := rows[chunk := Row(Pending, rows[chunk].attempts, None, Some(error))];
    }

    method FinaliseAmbiguous(chunk: nat, error: JsString)
      requires chunk in rows
      modifies this`rows
      ensures rows == old(rows)[chunk := old(rows)[chunk].(lastError := Some(error))]
    {
      rows := rows[chunk := rows[chunk].(lastError := Some(error))];
    }

    /** The bot call: the answer and the acceptance both come from outside. */
    method PostMessage(chunk: nat, e: Env) returns (result: PostResult)
      modifies this`log
      ensures result == e.result
      ensures log == if e.accepted then old(log) + [chunk] else old(log)
    {
      if e.accepted { log := log + [chunk]; }
      result := e.result;
    }

    /** Which finaliser an answer gets. */
    method FinalisePost(chunk: nat, result: PostResult, now: int)
      requires chunk in rows
      modifies this`rows
      ensures rows == old(rows)[chunk := Finalised(old(rows)[chunk], result, now)]
    {
      match result
      case Thrown(error) => FinaliseAmbiguous(chunk, error);
      case Refused(error, retryAfterMs) =>
        if retryAfterMs.Some? && retryAfterMs.value != 0 {
          FinaliseRateLimited(chunk, error, now + retryAfterMs.value);
        } else {
          FinaliseRecoverableFailure(chunk, error);
        }
      case Ok => FinaliseSuccess(chunk, now);
    }

    method SendChunked(n: nat, env: nat -> Env) returns (failed: bool)
      modifies this
      ensures TickEnd(rows, log, failed) == Send(old(rows), old(log), n, 0, env)
    {
      var i := 0;
      while i < n
        invariant i <= n
        invariant Send(old(rows), old(log), n, 0, env) == Send(rows, log, n, i, env)
      {
        var e := env(i);
        ghost var before := rows;
        var claim := ClaimChunk(i, e);
        if claim == AlreadySent {
          i := i + 1;
          continue;
        }
        if claim.Leased? || claim == Contended { return false; }

        var result := PostMessage(i, e);
        FinalisePost(i, result, e.finishedAt);
        assert rows == before[i := rows[i]];
        if !result.Ok? { return true; }
        i := i + 1;
      }
      failed := false;
    }
  }

  // ---------- what a tick does, chunk by chunk ----------

  /** The row lets a sender in: it is not SENT, and no lease on it is running. */
  predicate Open(rows: Rows, i: nat, now: int) {
    i in rows ==>
      && rows[i].status != Sent
      && (rows[i].status == Pending && rows[i].sentAt.Some? ==> rows[i].sentAt.value <= now)
  }

  /** The tick goes on behind the chunk: it was SENT before, or its post is answered Ok. */
  predicate GoesOn(rows: Rows, i: nat, e: Env) {
    e.lockFree && ((i in rows && rows[i].status == Sent) || (Open(rows, i, e.readAt) && e.result.Ok?))
  }

  /** A tick that starts at chunk `from` posts chunk k: it goes on behind all chunks before and claims this one. */
  predicate Posts(rows: Rows, from: nat, k: nat, env: nat -> Env) {
    && from <= k && env(k).lockFree && Open(rows, k, env(k).readAt)
    && forall j: nat :: from <= j < k ==> GoesOn(rows, j, env(j))
  }

  /** The row of a posted chunk: one more attempt, and what the answer says. */
  function PostedRow(before: Option<Row>, e: Env): Row {
    var attempts := if before.Some? then before.value.attempts + 1 else 1;
    match e.result
    case Ok => Row(Sent, attempts, Some(e.finishedAt), None)
    case Thrown(error) => Row(Pending, attempts, Some(e.startedAt + 120000), Some(error))
    case Refused(error, retryAfterMs) =>
      Row(Pending, attempts,
          if retryAfterMs.None? || retryAfterMs.value == 0 then None else Some(e.finishedAt + retryAfterMs.value),
          Some(error))
  }

  ghost predicate RowsPosted(rows: Rows, after: Rows, n: nat, i: nat, env: nat -> Env) {
    && (forall k: nat :: k in after <==> k in rows || (k < n && Posts(rows, i, k, env)))
    && (forall k: nat :: k in after ==>
          after[k] == if k < n && Posts(rows, i, k, env) then PostedRow(Lookup(rows, k), env(k)) else rows[k])
  }

  /** The accepted posts, in the order of the chunks. */
  ghost predicate LogPosted(rows: Rows, added: seq<nat>, n: nat, i: nat, env: nat -> Env) {
    && (forall p, q :: 0 <= p < q < |added| ==> added[p] < added[q])
    && (forall k: nat :: k in added <==> k < n && Posts(rows, i, k, env) && env(k).accepted)
  }

  /** The rows as the tick leaves them behind chunk i. */
  function Behind(rows: Rows, i: nat, e: Env): Rows {
    if Open(rows, i, e.readAt) then rows[i := PostedRow(Lookup(rows, i), e)] else rows
  }

  lemma PostsLater(rows: Rows, i: nat, k: nat, env: nat -> Env)
    requires GoesOn(rows, i, env(i)) && i < k
    ensures Posts(Behind(rows, i, env(i)), i + 1, k, env) <==> Posts(rows, i, k, env)
  {
    var rows' := Behind(rows, i, env(i));
    assert forall j: nat :: i < j ==> (GoesOn(rows', j, env(j)) <==> GoesOn(rows, j, env(j)));
  }

  lemma PostsHere(rows: Rows, i: nat, env: nat -> Env)
    ensures Posts(rows, i, i, env) <==> env(i).lockFree && Open(rows, i, env(i).readAt)
    ensures !GoesOn(rows, i, env(i)) ==> forall k: nat :: i < k ==> !Posts(rows, i, k, env)
  {
  }

  lemma RowsFrom(rows: Rows, after: Rows, n: nat, i: nat, env: nat -> Env)
    requires i < n && GoesOn(rows, i, env(i)) && RowsPosted(Behind(rows, i, env(i)), after, n, i + 1, env)
    ensures RowsPosted(rows, after, n, i, env)
  {
    PostsHere(rows, i, env);
    forall k: nat
      ensures k in after <==> k in rows || (k < n && Posts(rows, i, k, env))
      ensures k in after ==>
                after[k] == if k < n && Posts(rows, i, k, env) then PostedRow(Lookup(rows, k), env(k)) else rows[k]
    {
      if k > i { PostsLater(rows, i, k, env); }
    }
  }

  /** Whether the chunk is posted and accepted. */
  function AcceptedHere(rows: Rows, i: nat, e: Env): seq<nat> {
    if Open(rows, i, e.readAt) && e.accepted then [i] else []
  }

  lemma LogFrom(rows: Rows, added: seq<nat>, n: nat, i: nat, env: nat -> Env)
    requires i < n && GoesOn(rows, i, env(i)) && LogPosted(Behind(rows, i, env(i)), added, n, i + 1, env)
    ensures LogPosted(rows, AcceptedHere(rows, i, env(i)) + added, n, i, env)
  {
    PostsHere(rows, i, env);
    var all := AcceptedHere(rows, i, env(i)) + added;
    forall k: nat ensures k in all <==> k < n && Posts(rows, i, k, env) && env(k).accepted {
      if k > i { PostsLater(rows, i, k, env); }
    }
    assert forall p :: 0 <= p < |added| ==> added[p] in added && added[p] > i;
  }

  lemma FailureFrom(rows: Rows, n: nat, i: nat, env: nat -> Env)
    requires i < n && GoesOn(rows, i, env(i))
    ensures PostFails(rows, n, i, env) <==> PostFails(Behind(rows, i, env(i)), n, i + 1, env)
  {
    PostsHere(rows, i, env);
    forall k: nat | i < k ensures Posts(Behind(rows, i, env(i)), i + 1, k, env) <==> Posts(rows, i, k, env) {
      PostsLater(rows, i, k, env);
    }
  }

  /** Some chunk is posted and answered other than Ok. */
  ghost predicate PostFails(rows: Rows, n: nat, i: nat, env: nat -> Env) {
    exists k: nat :: k < n && Posts(rows, i, k, env) && !env(k).result.Ok?
  }

  lemma SendGoesOn(rows: Rows, log: seq<nat>, n: nat, i: nat, env: nat -> Env)
    requires i < n && GoesOn(rows, i, env(i))
    ensures Send(rows, log, n, i, env)
         == Send(Behind(rows, i, env(i)), log + AcceptedHere(rows, i, env(i)), n, i + 1, env)
  {
    assert log + [] == log;
  }

  lemma SendStops(rows: Rows, log: seq<nat>, n: nat, i: nat, env: nat -> Env)
    requires i == n || (i < n && !GoesOn(rows, i, env(i)))
    ensures var end, posted := Send(rows, log, n, i, env), i < n && Posts(rows, i, i, env);
            && end.rows == (if posted then rows[i := PostedRow(Lookup(rows, i), env(i))] else rows)
            && end.log == (if posted && env(i).accepted then log + [i] else log)
            && end.failed == posted
  {
    PostsHere(rows, i, env);
  }

  /**
   * The tick posts a chunk exactly when it goes on behind every chunk before it and finds this one open. It writes
   * these rows and no other, appends the accepted ones in order, and fails exactly when one is not answered Ok.
   */
  ghost predicate EndsRight(rows: Rows, log: seq<nat>, n: nat, i: nat, env: nat -> Env)
    requires i <= n
  {
    var end := Send(rows, log, n, i, env);
    && RowsPosted(rows, end.rows, n, i, env)
    && log <= end.log && LogPosted(rows, end.log[|log|..], n, i, env)
    && (end.failed <==> PostFails(rows, n, i, env))
  }

  lemma EndsHere(rows: Rows, log: seq<nat>, n: nat, i: nat, env: nat -> Env)
    requires i == n || (i < n && !GoesOn(rows, i, env(i)))
    ensures EndsRight(rows, log, n, i, env)
  {
    PostsHere(rows, i, env);
    SendStops(rows, log, n, i, env);
  }

  lemma EndsLater(rows: Rows, log: seq<nat>, n: nat, i: nat, env: nat -> Env)
    requires i < n && GoesOn(rows, i, env(i))
    requires EndsRight(Behind(rows, i, env(i)), log + AcceptedHere(rows, i, env(i)), n, i + 1, env)
    ensures EndsRight(rows, log, n, i, env)
  {
    var here, end := AcceptedHere(rows, i, env(i)), Send(rows, log, n, i, env);
    SendGoesOn(rows, log, n, i, env);
    assert end.log[|log|..] == here + end.log[|log + here|..];
    RowsFrom(rows, end.rows, n, i, env);
    LogFrom(rows, end.log[|log + here|..], n, i, env);
    FailureFrom(rows, n, i, env);
  }

  lemma {:induction false} TickPostsExactly(rows: Rows, log: seq<nat>, n: nat, i: nat, env: nat -> Env)
    requires i <= n
    ensures EndsRight(rows, log, n, i, env)
    decreases n - i
  {
    if i < n && GoesOn(rows, i, env(i)) {
      TickPostsExactly(Behind(rows, i, env(i)), log + AcceptedHere(rows, i, env(i)), n, i + 1, env);
      EndsLater(rows, log, n, i, env);
    } else {
      EndsHere(rows, log, n, i, env);
    }
  }

  // ---------- progress ----------

  ghost predicate AllSent(rows: Rows, n: nat) {
    forall i: nat :: i < n ==> i in rows && rows[i].status == Sent
  }

  /** The tick finds every lock free and no lease running when it reads a row. */
  ghost predicate Unobstructed(rows: Rows, env: nat -> Env) {
    forall i: nat :: env(i).lockFree && (i in rows ==> !LiveLease(rows[i], env(i).readAt))
  }

  /** A tick never touches a SENT row again, and posts only chunks that were not SENT. */
  lemma {:induction false} SentIsNeverRedone(rows: Rows, log: seq<nat>, n: nat, i: nat, env: nat -> Env)
    requires i <= n
    ensures var end := Send(rows, log, n, i, env);
            && (forall k :: k in rows && rows[k].status == Sent ==> k in end.rows && end.rows[k] == rows[k])
            && log <= end.log
            && (forall p :: |log| <= p < |end.log| ==> !(end.log[p] in rows && rows[end.log[p]].status == Sent))
    decreases n - i
  {
    if i == n || !env(i).lockFree {
    } else {
      match Decide(Lookup(rows, i), env(i).readAt)
      case AlreadySent => SentIsNeverRedone(rows, log, n, i + 1, env);
      case Claimed =>
        var e := env(i);
        var claimed := ClaimedRow(Lookup(rows, i), Lookup(rows, i), e.startedAt + CHUNK_LEASE_TTL_MS);
        var rows' := rows[i := Finalised(claimed, e.result, e.finishedAt)];
        if e.result.Ok? {
          SentIsNeverRedone(rows', if e.accepted then log + [i] else log, n, i + 1, env);
        }
      case _ =>
    }
  }

  /** An unobstructed tick either meets a failing post or finishes the whole digest. */
  lemma {:induction false} TickFinishesOrFails(rows: Rows, log: seq<nat>, n: nat, i: nat, env: nat -> Env)
    requires i <= n && AllSent(rows, i)
    requires forall k: nat :: i <= k ==> env(k).lockFree && (k in rows ==> !LiveLease(rows[k], env(k).readAt))
    ensures Send(rows, log, n, i, env).failed || AllSent(Send(rows, log, n, i, env).rows, n)
    decreases n - i
  {
    if i == n {
    } else {
      if Decide(Lookup(rows, i), env(i).readAt) == AlreadySent {
        TickFinishesOrFails(rows, log, n, i + 1, env);
      } else {
        var e := env(i);
        var claimed := ClaimedRow(Lookup(rows, i), Lookup(rows, i), e.startedAt + CHUNK_LEASE_TTL_MS);
        var rows' := rows[i := Finalised(claimed, e.result, e.finishedAt)];
        if e.result.Ok? {
          TickFinishesOrFails(rows', if e.accepted then log + [i] else log, n, i + 1, env);
        }
      }
    }
  }

  /** The rows after a sequence of ticks, oldest tick last in the recursion. */
  function AfterTicks(rows: Rows, log: seq<nat>, n: nat, envs: seq<nat -> Env>): TickEnd {
    if envs == [] then TickEnd(rows, log, false)
    else
      var before := AfterTicks(rows, log, n, envs[..|envs| - 1]);
      Send(before.rows, before.log, n, 0, envs[|envs| - 1])
  }

  /** The chunks a tick posts and that are answered other than Ok. */
  ghost function FailingPosts(rows: Rows, n: nat, env: nat -> Env): set<nat> {
    set k: nat | k < n && Posts(rows, 0, k, env) && !env(k).result.Ok?
  }

  /** How many posts of all the ticks are answered other than Ok. */
  ghost function FailedPosts(rows: Rows, log: seq<nat>, n: nat, envs: seq<nat -> Env>): nat {
    if envs == [] then 0
    else
      var init := envs[..|envs| - 1];
      FailedPosts(rows, log, n, init) + |FailingPosts(AfterTicks(rows, log, n, init).rows, n, envs[|envs| - 1])|
  }

  /** The flag a tick returns counts its failed posts, of which there is at most one. */
  lemma FlagCountsFailures(rows: Rows, log: seq<nat>, n: nat, env: nat -> Env)
    ensures |FailingPosts(rows, n, env)| == if Send(rows, log, n, 0, env).failed then 1 else 0
  {
    TickPostsExactly(rows, log, n, 0, env);
    var failing := FailingPosts(rows, n, env);
    if k: nat :| k < n && Posts(rows, 0, k, env) && !env(k).result.Ok? {
      assert k in failing;
      forall j | j in failing ensures j == k {
        assert !GoesOn(rows, j, env(j)) && !GoesOn(rows, k, env(k));
      }
      assert failing == {k};
    }
  }

  ghost predicate AllUnobstructed(rows: Rows, log: seq<nat>, n: nat, envs: seq<nat -> Env>) {
    forall t :: 0 <= t < |envs| ==> Unobstructed(AfterTicks(rows, log, n, envs[..t]).rows, envs[t])
  }

  lemma UnobstructedPrefix(rows: Rows, log: seq<nat>, n: nat, envs: seq<nat -> Env>)
    requires AllUnobstructed(rows, log, n, envs) && envs != []
    ensures AllUnobstructed(rows, log, n, envs[..|envs| - 1])
    ensures Unobstructed(AfterTicks(rows, log, n, envs[..|envs| - 1]).rows, envs[|envs| - 1])
  {
    var init := envs[..|envs| - 1];
    forall t | 0 <= t < |init| ensures Unobstructed(AfterTicks(rows, log, n, init[..t]).rows, init[t]) {
      assert init[..t] == envs[..t];
    }
  }

  /** One more unobstructed tick fails, or finishes the digest; a finished digest stays finished. */
  lemma LastTick(rows: Rows, log: seq<nat>, n: nat, env: nat -> Env)
    requires Unobstructed(rows, env)
    ensures var end := Send(rows, log, n, 0, env);
            && (end.failed || AllSent(end.rows, n))
            && (AllSent(rows, n) ==> AllSent(end.rows, n))
  {
    TickFinishesOrFails(rows, log, n, 0, env);
    SentIsNeverRedone(rows, log, n, 0, env);
  }

  /** Over any number of unobstructed ticks the digest is finished, or each of them met one failing post. */
  lemma {:induction false} TicksFinishOrFail(rows: Rows, log: seq<nat>, n: nat, envs: seq<nat -> Env>)
    requires AllUnobstructed(rows, log, n, envs)
    ensures (envs != [] && AllSent(AfterTicks(rows, log, n, envs).rows, n)) || FailedPosts(rows, log, n, envs) == |envs|
  {
    if envs == [] {
    } else {
      var init, env := envs[..|envs| - 1], envs[|envs| - 1];
      UnobstructedPrefix(rows, log, n, envs);
      TicksFinishOrFail(rows, log, n, init);
      var before := AfterTicks(rows, log, n, init);
      LastTick(before.rows, before.log, n, env);
      FlagCountsFailures(before.rows, before.log, n, env);
    }
  }

  /** When at most `f` posts are answered other than Ok, f + 1 unobstructed ticks leave every chunk SENT. */
  lemma DigestCompletes(rows: Rows, log: seq<nat>, n: nat, envs: seq<nat -> Env>, f: nat)
    requires AllUnobstructed(rows, log, n, envs)
    requires FailedPosts(rows, log, n, envs) <= f < |envs|
    ensures AllSent(AfterTicks(rows, log, n, envs).rows, n)
  {
    TicksFinishOrFail(rows, log, n, envs);
  }
}
