/** What the lease and the SENT status give in every run, timely or not: when a chunk can be claimed again. */
module DeliveryLeases {
  import opened DeliveryProtocol
  import opened DeliverySafety
  import opened DiscordDelivery
  import opened JsStrings

  // ---------- the transaction lock ----------

  ghost predicate LocksDiffer(s: State) {
    forall w, v :: 0 <= w < v < |s.pcs| && s.pcs[w].Locked? && s.pcs[v].Locked? ==> s.pcs[w].chunk != s.pcs[v].chunk
  }

  lemma LocksStep(n: nat, s: State, step: Step)
    requires LocksDiffer(s) && Enabled(n, s, step)
    ensures LocksDiffer(Apply(n, s, step))
  {
    if step.Read? {
      var i := s.pcs[step.w].chunk;
      assert forall v :: 0 <= v < |s.pcs| && s.pcs[v].Locked? ==> s.pcs[v].chunk != i;
    }
  }

  lemma StepOf(n: nat, trace: seq<State>, j: nat) returns (step: Step)
    requires Run(n, trace) && j + 1 < |trace|
    ensures Enabled(n, trace[j], step) && trace[j + 1] == Apply(n, trace[j], step)
  {
    assert Next(n, trace[j], trace[j + 1]);
    step :| Enabled(n, trace[j], step) && trace[j + 1] == Apply(n, trace[j], step);
  }

  lemma {:induction false} LocksAlwaysDiffer(n: nat, trace: seq<State>, k: nat)
    requires Run(n, trace) && k < |trace|
    ensures LocksDiffer(trace[k])
  {
    if k == 0 {
    } else {
      LocksAlwaysDiffer(n, trace, k - 1);
      var step := StepOf(n, trace, k - 1);
      LocksStep(n, trace[k - 1], step);
    }
  }

  lemma EarlierIsEarlier(n: nat, trace: seq<State>, j: nat)
    requires Run(n, trace) && j + 1 < |trace|
    ensures trace[j].now <= trace[j + 1].now
  {
    var step := StepOf(n, trace, j);
  }

  lemma {:induction false} ClockRunsForward(n: nat, trace: seq<State>, j: nat, k: nat)
    requires Run(n, trace) && j <= k < |trace|
    ensures trace[j].now <= trace[k].now
    decreases k
  {
    if j == k {
    } else {
      ClockRunsForward(n, trace, j, k - 1);
      EarlierIsEarlier(n, trace, k - 1);
    }
  }

  // ---------- a second claim inside the lease ----------

  ghost predicate CommitsClaim(n: nat, s: State, w: nat, i: nat, until: int) {
    Enabled(n, s, Commit(w)) && s.pcs[w].chunk == i && s.pcs[w].leaseUntil == until
  }

  /** The step commits a claim of the chunk whose lease ends at `until`. */
  ghost predicate ClaimStep(n: nat, s: State, s': State, i: nat, until: int) {
    exists w: nat :: CommitsClaim(n, s, w, i, until) && s' == Apply(n, s, Commit(w))
  }

  /** Some sender writes down that Discord refused its post of the chunk. */
  predicate FinalisesRefusal(s: State, step: Step, i: nat) {
    && step.Finalise? && step.w < |s.pcs| && s.pcs[step.w].Finalising?
    && s.pcs[step.w].chunk == i && s.pcs[step.w].result.Refused?
  }

  ghost predicate RefusalStep(n: nat, s: State, s': State, i: nat) {
    exists step :: Enabled(n, s, step) && FinalisesRefusal(s, step, i) && s' == Apply(n, s, step)
  }

  /** The chunk is SENT or leased until `until`, and no claim of it is under way. */
  ghost predicate Guarded(s: State, i: nat, until: int) {
    && i in s.rows
    && (s.rows[i].status == Sent || (s.rows[i].status == Pending && s.rows[i].sentAt == Some(until)))
    && forall w :: 0 <= w < |s.pcs| && s.pcs[w].Locked? ==> s.pcs[w].chunk != i
  }

  lemma ClaimGuards(n: nat, s: State, s': State, i: nat, until: int)
    requires LocksDiffer(s) && ClaimStep(n, s, s', i, until)
    ensures Guarded(s', i, until)
  {
  }

  lemma GuardStep(n: nat, s: State, s': State, i: nat, until: int)
    requires Guarded(s, i, until) && s.now < until && Next(n, s, s') && !RefusalStep(n, s, s', i)
    ensures Guarded(s', i, until)
  {
    var step :| Enabled(n, s, step) && s' == Apply(n, s, step);
    assert !FinalisesRefusal(s, step, i);
    if step.Read? && s.pcs[step.w].chunk == i {
      assert Decide(Lookup(s.rows, i), s.now) != Claimed;
    }
  }

  lemma GuardedIsNotClaimed(n: nat, s: State, s': State, i: nat, until: int, other: int)
    requires Guarded(s, i, until)
    ensures !ClaimStep(n, s, s', i, other)
  {
  }

  /** No refused post of the chunk is written down in the steps from `a` to before `b`. */
  ghost predicate NoRefusal(n: nat, trace: seq<State>, a: nat, b: nat, i: nat)
    requires a <= b < |trace|
    decreases b
  {
    a == b || (NoRefusal(n, trace, a, b - 1, i) && !RefusalStep(n, trace[b - 1], trace[b], i))
  }

  lemma {:induction false} SomeRefusal(n: nat, trace: seq<State>, a: nat, b: nat, i: nat) returns (m: nat)
    requires a <= b < |trace| && !NoRefusal(n, trace, a, b, i)
    ensures a <= m < b && RefusalStep(n, trace[m], trace[m + 1], i)
    decreases b
  {
    if RefusalStep(n, trace[b - 1], trace[b], i) {
      m := b - 1;
    } else {
      m := SomeRefusal(n, trace, a, b - 1, i);
    }
  }

  lemma NextInRun(n: nat, trace: seq<State>, k: nat)
    requires Run(n, trace) && 0 < k < |trace|
    ensures Next(n, trace[k - 1], trace[k]) && trace[k - 1].now <= trace[k].now
  {
    EarlierIsEarlier(n, trace, k - 1);
    assert Next(n, trace[k - 1], trace[k - 1 + 1]);
  }

  lemma {:induction false} GuardStays(n: nat, trace: seq<State>, j: nat, k: nat, i: nat, until: int)
    requires Run(n, trace) && j <= k < |trace| && Guarded(trace[j], i, until)
    requires trace[k].now < until && NoRefusal(n, trace, j, k, i)
    ensures Guarded(trace[k], i, until)
    decreases k
  {
    if k == j {
    } else {
      NextInRun(n, trace, k);
      GuardStays(n, trace, j, k - 1, i, until);
      GuardStep(n, trace[k - 1], trace[k], i, until);
    }
  }

  /**
   * In every run: if a claim of a chunk commits while the lease of an earlier one is still running, a refused post
   * of that chunk was written down in between. Nothing else lets a second sender in.
   */
  lemma SecondClaimNeedsARefusal(n: nat, trace: seq<State>, j: nat, k: nat, i: nat, until: int, other: int)
    returns (m: nat)
    requires Run(n, trace) && j < k && k + 1 < |trace| && trace[k].now < until
    requires ClaimStep(n, trace[j], trace[j + 1], i, until) && ClaimStep(n, trace[k], trace[k + 1], i, other)
    ensures j < m < k && RefusalStep(n, trace[m], trace[m + 1], i)
  {
    LocksAlwaysDiffer(n, trace, j);
    ClaimGuards(n, trace[j], trace[j + 1], i, until);
    if NoRefusal(n, trace, j + 1, k, i) {
      GuardStays(n, trace, j + 1, k, i, until);
      GuardedIsNotClaimed(n, trace[k], trace[k + 1], i, until, other);
    }
    m := SomeRefusal(n, trace, j + 1, k, i);
  }

  /** And it does: after the refusal the chunk can be claimed exactly from the end of its retry delay on. */
  lemma RefusalReopensExactlyAfterItsDelay(n: nat, s: State, w: nat, i: nat, later: int)
    requires Enabled(n, s, Finalise(w)) && FinalisesRefusal(s, Finalise(w), i)
    ensures var delay := s.pcs[w].result.retryAfterMs;
            Decide(Lookup(Apply(n, s, Finalise(w)).rows, i), later) == Claimed
            <==> !(delay.Some? && delay.value != 0 && s.now + delay.value > later)
  {
  }

  // ---------- the promise does not hold for a refusal that was none ----------

  /** While the clock stands still every lease ends later, so such a run is timely. */
  ghost predicate LeasesFrom(s: State, start: int) {
    && s.now == start
    && forall w :: 0 <= w < |s.pcs| && (s.pcs[w].Claiming? || Holds(s.pcs[w])) ==>
         s.pcs[w].leaseUntil == start + CHUNK_LEASE_TTL_MS
  }

  lemma StandingStep(n: nat, s: State, step: Step, start: int)
    requires LeasesFrom(s, start) && Enabled(n, s, step) && Apply(n, s, step).now == start
    ensures LeasesFrom(Apply(n, s, step), start)
  {
  }

  lemma {:induction false} StandingClockIsTimely(n: nat, trace: seq<State>, k: nat)
    requires Run(n, trace) && k < |trace| && trace[0].now == trace[k].now
    ensures LeasesFrom(trace[k], trace[0].now)
  {
    if k == 0 {
    } else {
      ClockRunsForward(n, trace, 0, k - 1);
      ClockRunsForward(n, trace, k - 1, k);
      StandingClockIsTimely(n, trace, k - 1);
      var step := StepOf(n, trace, k - 1);
      StandingStep(n, trace[k - 1], step, trace[0].now);
    }
  }

  /** One sender's post is accepted, yet the answer is a refusal, as a timeout is; its lease is released. */
  lemma AcceptedYetRefused(row: Row) returns (steps: seq<Step>, row': Row)
    requires row == Row(Pending, 1, Some(CHUNK_LEASE_TTL_MS), None)
    ensures RunsTo(1, State(0, map[0 := row], [Posting(0, CHUNK_LEASE_TTL_MS, 0), Idle], [Post(0, false, false)], []),
                   steps,
                   State(0, map[0 := row'], [Idle, Idle], [Post(0, true, false)], [0]))
    ensures row' == Row(Pending, 1, None, Some([]))
  {
    var t, refused := CHUNK_LEASE_TTL_MS, Refused([], None);
    var s0 := State(0, map[0 := row], [Posting(0, t, 0), Idle], [Post(0, false, false)], []);
    var s1 := State(0, map[0 := row], [Posting(0, t, 0), Idle], [Post(0, true, false)], [0]);
    var s2 := State(0, map[0 := row], [Finalising(0, t, 0, refused), Idle], [Post(0, true, false)], [0]);
    row' := Finalised(row, refused, 0);
    var s3 := OneStep(1, s2, Finalise(0));
    assert s3 == State(0, map[0 := row'], [Idle, Idle], [Post(0, true, false)], [0]);
    steps := [Finalise(0)];
    steps := Prepend(1, s1, Respond(0, refused), s2, steps, s3);
    steps := Prepend(1, s0, Accept(0), s1, steps, s3);
  }

  /** Another sender finds no lease, claims at once, and its post is accepted too. */
  lemma ClaimedAtOnce(row: Row) returns (steps: seq<Step>, s: State)
    requires row == Row(Pending, 1, None, Some([]))
    ensures RunsTo(1, State(0, map[0 := row], [Idle, Idle], [Post(0, true, false)], [0]), steps, s)
    ensures s.now == 0 && s.log == [0, 0] && s.posts == [Post(0, true, false), Post(0, true, false)]
  {
    var t, posts := CHUNK_LEASE_TTL_MS, [Post(0, true, false)];
    var s0 := State(0, map[0 := row], [Idle, Idle], posts, [0]);
    var s1 := State(0, map[0 := row], [Idle, AtChunk(0)], posts, [0]);
    var s2 := State(0, map[0 := row], [Idle, Claiming(0, t)], posts, [0]);
    var s3 := State(0, map[0 := row], [Idle, Locked(0, t, Some(row))], posts, [0]);
    var s4 := Apply(1, s3, Commit(1));
    s := OneStep(1, s4, Accept(1));
    steps := [Accept(1)];
    steps := Prepend(1, s3, Commit(1), s4, steps, s);
    steps := Prepend(1, s2, Read(1), s3, steps, s);
    steps := Prepend(1, s1, Begin(1), s2, steps, s);
    steps := Prepend(1, s0, Start(1), s1, steps, s);
  }

  /** A chunk is accepted twice in a timely run, before its first lease has run out and without any success recorded. */
  lemma RefusedPostIsSentAgain() returns (trace: seq<State>)
    ensures TimelyRun(1, trace)
    ensures var last := trace[|trace| - 1];
            && last.log == [0, 0] && last.now == 0 < CHUNK_LEASE_TTL_MS
            && last.posts == [Post(0, true, false), Post(0, true, false)]
  {
    var claimed := Row(Pending, 1, Some(CHUNK_LEASE_TTL_MS), None);
    var s0 := State(0, map[], [Idle, Idle], [], []);
    var steps := FirstSenderPosts();
    var posting := State(0, map[0 := claimed], [Posting(0, CHUNK_LEASE_TTL_MS, 0), Idle], [Post(0, false, false)], []);
    trace := RunsToExtends(1, [s0], steps, posting);
    var released, s;
    steps, released := AcceptedYetRefused(claimed);
    trace := RunsToExtends(1, trace, steps, State(0, map[0 := released], [Idle, Idle], [Post(0, true, false)], [0]));
    steps, s := ClaimedAtOnce(released);
    trace := RunsToExtends(1, trace, steps, s);
    assert trace[0] == s0;
    forall k | 0 <= k < |trace| ensures Timely(trace[k]) {
      ClockRunsForward(1, trace, 0, k);
      ClockRunsForward(1, trace, k, |trace| - 1);
      StandingClockIsTimely(1, trace, k);
    }
  }

  // ---------- recorded successes ----------

  /** The duplicate bound holds exactly while at most one success of the chunk is recorded. */
  lemma BoundHoldsExactlyWhile(n: nat, trace: seq<State>, k: nat, i: nat)
    requires Run(n, trace) && k < |trace|
    ensures Occurrences(trace[k].log, i) <= 1 + AcceptedPosts(trace[k].posts, i, false)
       <==> AcceptedPosts(trace[k].posts, i, true) <= 1
  {
    CountAlways(n, trace, k);
  }

  /** A sender in flight owns its post: nobody else has it, and its success is not recorded yet. */
  ghost predicate PostsOwned(s: State) {
    && (forall w :: 0 <= w < |s.pcs| && InFlight(s.pcs[w]) ==> PostOpen(s, s.pcs[w]))
    && (forall w, v :: 0 <= w < v < |s.pcs| && InFlight(s.pcs[w]) && InFlight(s.pcs[v]) ==>
        s.pcs[w].post != s.pcs[v].post)
    && (forall p :: 0 <= p < |s.posts| && s.posts[p].recorded ==> s.posts[p].accepted)
  }

  ghost predicate PostOpen(s: State, pc: Pc)
    requires InFlight(pc)
  {
    && pc.post < |s.posts| && s.posts[pc.post].chunk == pc.chunk && !s.posts[pc.post].recorded
    && (pc.Finalising? && pc.result.Ok? ==> s.posts[pc.post].accepted)
  }

  lemma PostStaysOpen(n: nat, s: State, step: Step, w: nat)
    requires PostsOwned(s) && Enabled(n, s, step) && w < |s.pcs| && InFlight(Apply(n, s, step).pcs[w])
    ensures PostOpen(Apply(n, s, step), Apply(n, s, step).pcs[w])
  {
    if InFlight(s.pcs[w]) { assert PostOpen(s, s.pcs[w]); }
  }

  lemma PostsStayDistinct(n: nat, s: State, step: Step, w: nat, v: nat)
    requires PostsOwned(s) && Enabled(n, s, step) && w < v < |s.pcs|
    requires InFlight(Apply(n, s, step).pcs[w]) && InFlight(Apply(n, s, step).pcs[v])
    ensures Apply(n, s, step).pcs[w].post != Apply(n, s, step).pcs[v].post
  {
    if InFlight(s.pcs[w]) { assert PostOpen(s, s.pcs[w]); }
    if InFlight(s.pcs[v]) { assert PostOpen(s, s.pcs[v]); }
  }

  lemma PostsStep(n: nat, s: State, step: Step)
    requires PostsOwned(s) && Enabled(n, s, step)
    ensures PostsOwned(Apply(n, s, step))
  {
    var s' := Apply(n, s, step);
    forall w | 0 <= w < |s'.pcs| && InFlight(s'.pcs[w]) ensures PostOpen(s', s'.pcs[w]) {
      PostStaysOpen(n, s, step, w);
    }
    forall w, v | 0 <= w < v < |s'.pcs| && InFlight(s'.pcs[w]) && InFlight(s'.pcs[v])
      ensures s'.pcs[w].post != s'.pcs[v].post
    {
      PostsStayDistinct(n, s, step, w, v);
    }
    if step.Finalise? { assert PostOpen(s, s.pcs[step.w]); }
  }

  lemma {:induction false} PostsAlwaysOwned(n: nat, trace: seq<State>, k: nat)
    requires Run(n, trace) && k < |trace|
    ensures PostsOwned(trace[k])
  {
    if k == 0 {
    } else {
      PostsAlwaysOwned(n, trace, k - 1);
      var step := StepOf(n, trace, k - 1);
      PostsStep(n, trace[k - 1], step);
    }
  }

  function Recorded(post: Post, i: nat): nat {
    if post.chunk == i && post.accepted && post.recorded then 1 else 0
  }

  lemma {:induction false} UpdateRecorded(posts: seq<Post>, p: nat, post: Post, i: nat)
    requires p < |posts|
    ensures AcceptedPosts(posts[p := post], i, true)
              == AcceptedPosts(posts, i, true) - Recorded(posts[p], i) + Recorded(post, i)
  {
    var init := posts[..|posts| - 1];
    if p == |posts| - 1 {
      assert posts[p := post][..p] == init;
    } else {
      assert posts[p := post][..|posts| - 1] == init[p := post];
      UpdateRecorded(init, p, post, i);
    }
  }

  /** A sender writes down the success of its post of the chunk. */
  predicate RecordsSuccess(s: State, step: Step, i: nat) {
    && step.Finalise? && step.w < |s.pcs| && s.pcs[step.w].Finalising?
    && s.pcs[step.w].chunk == i && s.pcs[step.w].result.Ok?
  }

  lemma RecordsOne(n: nat, s: State, step: Step, i: nat)
    requires PostsOwned(s) && Enabled(n, s, step)
    ensures AcceptedPosts(Apply(n, s, step).posts, i, true)
         == AcceptedPosts(s.posts, i, true) + if RecordsSuccess(s, step, i) then 1 else 0
  {
    var s' := Apply(n, s, step);
    match step
    case Accept(p) => UpdateRecorded(s.posts, p, s.posts[p].(accepted := true), i);
    case Commit(_) => assert s'.posts[..|s.posts|] == s.posts;
    case Finalise(w) =>
      assert PostOpen(s, s.pcs[w]);
      UpdateRecorded(s.posts, s.pcs[w].post, s.posts[s.pcs[w].post].(recorded := true), i);
    case _ =>
  }

  ghost predicate RecordedAt(n: nat, trace: seq<State>, j: nat, i: nat)
    requires j + 1 < |trace|
  {
    exists w :: Enabled(n, trace[j], Finalise(w)) && RecordsSuccess(trace[j], Finalise(w), i)
                && trace[j + 1] == Apply(n, trace[j], Finalise(w))
  }

  lemma RecordedInStep(n: nat, trace: seq<State>, j: nat, i: nat)
    requires Run(n, trace) && j + 1 < |trace|
    ensures AcceptedPosts(trace[j + 1].posts, i, true)
         == AcceptedPosts(trace[j].posts, i, true) + if RecordedAt(n, trace, j, i) then 1 else 0
  {
    PostsAlwaysOwned(n, trace, j);
    var step := StepOf(n, trace, j);
    RecordsOne(n, trace[j], step, i);
    if RecordedAt(n, trace, j, i) {
      var w :| Enabled(n, trace[j], Finalise(w)) && RecordsSuccess(trace[j], Finalise(w), i)
               && trace[j + 1] == Apply(n, trace[j], Finalise(w));
      RecordsOne(n, trace[j], Finalise(w), i);
    }
  }

  /** How many of the first k steps record a success of the chunk. */
  ghost function Recordings(n: nat, trace: seq<State>, k: nat, i: nat): nat
    requires k < |trace|
  {
    if k == 0 then 0 else Recordings(n, trace, k - 1, i) + if RecordedAt(n, trace, k - 1, i) then 1 else 0
  }

  lemma {:induction false} RecordedAreRecordings(n: nat, trace: seq<State>, k: nat, i: nat)
    requires Run(n, trace) && k < |trace|
    ensures AcceptedPosts(trace[k].posts, i, true) == Recordings(n, trace, k, i)
  {
    if k == 0 {
    } else {
      RecordedAreRecordings(n, trace, k - 1, i);
      RecordedInStep(n, trace, k - 1, i);
    }
  }

  lemma {:induction false} FirstRecording(n: nat, trace: seq<State>, k: nat, i: nat) returns (a: nat)
    requires k < |trace| && Recordings(n, trace, k, i) >= 1
    ensures a < k && RecordedAt(n, trace, a, i)
  {
    if RecordedAt(n, trace, k - 1, i) {
      a := k - 1;
    } else {
      a := FirstRecording(n, trace, k - 1, i);
    }
  }

  lemma {:induction false} TwoRecordings(n: nat, trace: seq<State>, k: nat, i: nat) returns (a: nat, b: nat)
    requires k < |trace| && Recordings(n, trace, k, i) >= 2
    ensures a < b < k && RecordedAt(n, trace, a, i) && RecordedAt(n, trace, b, i)
  {
    if RecordedAt(n, trace, k - 1, i) {
      a := FirstRecording(n, trace, k - 1, i);
      b := k - 1;
    } else {
      a, b := TwoRecordings(n, trace, k - 1, i);
    }
  }

  lemma {:induction false} RecordingsCount(n: nat, trace: seq<State>, a: nat, k: nat, i: nat)
    requires a < k < |trace| && RecordedAt(n, trace, a, i)
    ensures Recordings(n, trace, k, i) >= Recordings(n, trace, a, i) + 1
    decreases k
  {
    if a == k - 1 {
    } else {
      RecordingsCount(n, trace, a, k - 1, i);
    }
  }

  ghost predicate TwiceRecordedBefore(n: nat, trace: seq<State>, k: nat, i: nat)
    requires k < |trace|
  {
    exists a: nat, b: nat :: a < b < k && RecordedAt(n, trace, a, i) && RecordedAt(n, trace, b, i)
  }

  /** A second success is recorded, and the bound lost, exactly when two senders finalise their own accepted posts. */
  lemma SecondSuccessExactlyWhen(n: nat, trace: seq<State>, k: nat, i: nat)
    requires Run(n, trace) && k < |trace|
    ensures Occurrences(trace[k].log, i) > 1 + AcceptedPosts(trace[k].posts, i, false)
       <==> TwiceRecordedBefore(n, trace, k, i)
  {
    BoundHoldsExactlyWhile(n, trace, k, i);
    RecordedAreRecordings(n, trace, k, i);
    if Recordings(n, trace, k, i) >= 2 { var a, b := TwoRecordings(n, trace, k, i); }
    if a: nat, b: nat :| a < b < k && RecordedAt(n, trace, a, i) && RecordedAt(n, trace, b, i) {
      RecordingsCount(n, trace, a, b, i);
      RecordingsCount(n, trace, b, k, i);
    }
  }

  ghost predicate Unheld(s: State, i: nat) {
    forall w :: 0 <= w < |s.pcs| && Holds(s.pcs[w]) ==> s.pcs[w].chunk != i
  }

  lemma SettledStep(n: nat, s: State, step: Step, i: nat)
    requires Enabled(n, s, step) && SentAt(s, i) && Unheld(s, i)
    ensures Unheld(Apply(n, s, step), i) && i in Apply(n, s, step).rows && Apply(n, s, step).rows[i] == s.rows[i]
    ensures !RecordsSuccess(s, step, i)
  {
  }

  lemma SettledInStep(n: nat, trace: seq<State>, j: nat, i: nat)
    requires Run(n, trace) && j + 1 < |trace| && SentAt(trace[j], i) && Unheld(trace[j], i)
    ensures Unheld(trace[j + 1], i) && i in trace[j + 1].rows && trace[j + 1].rows[i] == trace[j].rows[i]
    ensures AcceptedPosts(trace[j + 1].posts, i, true) == AcceptedPosts(trace[j].posts, i, true)
  {
    var step := StepOf(n, trace, j);
    SettledStep(n, trace[j], step, i);
    PostsAlwaysOwned(n, trace, j);
    RecordsOne(n, trace[j], step, i);
  }

  /** In every run: once a chunk is SENT and nobody holds it, it is settled for good. */
  lemma {:induction false} SentAndUnheldIsFinal(n: nat, trace: seq<State>, j: nat, k: nat, i: nat)
    requires Run(n, trace) && j <= k < |trace| && SentAt(trace[j], i) && Unheld(trace[j], i)
    ensures Unheld(trace[k], i) && i in trace[k].rows && trace[k].rows[i] == trace[j].rows[i]
    ensures AcceptedPosts(trace[k].posts, i, true) == AcceptedPosts(trace[j].posts, i, true)
    decreases k
  {
    if j == k {
    } else {
      SentAndUnheldIsFinal(n, trace, j, k - 1, i);
      SettledInStep(n, trace, k - 1, i);
    }
  }

  lemma SettledNeverRecords(n: nat, trace: seq<State>, j: nat, k: nat, i: nat)
    requires Run(n, trace) && j <= k && k + 1 < |trace| && SentAt(trace[j], i) && Unheld(trace[j], i)
    ensures !RecordedAt(n, trace, k, i)
  {
    SentAndUnheldIsFinal(n, trace, j, k, i);
  }

  /** So a second success needs another sender that already held the chunk when the first was recorded. */
  lemma SecondSuccessWasHeld(n: nat, trace: seq<State>, a: nat, b: nat, i: nat)
    requires Run(n, trace) && a < b && b + 1 < |trace| && RecordedAt(n, trace, a, i) && RecordedAt(n, trace, b, i)
    ensures SentAt(trace[a + 1], i) && !Unheld(trace[a + 1], i)
  {
    if Unheld(trace[a + 1], i) {
      SettledNeverRecords(n, trace, a + 1, b, i);
    }
  }

  // ---------- attempts ----------

  function PostsOf(posts: seq<Post>, i: nat): nat {
    if posts == [] then 0 else PostsOf(posts[..|posts| - 1], i) + if posts[|posts| - 1].chunk == i then 1 else 0
  }

  function AttemptsOf(row: Option<Row>): nat { if row.Some? then row.value.attempts else 0 }

  /** What a sender read under the lock still says how often the chunk was tried. */
  ghost predicate SeenCounts(s: State, pc: Pc) {
    pc.Locked? ==> AttemptsOf(pc.seen) == AttemptsOf(Lookup(s.rows, pc.chunk))
  }

  ghost predicate AttemptsInv(s: State) {
    && LocksDiffer(s)
    && (forall i: nat :: AttemptsOf(Lookup(s.rows, i)) == PostsOf(s.posts, i))
    && (forall w :: 0 <= w < |s.pcs| ==> SeenCounts(s, s.pcs[w]))
  }

  lemma {:induction false} UpdatePostsOf(posts: seq<Post>, p: nat, post: Post, i: nat)
    requires p < |posts| && post.chunk == posts[p].chunk
    ensures PostsOf(posts[p := post], i) == PostsOf(posts, i)
  {
    var init := posts[..|posts| - 1];
    if p == |posts| - 1 {
      assert posts[p := post][..p] == init;
    } else {
      assert posts[p := post][..|posts| - 1] == init[p := post];
      UpdatePostsOf(init, p, post, i);
    }
  }

  lemma AttemptsOfChunk(n: nat, s: State, step: Step, i: nat)
    requires AttemptsInv(s) && Enabled(n, s, step)
    ensures AttemptsOf(Lookup(Apply(n, s, step).rows, i)) == PostsOf(Apply(n, s, step).posts, i)
  {
    var s' := Apply(n, s, step);
    assert AttemptsOf(Lookup(s.rows, i)) == PostsOf(s.posts, i);
    match step
    case Accept(p) => UpdatePostsOf(s.posts, p, s.posts[p].(accepted := true), i);
    case Commit(w) =>
      assert s'.posts[..|s'.posts| - 1] == s.posts;
      assert SeenCounts(s, s.pcs[w]);
    case Finalise(w) =>
      var p := s.pcs[w].post;
      UpdatePostsOf(s.posts, p, s.posts[p].(recorded := true), i);
    case _ =>
  }

  lemma SeenStillCounts(n: nat, s: State, step: Step, v: nat)
    requires AttemptsInv(s) && Enabled(n, s, step) && v < |s.pcs|
    ensures SeenCounts(Apply(n, s, step), Apply(n, s, step).pcs[v])
  {
    assert SeenCounts(s, s.pcs[v]);
    if step.Commit? && step.w != v && s.pcs[v].Locked? {
      assert s.pcs[step.w].chunk != s.pcs[v].chunk;
    }
  }

  lemma {:induction false} AttemptsAlways(n: nat, trace: seq<State>, k: nat)
    requires Run(n, trace) && k < |trace|
    ensures AttemptsInv(trace[k])
  {
    LocksAlwaysDiffer(n, trace, k);
    if k == 0 {
    } else {
      AttemptsAlways(n, trace, k - 1);
      var step := StepOf(n, trace, k - 1);
      forall i: nat ensures AttemptsOf(Lookup(trace[k].rows, i)) == PostsOf(trace[k].posts, i) {
        AttemptsOfChunk(n, trace[k - 1], step, i);
      }
      forall v | 0 <= v < |trace[k].pcs| ensures SeenCounts(trace[k], trace[k].pcs[v]) {
        SeenStillCounts(n, trace[k - 1], step, v);
      }
    }
  }

  /** In every run the attempts of a row are the posts that were issued for its chunk, whatever became of them. */
  lemma AttemptsCountPosts(n: nat, trace: seq<State>, k: nat, i: nat)
    requires Run(n, trace) && k < |trace|
    ensures PostsOf(trace[k].posts, i) == if i in trace[k].rows then trace[k].rows[i].attempts else 0
  {
    AttemptsAlways(n, trace, k);
    assert AttemptsOf(Lookup(trace[k].rows, i)) == PostsOf(trace[k].posts, i);
  }
}
