/** What the lease buys when every live sender finalises in time, and what goes wrong when one does not. */
module DeliverySafety {
  import opened JsStrings
  import opened DiscordDelivery
  import opened DeliveryProtocol

  /** The sender is between its claim and its finalise. */
  predicate InFlight(pc: Pc) {
    pc.Posting? || pc.Finalising?
  }

  predicate Holds(pc: Pc) {
    pc.Locked? || InFlight(pc)
  }

  /** The promise of the lease length: nobody is still in flight when its lease ends. */
  ghost predicate Timely(s: State) {
    forall w :: 0 <= w < |s.pcs| && InFlight(s.pcs[w]) ==> s.now < s.pcs[w].leaseUntil
  }

  ghost predicate TimelyRun(n: nat, trace: seq<State>) {
    Run(n, trace) && forall k :: 0 <= k < |trace| ==> Timely(trace[k])
  }

  ghost predicate Exclusive(s: State) {
    forall w, v :: 0 <= w < v < |s.pcs| && Holds(s.pcs[w]) && Holds(s.pcs[v]) ==> s.pcs[w].chunk != s.pcs[v].chunk
  }

  /** An in-flight sender's row carries its own lease; a locked one still sees the row it read. */
  ghost predicate PcOwnsRow(s: State, pc: Pc) {
    && (InFlight(pc) ==>
          && pc.chunk in s.rows && s.rows[pc.chunk].status == Pending && s.rows[pc.chunk].sentAt == Some(pc.leaseUntil)
          && pc.post < |s.posts| && s.posts[pc.post].chunk == pc.chunk
          && (pc.Finalising? && pc.result.Ok? ==> s.posts[pc.post].accepted))
    && (pc.Locked? ==>
          pc.seen == Lookup(s.rows, pc.chunk) && Decide(pc.seen, s.now) == Claimed)
  }

  ghost predicate RecordedOnce(s: State) {
    && (forall p :: 0 <= p < |s.posts| && s.posts[p].recorded ==>
          s.posts[p].accepted && s.posts[p].chunk in s.rows && s.rows[s.posts[p].chunk].status == Sent)
    && (forall p, q :: 0 <= p < q < |s.posts| && s.posts[p].recorded && s.posts[q].recorded ==>
          s.posts[p].chunk != s.posts[q].chunk)
  }

  ghost predicate LeaseInv(s: State) {
    && Exclusive(s)
    && (forall w :: 0 <= w < |s.pcs| ==> PcOwnsRow(s, s.pcs[w]))
    && RecordedOnce(s)
    && (forall i :: i in s.rows ==> s.rows[i].status != Failed)
  }

  lemma ReadFindsNobody(n: nat, s: State, w: nat, v: nat)
    requires LeaseInv(s) && Timely(s) && Enabled(n, s, Read(w))
    requires v < |s.pcs| && v != w && Holds(s.pcs[v]) && s.pcs[v].chunk == s.pcs[w].chunk
    ensures Decide(Lookup(s.rows, s.pcs[w].chunk), s.now) != Claimed
  {
    var i := s.pcs[w].chunk;
    assert PcOwnsRow(s, s.pcs[v]);
    assert s.pcs[v].Locked? ==> LockHeld(s, i);
  }

  lemma StaysExclusive(n: nat, s: State, step: Step)
    requires LeaseInv(s) && Timely(s) && Enabled(n, s, step)
    ensures Exclusive(Apply(n, s, step))
  {
    var s' := Apply(n, s, step);
    forall w, v | 0 <= w < v < |s'.pcs| && Holds(s'.pcs[w]) && Holds(s'.pcs[v])
      ensures s'.pcs[w].chunk != s'.pcs[v].chunk
    {
      if step.Read? && step.w == w && s.pcs[v].chunk == s.pcs[w].chunk {
        ReadFindsNobody(n, s, w, v);
      } else if step.Read? && step.w == v && s.pcs[v].chunk == s.pcs[w].chunk {
        ReadFindsNobody(n, s, v, w);
      }
    }
  }

  lemma OwnershipKept(n: nat, s: State, step: Step, v: nat)
    requires LeaseInv(s) && Timely(s) && Enabled(n, s, step) && v < |s.pcs|
    ensures PcOwnsRow(Apply(n, s, step), Apply(n, s, step).pcs[v])
  {
    var s' := Apply(n, s, step);
    assert PcOwnsRow(s, s.pcs[v]);
    if (step.Commit? || step.Finalise?) && step.w != v && Holds(s.pcs[v]) {
      assert Holds(s.pcs[step.w]);
      assert s.pcs[step.w].chunk != s.pcs[v].chunk;
      assert s'.pcs[v] == s.pcs[v];
    }
  }

  lemma RecordsKept(n: nat, s: State, step: Step)
    requires LeaseInv(s) && Timely(s) && Enabled(n, s, step)
    ensures RecordedOnce(Apply(n, s, step))
    ensures forall i :: i in s.rows && s.rows[i].status == Sent ==>
              i in Apply(n, s, step).rows && Apply(n, s, step).rows[i] == s.rows[i]
  {
    if step.Commit? || step.Finalise? {
      assert PcOwnsRow(s, s.pcs[step.w]);
    }
  }

  lemma LeaseStep(n: nat, s: State, step: Step)
    requires LeaseInv(s) && Timely(s) && Enabled(n, s, step)
    ensures LeaseInv(Apply(n, s, step))
  {
    var s' := Apply(n, s, step);
    StaysExclusive(n, s, step);
    RecordsKept(n, s, step);
    forall w | 0 <= w < |s'.pcs| ensures PcOwnsRow(s', s'.pcs[w]) {
      OwnershipKept(n, s, step, w);
    }
    if step.Finalise? { assert PcOwnsRow(s, s.pcs[step.w]); }
  }

  lemma {:induction false} LeaseAlways(n: nat, trace: seq<State>, k: nat)
    requires TimelyRun(n, trace) && k < |trace|
    ensures LeaseInv(trace[k])
  {
    if k == 0 {
    } else {
      LeaseAlways(n, trace, k - 1);
      assert Next(n, trace[k - 1], trace[k - 1 + 1]);
      var step :| Enabled(n, trace[k - 1], step) && trace[k] == Apply(n, trace[k - 1], step);
      LeaseStep(n, trace[k - 1], step);
    }
  }

  /** At most one sender is between claim and finalise for a chunk, in every timely run. */
  lemma OneSenderPerChunk(n: nat, trace: seq<State>, k: nat, w: nat, v: nat)
    requires TimelyRun(n, trace) && k < |trace| && w < |trace[k].pcs| && v < |trace[k].pcs|
    requires Holds(trace[k].pcs[w]) && Holds(trace[k].pcs[v]) && trace[k].pcs[w].chunk == trace[k].pcs[v].chunk
    ensures w == v
  {
    LeaseAlways(n, trace, k);
  }

  /** A SENT row is never written again in a timely run. */
  lemma {:induction false} SentIsAbsorbing(n: nat, trace: seq<State>, k: nat, later: nat, i: nat)
    requires TimelyRun(n, trace) && k <= later < |trace|
    requires i in trace[k].rows && trace[k].rows[i].status == Sent
    ensures i in trace[later].rows && trace[later].rows[i] == trace[k].rows[i]
  {
    if k == later {
    } else {
      SentIsAbsorbing(n, trace, k, later - 1, i);
      LeaseAlways(n, trace, later - 1);
      assert Next(n, trace[later - 1], trace[later - 1 + 1]);
      var step :| Enabled(n, trace[later - 1], step) && trace[later] == Apply(n, trace[later - 1], step);
      RecordsKept(n, trace[later - 1], step);
    }
  }

  // ---------- counting ----------

  function Occurrences(log: seq<nat>, i: nat): nat {
    if log == [] then 0 else Occurrences(log[..|log| - 1], i) + if log[|log| - 1] == i then 1 else 0
  }

  /** Accepted posts of chunk i whose success was, or was not, recorded. */
  function AcceptedPosts(posts: seq<Post>, i: nat, recorded: bool): nat {
    if posts == [] then 0
    else
      var p := posts[|posts| - 1];
      AcceptedPosts(posts[..|posts| - 1], i, recorded)
      + if p.chunk == i && p.accepted && p.recorded == recorded then 1 else 0
  }

  function AllAccepted(posts: seq<Post>, i: nat): nat {
    AcceptedPosts(posts, i, true) + AcceptedPosts(posts, i, false)
  }

  function Counted(post: Post, i: nat): nat {
    if post.chunk == i && post.accepted then 1 else 0
  }

  lemma {:induction false} UpdateCount(posts: seq<Post>, p: nat, post: Post, i: nat)
    requires p < |posts|
    ensures AllAccepted(posts[p := post], i) == AllAccepted(posts, i) - Counted(posts[p], i) + Counted(post, i)
  {
    var init := posts[..|posts| - 1];
    if p == |posts| - 1 {
      assert posts[p := post][..p] == init;
    } else {
      assert posts[p := post][..|posts| - 1] == init[p := post];
      UpdateCount(init, p, post, i);
    }
  }

  /** Discord accepted a chunk exactly as often as posts of it were accepted. */
  lemma CountStep(n: nat, s: State, step: Step, i: nat)
    requires Enabled(n, s, step)
    requires forall j :: Occurrences(s.log, j) == AllAccepted(s.posts, j)
    ensures Occurrences(Apply(n, s, step).log, i) == AllAccepted(Apply(n, s, step).posts, i)
  {
    var s' := Apply(n, s, step);
    match step
    case Accept(p) =>
      UpdateCount(s.posts, p, s.posts[p].(accepted := true), i);
      assert s'.log[..|s'.log| - 1] == s.log;
    case Commit(w) =>
      assert s'.posts[..|s'.posts| - 1] == s.posts;
    case Finalise(w) =>
      var p := s.pcs[w].post;
      UpdateCount(s.posts, p, s.posts[p].(recorded := true), i);
    case _ =>
  }

  lemma {:induction false} CountAlways(n: nat, trace: seq<State>, k: nat)
    requires Run(n, trace) && k < |trace|
    ensures forall i :: Occurrences(trace[k].log, i) == AllAccepted(trace[k].posts, i)
  {
    if k == 0 {
    } else {
      CountAlways(n, trace, k - 1);
      assert Next(n, trace[k - 1], trace[k - 1 + 1]);
      var step :| Enabled(n, trace[k - 1], step) && trace[k] == Apply(n, trace[k - 1], step);
      forall i ensures Occurrences(trace[k].log, i) == AllAccepted(trace[k].posts, i) {
        CountStep(n, trace[k - 1], step, i);
      }
    }
  }

  lemma {:induction false} AtMostOneRecorded(posts: seq<Post>, i: nat)
    requires forall p, q :: 0 <= p < q < |posts| && posts[p].recorded && posts[q].recorded ==>
               posts[p].chunk != posts[q].chunk
    ensures AcceptedPosts(posts, i, true) <= 1
    ensures (forall p :: 0 <= p < |posts| && posts[p].recorded ==> posts[p].chunk != i) ==>
              AcceptedPosts(posts, i, true) == 0
  {
    if posts == [] {
    } else {
      AtMostOneRecorded(posts[..|posts| - 1], i);
    }
  }

  /**
   * At-least-once, no more than it has to: a chunk is accepted at most once, plus once per accepted post whose
   * success never reached the table.
   */
  lemma DuplicatesAreUnrecordedPosts(n: nat, trace: seq<State>, k: nat, i: nat)
    requires TimelyRun(n, trace) && k < |trace|
    ensures Occurrences(trace[k].log, i) <= 1 + AcceptedPosts(trace[k].posts, i, false)
  {
    CountAlways(n, trace, k);
    LeaseAlways(n, trace, k);
    AtMostOneRecorded(trace[k].posts, i);
  }

  // ---------- the hypothesis is needed ----------

  /** From an empty table one sender of a single chunk reaches its post. */
  lemma FirstSenderPosts() returns (steps: seq<Step>)
    ensures RunsTo(1, State(0, map[], [Idle, Idle], [], []), steps,
                   State(0, map[0 := Row(Pending, 1, Some(CHUNK_LEASE_TTL_MS), None)],
                         [Posting(0, CHUNK_LEASE_TTL_MS, 0), Idle], [Post(0, false, false)], []))
  {
    var s0 := State(0, map[], [Idle, Idle], [], []);
    var s1 := State(0, map[], [AtChunk(0), Idle], [], []);
    var s2 := State(0, map[], [Claiming(0, CHUNK_LEASE_TTL_MS), Idle], [], []);
    var s3 := State(0, map[], [Locked(0, CHUNK_LEASE_TTL_MS, None), Idle], [], []);
    var s4 := OneStep(1, s3, Commit(0));
    assert s4 == State(0, map[0 := Row(Pending, 1, Some(CHUNK_LEASE_TTL_MS), None)],
                       [Posting(0, CHUNK_LEASE_TTL_MS, 0), Idle], [Post(0, false, false)], []);
    steps := [Commit(0)];
    steps := Prepend(1, s2, Read(0), s3, steps, s4);
    steps := Prepend(1, s1, Begin(0), s2, steps, s4);
    steps := Prepend(1, s0, Start(0), s1, steps, s4);
  }

  /** Once the first lease has run out with the first post still open, a second sender posts the same chunk. */
  lemma SecondSenderPosts(row: Row) returns (steps: seq<Step>, row': Row)
    requires row == Row(Pending, 1, Some(CHUNK_LEASE_TTL_MS), None)
    ensures RunsTo(1, State(CHUNK_LEASE_TTL_MS, map[0 := row], [Posting(0, CHUNK_LEASE_TTL_MS, 0), Idle],
                            [Post(0, false, false)], []), steps,
                   State(CHUNK_LEASE_TTL_MS, map[0 := row'],
                         [Posting(0, CHUNK_LEASE_TTL_MS, 0), Posting(0, 2 * CHUNK_LEASE_TTL_MS, 1)],
                         [Post(0, false, false), Post(0, false, false)], []))
    ensures row'.status == Pending
  {
    var first, posts := Posting(0, CHUNK_LEASE_TTL_MS, 0), [Post(0, false, false)];
    var t, rows := CHUNK_LEASE_TTL_MS, map[0 := row];
    var s0 := State(t, rows, [first, Idle], posts, []);
    var s1 := State(t, rows, [first, AtChunk(0)], posts, []);
    var s2 := State(t, rows, [first, Claiming(0, 2 * t)], posts, []);
    var s3 := State(t, rows, [first, Locked(0, 2 * t, Some(row))], posts, []);
    row' := ClaimedRow(Some(row), Some(row), 2 * t);
    var s4 := OneStep(1, s3, Commit(1));
    assert rows[0 := row'] == map[0 := row'];
    assert s4 == State(t, map[0 := row'], [first, Posting(0, 2 * t, 1)],
                       [Post(0, false, false), Post(0, false, false)], []);
    steps := [Commit(1)];
    steps := Prepend(1, s2, Read(1), s3, steps, s4);
    steps := Prepend(1, s1, Begin(1), s2, steps, s4);
    steps := Prepend(1, s0, Start(1), s1, steps, s4);
  }

  /** Both posts go through and both are answered. */
  lemma BothAnswered(row: Row) returns (steps: seq<Step>)
    requires row.status == Pending
    ensures RunsTo(1, State(CHUNK_LEASE_TTL_MS, map[0 := row],
                            [Posting(0, CHUNK_LEASE_TTL_MS, 0), Posting(0, 2 * CHUNK_LEASE_TTL_MS, 1)],
                            [Post(0, false, false), Post(0, false, false)], []), steps,
                   State(CHUNK_LEASE_TTL_MS, map[0 := row],
                         [Finalising(0, CHUNK_LEASE_TTL_MS, 0, Ok), Finalising(0, 2 * CHUNK_LEASE_TTL_MS, 1, Ok)],
                         [Post(0, true, false), Post(0, true, false)], [0, 0]))
  {
    var t := CHUNK_LEASE_TTL_MS;
    var a, b := Posting(0, t, 0), Posting(0, 2 * t, 1);
    var s0 := State(t, map[0 := row], [a, b], [Post(0, false, false), Post(0, false, false)], []);
    var s1 := State(t, map[0 := row], [a, b], [Post(0, true, false), Post(0, false, false)], [0]);
    var s2 := State(t, map[0 := row], [a, b], [Post(0, true, false), Post(0, true, false)], [0, 0]);
    var s3 :=
      State(t, map[0 := row], [Finalising(0, t, 0, Ok), b], [Post(0, true, false), Post(0, true, false)], [0, 0]);
    var s4 := OneStep(1, s3, Respond(1, Ok));
    assert s4.pcs == [Finalising(0, t, 0, Ok), Finalising(0, 2 * t, 1, Ok)];
    steps := [Respond(1, Ok)];
    steps := Prepend(1, s2, Respond(0, Ok), s3, steps, s4);
    steps := Prepend(1, s1, Accept(1), s2, steps, s4);
    steps := Prepend(1, s0, Accept(0), s1, steps, s4);
  }

  /** And both successes are recorded. */
  lemma BothRecorded(row: Row) returns (steps: seq<Step>, s: State)
    requires row.status == Pending
    ensures RunsTo(1, State(CHUNK_LEASE_TTL_MS, map[0 := row],
                            [Posting(0, CHUNK_LEASE_TTL_MS, 0), Posting(0, 2 * CHUNK_LEASE_TTL_MS, 1)],
                            [Post(0, false, false), Post(0, false, false)], []), steps, s)
    ensures s.log == [0, 0] && s.posts == [Post(0, true, true), Post(0, true, true)]
  {
    var t := CHUNK_LEASE_TTL_MS;
    var s0 := State(t, map[0 := row], [Posting(0, t, 0), Posting(0, 2 * t, 1)],
                    [Post(0, false, false), Post(0, false, false)], []);
    var s4 := State(t, map[0 := row], [Finalising(0, t, 0, Ok), Finalising(0, 2 * t, 1, Ok)],
                    [Post(0, true, false), Post(0, true, false)], [0, 0]);
    var answered := BothAnswered(row);
    var s5 := OneStep(1, s4, Finalise(0));
    s := OneStep(1, s5, Finalise(1));
    var recorded := Prepend(1, s4, Finalise(0), s5, [Finalise(1)], s);
    RunsToConcat(1, s0, answered, s4, recorded, s);
    steps := answered + recorded;
  }

  /** The first success is recorded; then the second sender is refused and its stale write undoes SENT. */
  lemma SentUndone(row: Row) returns (steps: seq<Step>, s: State, more: seq<Step>, s': State)
    requires row.status == Pending
    ensures RunsTo(1, State(CHUNK_LEASE_TTL_MS, map[0 := row],
                            [Posting(0, CHUNK_LEASE_TTL_MS, 0), Posting(0, 2 * CHUNK_LEASE_TTL_MS, 1)],
                            [Post(0, false, false), Post(0, false, false)], []), steps, s)
    ensures RunsTo(1, s, more, s')
    ensures 0 in s.rows && s.rows[0].status == Sent
    ensures 0 in s'.rows && s'.rows[0].status == Pending
  {
    var t := CHUNK_LEASE_TTL_MS;
    var a, b := Posting(0, t, 0), Posting(0, 2 * t, 1);
    var s0 := State(t, map[0 := row], [a, b], [Post(0, false, false), Post(0, false, false)], []);
    var s1 := State(t, map[0 := row], [a, b], [Post(0, true, false), Post(0, false, false)], [0]);
    var s2 := State(t, map[0 := row], [Finalising(0, t, 0, Ok), b], [Post(0, true, false), Post(0, false, false)], [0]);
    s := OneStep(1, s2, Finalise(0));
    steps := [Finalise(0)];
    steps := Prepend(1, s1, Respond(0, Ok), s2, steps, s);
    steps := Prepend(1, s0, Accept(0), s1, steps, s);
    var refused := Refused([], None);
    var s3 := Apply(1, s, Respond(1, refused));
    s' := OneStep(1, s3, Finalise(1));
    more := [Finalise(1)];
    more := Prepend(1, s, Respond(1, refused), s3, more, s');
  }

  lemma TwoSendersPost() returns (trace: seq<State>, row: Row)
    ensures Run(1, trace) && row.status == Pending
    ensures trace[|trace| - 1] == State(CHUNK_LEASE_TTL_MS, map[0 := row],
              [Posting(0, CHUNK_LEASE_TTL_MS, 0), Posting(0, 2 * CHUNK_LEASE_TTL_MS, 1)],
              [Post(0, false, false), Post(0, false, false)], [])
  {
    var s0 := State(0, map[], [Idle, Idle], [], []);
    var steps := FirstSenderPosts();
    var claimed := Row(Pending, 1, Some(CHUNK_LEASE_TTL_MS), None);
    var posting := State(0, map[0 := claimed], [Posting(0, CHUNK_LEASE_TTL_MS, 0), Idle], [Post(0, false, false)], []);
    trace := RunsToExtends(1, [s0], steps, posting);
    var late := OneStep(1, posting, Wait(CHUNK_LEASE_TTL_MS));
    trace := RunsToExtends(1, trace, [Wait(CHUNK_LEASE_TTL_MS)], late);
    steps, row := SecondSenderPosts(claimed);
    trace := RunsToExtends(1, trace, steps,
      State(CHUNK_LEASE_TTL_MS, map[0 := row],
            [Posting(0, CHUNK_LEASE_TTL_MS, 0), Posting(0, 2 * CHUNK_LEASE_TTL_MS, 1)],
            [Post(0, false, false), Post(0, false, false)], []));
  }

  // ---------- exactly when SENT is lost ----------

  /** A sender that holds the chunk writes over its row: it commits a claim, or finalises a refused post. */
  ghost predicate WritesOver(n: nat, s: State, step: Step, i: nat) {
    && Enabled(n, s, step)
    && match step
       case Commit(w) => s.pcs[w].chunk == i
       case Finalise(w) => s.pcs[w].chunk == i && s.pcs[w].result.Refused?
       case _ => false
  }

  lemma SentWrittenOver(n: nat, s: State, step: Step, i: nat)
    requires Enabled(n, s, step) && i in s.rows && s.rows[i].status == Sent
    ensures i in Apply(n, s, step).rows
    ensures Apply(n, s, step).rows[i].status != Sent <==> WritesOver(n, s, step, i)
  {
  }

  ghost predicate WrittenOverAt(n: nat, trace: seq<State>, j: nat, i: nat)
    requires j + 1 < |trace|
  {
    exists step :: WritesOver(n, trace[j], step, i) && trace[j + 1] == Apply(n, trace[j], step)
  }

  ghost predicate SentAt(s: State, i: nat) { i in s.rows && s.rows[i].status == Sent }

  lemma SentLostInStep(n: nat, trace: seq<State>, j: nat, i: nat)
    requires Run(n, trace) && j + 1 < |trace| && SentAt(trace[j], i)
    ensures SentAt(trace[j + 1], i) <==> !WrittenOverAt(n, trace, j, i)
  {
    assert Next(n, trace[j], trace[j + 1]);
    var step :| Enabled(n, trace[j], step) && trace[j + 1] == Apply(n, trace[j], step);
    SentWrittenOver(n, trace[j], step, i);
    if WrittenOverAt(n, trace, j, i) {
      var other :| WritesOver(n, trace[j], other, i) && trace[j + 1] == Apply(n, trace[j], other);
      SentWrittenOver(n, trace[j], other, i);
    }
  }

  ghost predicate StaysSent(trace: seq<State>, k: nat, later: nat, i: nat)
    requires later < |trace|
  {
    forall j :: k <= j <= later ==> SentAt(trace[j], i)
  }

  ghost predicate NeverWrittenOver(n: nat, trace: seq<State>, k: nat, later: nat, i: nat)
    requires later < |trace|
  {
    forall j: nat :: k <= j < later ==> !WrittenOverAt(n, trace, j, i)
  }

  /** In any run, timely or not, a SENT row stays SENT until exactly such a step. */
  lemma {:induction false} SentStaysExactlyUntil(n: nat, trace: seq<State>, k: nat, later: nat, i: nat)
    requires Run(n, trace) && k <= later < |trace| && SentAt(trace[k], i)
    ensures StaysSent(trace, k, later, i) <==> NeverWrittenOver(n, trace, k, later, i)
    decreases later - k
  {
    if k == later {
    } else {
      SentStaysExactlyUntil(n, trace, k, later - 1, i);
      assert StaysSent(trace, k, later, i) <==> StaysSent(trace, k, later - 1, i) && SentAt(trace[later], i);
      assert NeverWrittenOver(n, trace, k, later, i)
        <==> NeverWrittenOver(n, trace, k, later - 1, i) && !WrittenOverAt(n, trace, later - 1, i);
      if SentAt(trace[later - 1], i) { SentLostInStep(n, trace, later - 1, i); }
    }
  }

  /** Without the timing hypothesis the duplicate bound fails: two acceptances, both recorded. */
  lemma LateSenderBreaksTheBound() returns (trace: seq<State>)
    ensures Run(1, trace)
    ensures Occurrences(trace[|trace| - 1].log, 0) == 2
    ensures AcceptedPosts(trace[|trace| - 1].posts, 0, false) == 0
  {
    var row, steps, s;
    trace, row := TwoSendersPost();
    steps, s := BothRecorded(row);
    trace := RunsToExtends(1, trace, steps, s);
    assert s.log[..1] == [0] && [0][..0] == [];
    assert s.posts[..1] == [Post(0, true, true)] && [Post(0, true, true)][..0] == [];
  }

  /** Without the timing hypothesis SENT does not absorb: a stale finaliser overwrites it. */
  lemma LateSenderUndoesSent() returns (trace: seq<State>, k: nat)
    ensures Run(1, trace) && k < |trace|
    ensures 0 in trace[k].rows && trace[k].rows[0].status == Sent
    ensures 0 in trace[|trace| - 1].rows && trace[|trace| - 1].rows[0].status == Pending
  {
    var row, steps, s, more, s';
    trace, row := TwoSendersPost();
    steps, s, more, s' := SentUndone(row);
    trace := RunsToExtends(1, trace, steps, s);
    k := |trace| - 1;
    trace := RunsToExtends(1, trace, more, s');
  }
}
