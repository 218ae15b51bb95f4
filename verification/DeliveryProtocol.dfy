/**
 * Many senders, one table: the interleavings of the claim, post and finalise phases, with crashes anywhere.
 * A post may be accepted at any time after it was issued, also after its sender gave up on it or died.
 */
module DeliveryProtocol {
  import opened JsStrings
  import opened DiscordDelivery

  /** Where one sender is in its loop over the chunks; a crashed process is idle again. */
  datatype Pc =
    | Idle
    | AtChunk(chunk: nat)
    | Claiming(chunk: nat, leaseUntil: int)
    | Locked(chunk: nat, leaseUntil: int, seen: Option<Row>)
    | Posting(chunk: nat, leaseUntil: int, post: nat)
    | Finalising(chunk: nat, leaseUntil: int, post: nat, result: PostResult)

  /** One HTTP post. `recorded` is history: its success reached the table. */
  datatype Post = Post(chunk: nat, accepted: bool, recorded: bool)

  datatype State = State(now: int, rows: Rows, pcs: seq<Pc>, posts: seq<Post>, log: seq<nat>)

  datatype Step =
    | Wait(ms: nat)
    | Start(w: nat)
    | Begin(w: nat)
    | Contend(w: nat)
    | Read(w: nat)
    | Commit(w: nat)
    | Accept(p: nat)
    | Respond(w: nat, result: PostResult)
    | Finalise(w: nat)
    | Crash(w: nat)

  ghost predicate Init(s: State) {
    && s.rows == map[] && s.posts == [] && s.log == []
    && forall w :: 0 <= w < |s.pcs| ==> s.pcs[w] == Idle
  }

  /** The per-key transaction lock is held from the claim's read to its commit. */
  ghost predicate LockHeld(s: State, chunk: nat) {
    exists w :: 0 <= w < |s.pcs| && s.pcs[w].Locked? && s.pcs[w].chunk == chunk
  }

  ghost predicate Enabled(n: nat, s: State, step: Step) {
    match step
    case Wait(_) => true
    case Accept(p) => p < |s.posts| && !s.posts[p].accepted
    case Start(w) => w < |s.pcs| && s.pcs[w].Idle?
    case Begin(w) => w < |s.pcs| && s.pcs[w].AtChunk?
    case Contend(w) => w < |s.pcs| && s.pcs[w].Claiming?
    case Read(w) => w < |s.pcs| && s.pcs[w].Claiming? && !LockHeld(s, s.pcs[w].chunk)
    case Commit(w) => w < |s.pcs| && s.pcs[w].Locked?
    case Respond(w, result) =>
      w < |s.pcs| && s.pcs[w].Posting? && s.pcs[w].post < |s.posts| && (result.Ok? ==> s.posts[s.pcs[w].post].accepted)
    case Finalise(w) =>
      w < |s.pcs| && s.pcs[w].Finalising? && s.pcs[w].post < |s.posts| && s.pcs[w].chunk in s.rows
    case Crash(w) => w < |s.pcs|
  }

  function Goto(s: State, w: nat, pc: Pc): State
    requires w < |s.pcs|
  {
    s.(pcs := s.pcs[w := pc])
  }

  ghost function Apply(n: nat, s: State, step: Step): State
    requires Enabled(n, s, step)
  {
    match step
    case Wait(ms) => s.(now := s.now + ms)
    case Accept(p) => s.(posts := s.posts[p := s.posts[p].(accepted := true)], log := s.log + [s.posts[p].chunk])
    case Start(w) => Goto(s, w, AtChunk(0))
    case Begin(w) =>
      var i := s.pcs[w].chunk;
      Goto(s, w, if i < n then Claiming(i, s.now + CHUNK_LEASE_TTL_MS) else Idle)
    case Contend(w) => Goto(s, w, Idle)
    case Read(w) =>
      var i := s.pcs[w].chunk;
      var seen := Lookup(s.rows, i);
      (match Decide(seen, s.now)
       case AlreadySent => Goto(s, w, AtChunk(i + 1))
       case Claimed => Goto(s, w, Locked(i, s.pcs[w].leaseUntil, seen))
       case _ => Goto(s, w, Idle))
    case Commit(w) =>
      var i := s.pcs[w].chunk;
      Goto(s, w, Posting(i, s.pcs[w].leaseUntil, |s.posts|))
        .(rows := s.rows[i := ClaimedRow(Lookup(s.rows, i), s.pcs[w].seen, s.pcs[w].leaseUntil)],
          posts := s.posts + [Post(i, false, false)])
    case Respond(w, result) =>
      Goto(s, w, Finalising(s.pcs[w].chunk, s.pcs[w].leaseUntil, s.pcs[w].post, result))
    case Finalise(w) =>
      var i, p, result := s.pcs[w].chunk, s.pcs[w].post, s.pcs[w].result;
      Goto(s, w, if result.Ok? then AtChunk(i + 1) else Idle)
        .(rows := s.rows[i := Finalised(s.rows[i], result, s.now)],
          posts := if result.Ok? then s.posts[p := s.posts[p].(recorded := true)] else s.posts)
    case Crash(w) => Goto(s, w, Idle)
  }

  ghost predicate Next(n: nat, s: State, s': State) {
    exists step :: Enabled(n, s, step) && s' == Apply(n, s, step)
  }

  /** Any finite run, over any number of senders. */
  ghost predicate Run(n: nat, trace: seq<State>) {
    && trace != [] && Init(trace[0])
    && forall k :: 0 <= k < |trace| - 1 ==> Next(n, trace[k], trace[k + 1])
  }

  // ---------- paths ----------

  ghost predicate RunsTo(n: nat, s: State, steps: seq<Step>, s': State)
    decreases |steps|
  {
    if steps == [] then s == s'
    else Enabled(n, s, steps[0]) && RunsTo(n, Apply(n, s, steps[0]), steps[1..], s')
  }

  lemma {:induction false} RunsToConcat(n: nat, s: State, a: seq<Step>, mid: State, b: seq<Step>, s': State)
    requires RunsTo(n, s, a, mid) && RunsTo(n, mid, b, s')
    ensures RunsTo(n, s, a + b, s')
    decreases |a|
  {
    if a == [] {
      assert a + b == b;
    } else {
      assert (a + b)[1..] == a[1..] + b;
      RunsToConcat(n, Apply(n, s, a[0]), a[1..], mid, b, s');
    }
  }

  lemma {:induction false} RunsToExtends(n: nat, trace: seq<State>, steps: seq<Step>, s': State)
    returns (longer: seq<State>)
    requires Run(n, trace) && RunsTo(n, trace[|trace| - 1], steps, s')
    ensures Run(n, longer) && trace <= longer && longer[|longer| - 1] == s'
    decreases |steps|
  {
    if steps == [] {
      longer := trace;
    } else {
      longer := RunsToExtends(n, trace + [Apply(n, trace[|trace| - 1], steps[0])], steps[1..], s');
    }
  }

  /** One step of a run, as a path of length one. */
  lemma OneStep(n: nat, s: State, step: Step) returns (s': State)
    requires Enabled(n, s, step)
    ensures s' == Apply(n, s, step) && RunsTo(n, s, [step], s')
  {
    s' := Apply(n, s, step);
    assert [step][1..] == [];
    assert RunsTo(n, s', [], s');
  }

  lemma Prepend(n: nat, s: State, step: Step, mid: State, rest: seq<Step>, s': State) returns (steps: seq<Step>)
    requires Enabled(n, s, step) && Apply(n, s, step) == mid && RunsTo(n, mid, rest, s')
    ensures RunsTo(n, s, steps, s')
  {
    steps := [step] + rest;
    assert steps[1..] == rest;
  }

  // ---------- ordering, with no timing hypothesis ----------

  ghost predicate AllBelow(log: seq<nat>, i: nat) {
    forall j: nat :: j < i ==> j in log
  }

  /** Whenever a chunk was accepted, every chunk before it had been accepted already. */
  ghost predicate InOrder(log: seq<nat>) {
    log == [] || (InOrder(log[..|log| - 1]) && AllBelow(log[..|log| - 1], log[|log| - 1]))
  }

  ghost predicate PcOrdered(n: nat, s: State, pc: Pc) {
    match pc
    case Idle => true
    case AtChunk(i) => i <= n && AllBelow(s.log, i)
    case Claiming(i, _) => i < n && AllBelow(s.log, i)
    case Locked(i, _, _) => i < n && AllBelow(s.log, i)
    case Posting(i, _, p) => i < n && i in s.rows && p < |s.posts| && s.posts[p].chunk == i
    case Finalising(i, _, p, result) =>
      i < n && i in s.rows && p < |s.posts| && s.posts[p].chunk == i && (result.Ok? ==> s.posts[p].accepted)
  }

  ghost predicate PostsOrdered(n: nat, s: State) {
    forall p :: 0 <= p < |s.posts| ==>
      && s.posts[p].chunk < n
      && AllBelow(s.log, s.posts[p].chunk)
      && (s.posts[p].accepted ==> s.posts[p].chunk in s.log)
  }

  ghost predicate OrderInv(n: nat, s: State) {
    && (forall w :: 0 <= w < |s.pcs| ==> PcOrdered(n, s, s.pcs[w]))
    && PostsOrdered(n, s)
    && (forall i :: i in s.rows && s.rows[i].status == Sent ==> i in s.log)
    && InOrder(s.log)
    && (forall i :: i in s.log ==> i < n)
  }

  /** What every step does to the shared state: rows, posts and the log only grow. */
  ghost predicate Grows(s: State, s': State) {
    && s.rows.Keys <= s'.rows.Keys
    && s.log <= s'.log
    && |s.posts| <= |s'.posts|
    && forall p :: 0 <= p < |s.posts| ==>
         s'.posts[p].chunk == s.posts[p].chunk && (s.posts[p].accepted ==> s'.posts[p].accepted)
  }

  lemma StepGrows(n: nat, s: State, step: Step)
    requires Enabled(n, s, step)
    ensures Grows(s, Apply(n, s, step))
  {
  }

  lemma AllBelowGrows(s: State, s': State, i: nat)
    requires Grows(s, s') && AllBelow(s.log, i)
    ensures AllBelow(s'.log, i)
  {
    forall j: nat | j < i ensures j in s'.log {
      assert j in s.log;
      var p :| 0 <= p < |s.log| && s.log[p] == j;
      assert s'.log[p] == j;
    }
  }

  lemma PcOrderedGrows(n: nat, s: State, s': State, pc: Pc)
    requires Grows(s, s') && PcOrdered(n, s, pc)
    ensures PcOrdered(n, s', pc)
  {
    if pc.AtChunk? || pc.Claiming? || pc.Locked? {
      AllBelowGrows(s, s', pc.chunk);
    }
  }

  /** The sender that moved is still in order; in particular it passes chunk i only once i was accepted. */
  lemma MoverStaysOrdered(n: nat, s: State, step: Step, w: nat)
    requires OrderInv(n, s) && Enabled(n, s, step) && w < |s.pcs|
    requires !step.Wait? && !step.Accept? && step.w == w
    ensures PcOrdered(n, Apply(n, s, step), Apply(n, s, step).pcs[w])
  {
    var s' := Apply(n, s, step);
    StepGrows(n, s, step);
    assert PcOrdered(n, s, s.pcs[w]);
    match step
    case Begin(_) => AllBelowGrows(s, s', s.pcs[w].chunk);
    case Read(_) =>
      var i := s.pcs[w].chunk;
      AllBelowGrows(s, s', i);
      if s'.pcs[w].AtChunk? { assert i in s.log; }
    case Finalise(_) =>
      var i := s.pcs[w].chunk;
      assert AllBelow(s.log, s.posts[s.pcs[w].post].chunk);
      if s.pcs[w].result.Ok? { assert i in s.log; }
    case _ =>
  }

  lemma RowsStayOrdered(n: nat, s: State, step: Step)
    requires OrderInv(n, s) && Enabled(n, s, step)
    ensures forall i :: i in Apply(n, s, step).rows && Apply(n, s, step).rows[i].status == Sent ==>
              i in Apply(n, s, step).log
  {
    var s' := Apply(n, s, step);
    forall i | i in s'.rows && s'.rows[i].status == Sent ensures i in s'.log {
      if step.Finalise? && i == s.pcs[step.w].chunk {
        assert PcOrdered(n, s, s.pcs[step.w]);
        assert s.pcs[step.w].result.Ok? || s.rows[i].status == Sent;
      } else {
        assert i in s.rows && s.rows[i].status == Sent;
      }
    }
  }

  lemma PostsStayOrdered(n: nat, s: State, step: Step)
    requires OrderInv(n, s) && Enabled(n, s, step)
    ensures PostsOrdered(n, Apply(n, s, step))
  {
    var s' := Apply(n, s, step);
    StepGrows(n, s, step);
    forall p | 0 <= p < |s'.posts|
      ensures s'.posts[p].chunk < n && AllBelow(s'.log, s'.posts[p].chunk)
      ensures s'.posts[p].accepted ==> s'.posts[p].chunk in s'.log
    {
      if p < |s.posts| {
        AllBelowGrows(s, s', s.posts[p].chunk);
        if step.Accept? && step.p == p { assert s'.log[|s.log|] == s.posts[p].chunk; }
        else if s.posts[p].accepted { assert s.posts[p].chunk in s.log; }
      } else {
        assert PcOrdered(n, s, s.pcs[step.w]);
      }
    }
  }

  lemma OrderStep(n: nat, s: State, step: Step)
    requires OrderInv(n, s) && Enabled(n, s, step)
    ensures OrderInv(n, Apply(n, s, step))
  {
    var s' := Apply(n, s, step);
    StepGrows(n, s, step);
    PostsStayOrdered(n, s, step);
    RowsStayOrdered(n, s, step);
    forall w | 0 <= w < |s'.pcs| ensures PcOrdered(n, s', s'.pcs[w]) {
      if !step.Wait? && !step.Accept? && step.w == w {
        MoverStaysOrdered(n, s, step, w);
      } else {
        PcOrderedGrows(n, s, s', s.pcs[w]);
      }
    }
    if step.Accept? {
      assert s'.log[..|s'.log| - 1] == s.log;
    }
  }

  lemma {:induction false} OrderAlways(n: nat, trace: seq<State>, k: nat)
    requires Run(n, trace) && k < |trace|
    ensures OrderInv(n, trace[k])
  {
    if k == 0 {
    } else {
      OrderAlways(n, trace, k - 1);
      assert Next(n, trace[k - 1], trace[k - 1 + 1]);
      var step :| Enabled(n, trace[k - 1], step) && trace[k] == Apply(n, trace[k - 1], step);
      OrderStep(n, trace[k - 1], step);
    }
  }

  /** The log with every repeat removed. */
  function FirstOccurrences(log: seq<nat>): (r: seq<nat>)
    ensures forall i :: i in r <==> i in log
    ensures forall p, q :: 0 <= p < q < |r| ==> r[p] != r[q]
  {
    if log == [] then []
    else
      var init := FirstOccurrences(log[..|log| - 1]);
      if log[|log| - 1] in init then init else init + [log[|log| - 1]]
  }

  /** 0, 1, .., k - 1 */
  function UpTo(k: nat): seq<nat> {
    seq(k, i => i)
  }

  lemma UpToHolds(k: nat, i: nat)
    ensures i in UpTo(k) <==> i < k
  {
    assert i < k ==> UpTo(k)[i] == i;
  }

  lemma {:induction false} OrderedLogReadsUpTo(log: seq<nat>)
    requires InOrder(log)
    ensures FirstOccurrences(log) == UpTo(|FirstOccurrences(log)|)
  {
    if log == [] {
    } else {
      var init, last := log[..|log| - 1], log[|log| - 1];
      OrderedLogReadsUpTo(init);
      var first := FirstOccurrences(init);
      if last !in first {
        UpToHolds(|first|, last);
        UpToHolds(|first|, |first|);
      }
    }
  }

  /**
   * In every interleaving, whatever the clocks and crashes do, the first acceptances read 0, 1, 2, ..: no
   * reader of the channel sees chunk i + 1 before chunk i.
   */
  lemma FirstAcceptancesInOrder(n: nat, trace: seq<State>, k: nat)
    requires Run(n, trace) && k < |trace|
    ensures InOrder(trace[k].log)
    ensures |FirstOccurrences(trace[k].log)| <= n
    ensures FirstOccurrences(trace[k].log) == UpTo(|FirstOccurrences(trace[k].log)|)
  {
    OrderAlways(n, trace, k);
    OrderedLogReadsUpTo(trace[k].log);
    var first := FirstOccurrences(trace[k].log);
    assert forall i :: 0 <= i < |first| ==> first[i] == i && first[i] in trace[k].log;
    if |first| > 0 { assert first[|first| - 1] < n; }
  }

  /** Once every chunk is SENT, the reader has seen all of them. */
  lemma AllSentMeansAllRead(n: nat, trace: seq<State>, k: nat)
    requires Run(n, trace) && k < |trace|
    requires AllSent(trace[k].rows, n)
    ensures FirstOccurrences(trace[k].log) == UpTo(n)
  {
    FirstAcceptancesInOrder(n, trace, k);
    OrderAlways(n, trace, k);
    var first := FirstOccurrences(trace[k].log);
    assert |first| < n ==> |first| in first;
  }
}
