/** The sender loop is a run of the protocol, and what a reader of the channel ends up with. */
module DeliveryEndToEnd {
  import opened JsStrings
  import opened DiscordChunking
  import opened DiscordDelivery
  import opened DeliveryProtocol

  // ---------- the loop refines the protocol ----------

  /** The outside world is consistent: clocks do not run backwards, and an Ok answer means acceptance. */
  ghost predicate Consistent(env: nat -> Env, from: int) {
    && from <= env(0).startedAt
    && forall k: nat ::
         && env(k).startedAt <= env(k).readAt <= env(k).finishedAt <= env(k + 1).startedAt
         && (env(k).result.Ok? ==> env(k).accepted)
  }

  ghost predicate AloneAt(s: State, w: nat, i: nat) {
    && w < |s.pcs| && s.pcs[w] == AtChunk(i)
    && forall v :: 0 <= v < |s.pcs| ==> !s.pcs[v].Locked?
  }

  lemma Extend(n: nat, s: State, steps: seq<Step>, mid: State, step: Step) returns (longer: seq<Step>, s': State)
    requires RunsTo(n, s, steps, mid) && Enabled(n, mid, step)
    ensures s' == Apply(n, mid, step) && RunsTo(n, s, longer, s')
  {
    s' := OneStep(n, mid, step);
    longer := steps + [step];
    RunsToConcat(n, s, steps, mid, [step], s');
  }

  /** Entering a chunk: the clock moves on, the lease end is fixed, the transaction starts. */
  lemma EnterChunk(n: nat, s: State, w: nat, i: nat, e: Env) returns (steps: seq<Step>, s': State)
    requires AloneAt(s, w, i) && i < n
    requires s.now <= e.startedAt <= e.readAt
    ensures RunsTo(n, s, steps, s')
    ensures s' == s.(now := e.readAt, pcs := s.pcs[w := Claiming(i, e.startedAt + CHUNK_LEASE_TTL_MS)])
  {
    var s1 := OneStep(n, s, Wait(e.startedAt - s.now));
    steps := [Wait(e.startedAt - s.now)];
    var s2, s3;
    steps, s2 := Extend(n, s, steps, s1, Begin(w));
    steps, s3 := Extend(n, s, steps, s2, Wait(e.readAt - e.startedAt));
    s' := s3;
  }

  /** Claim, commit and issue the post, which Discord may accept. */
  lemma ClaimAndPost(n: nat, s: State, w: nat, i: nat, leaseUntil: int, accepted: bool)
    returns (steps: seq<Step>, s': State)
    requires w < |s.pcs| && s.pcs[w] == Claiming(i, leaseUntil)
    requires forall v :: 0 <= v < |s.pcs| ==> !s.pcs[v].Locked?
    requires Decide(Lookup(s.rows, i), s.now) == Claimed
    ensures RunsTo(n, s, steps, s')
    ensures s' == State(s.now, s.rows[i := ClaimedRow(Lookup(s.rows, i), Lookup(s.rows, i), leaseUntil)],
                        s.pcs[w := Posting(i, leaseUntil, |s.posts|)], s.posts + [Post(i, accepted, false)],
                        if accepted then s.log + [i] else s.log)
  {
    assert !LockHeld(s, i);
    var s1 := OneStep(n, s, Read(w));
    steps := [Read(w)];
    steps, s' := Extend(n, s, steps, s1, Commit(w));
    assert s'.pcs == s.pcs[w := Posting(i, leaseUntil, |s.posts|)];
    if accepted {
      var p := |s.posts|;
      assert s'.posts[p := Post(i, true, false)] == s.posts + [Post(i, true, false)];
      steps, s' := Extend(n, s, steps, s', Accept(p));
    }
  }

  /** The answer arrives and is written down. */
  lemma AnswerAndFinalise(n: nat, s: State, w: nat, e: Env) returns (steps: seq<Step>, s': State)
    requires w < |s.pcs| && s.pcs[w].Posting? && s.pcs[w].chunk in s.rows && s.pcs[w].post < |s.posts|
    requires s.now <= e.finishedAt
    requires e.result.Ok? ==> s.posts[s.pcs[w].post].accepted
    ensures RunsTo(n, s, steps, s')
    ensures s'.rows == s.rows[s.pcs[w].chunk := Finalised(s.rows[s.pcs[w].chunk], e.result, e.finishedAt)]
    ensures s'.log == s.log && s'.now == e.finishedAt
    ensures s'.pcs == s.pcs[w := if e.result.Ok? then AtChunk(s.pcs[w].chunk + 1) else Idle]
  {
    var s1 := OneStep(n, s, Respond(w, e.result));
    steps := [Respond(w, e.result)];
    var s2;
    steps, s2 := Extend(n, s, steps, s1, Wait(e.finishedAt - s1.now));
    steps, s' := Extend(n, s, steps, s2, Finalise(w));
  }

  /** Claim to finalise for one chunk. */
  lemma PostChunk(n: nat, s: State, w: nat, i: nat, leaseUntil: int, e: Env) returns (steps: seq<Step>, s': State)
    requires w < |s.pcs| && s.pcs[w] == Claiming(i, leaseUntil) && s.now == e.readAt <= e.finishedAt
    requires forall v :: 0 <= v < |s.pcs| ==> !s.pcs[v].Locked?
    requires Decide(Lookup(s.rows, i), e.readAt) == Claimed
    requires e.result.Ok? ==> e.accepted
    ensures RunsTo(n, s, steps, s')
    ensures s'.rows == s.rows[i := Finalised(ClaimedRow(Lookup(s.rows, i), Lookup(s.rows, i), leaseUntil),
                                             e.result, e.finishedAt)]
    ensures s'.log == if e.accepted then s.log + [i] else s.log
    ensures s'.now == e.finishedAt && s'.pcs == s.pcs[w := if e.result.Ok? then AtChunk(i + 1) else Idle]
  {
    var first, mid := ClaimAndPost(n, s, w, i, leaseUntil, e.accepted);
    var rest;
    rest, s' := AnswerAndFinalise(n, mid, w, e);
    RunsToConcat(n, s, first, mid, rest, s');
    steps := first + rest;
  }

  /** A chunk that is posted: entering it, claim, post and finalise. */
  lemma EnterAndPost(n: nat, s: State, w: nat, i: nat, e: Env) returns (steps: seq<Step>, s': State)
    requires AloneAt(s, w, i) && i < n && s.now <= e.startedAt <= e.readAt <= e.finishedAt
    requires e.lockFree && Decide(Lookup(s.rows, i), e.readAt) == Claimed && (e.result.Ok? ==> e.accepted)
    ensures RunsTo(n, s, steps, s')
    ensures s'.rows == s.rows[i := Finalised(
                                     ClaimedRow(Lookup(s.rows, i), Lookup(s.rows, i), e.startedAt + CHUNK_LEASE_TTL_MS),
                                     e.result, e.finishedAt)]
    ensures s'.log == if e.accepted then s.log + [i] else s.log
    ensures s'.now == e.finishedAt && s'.pcs == s.pcs[w := if e.result.Ok? then AtChunk(i + 1) else Idle]
  {
    var first, mid := EnterChunk(n, s, w, i, e);
    var rest;
    rest, s' := PostChunk(n, mid, w, i, e.startedAt + CHUNK_LEASE_TTL_MS, e);
    RunsToConcat(n, s, first, mid, rest, s');
    steps := first + rest;
  }

  /** A chunk that is not posted: its lock is taken, it is leased, or it is SENT already. */
  lemma EnterAndLeave(n: nat, s: State, w: nat, i: nat, e: Env) returns (steps: seq<Step>, s': State)
    requires AloneAt(s, w, i) && i < n && s.now <= e.startedAt <= e.readAt
    requires !e.lockFree || Decide(Lookup(s.rows, i), e.readAt) != Claimed
    ensures RunsTo(n, s, steps, s')
    ensures s'.rows == s.rows && s'.log == s.log && s'.now == e.readAt
    ensures s'.pcs == s.pcs[w := if e.lockFree && Decide(Lookup(s.rows, i), e.readAt) == AlreadySent then AtChunk(i + 1)
                                 else Idle]
  {
    var mid;
    steps, mid := EnterChunk(n, s, w, i, e);
    if e.lockFree {
      assert !LockHeld(mid, i);
      steps, s' := Extend(n, s, steps, mid, Read(w));
    } else {
      steps, s' := Extend(n, s, steps, mid, Contend(w));
    }
  }

  /** A lone tick of the sender loop is a run of the protocol that ends in the loop's rows and log. */
  lemma {:induction false} SendIsARun(n: nat, s: State, w: nat, i: nat, env: nat -> Env)
    returns (steps: seq<Step>, s': State)
    requires AloneAt(s, w, i) && i <= n
    requires s.now <= env(i).startedAt && Consistent(env, env(0).startedAt)
    ensures RunsTo(n, s, steps, s')
    ensures s'.rows == Send(s.rows, s.log, n, i, env).rows
    ensures s'.log == Send(s.rows, s.log, n, i, env).log
    ensures s'.pcs == s.pcs[w := Idle]
    decreases n - i
  {
    if i == n {
      s' := OneStep(n, s, Begin(w));
      steps := [Begin(w)];
      return;
    }
    if env(i).lockFree && Decide(Lookup(s.rows, i), env(i).readAt) == Claimed {
      steps, s' := EnterAndPost(n, s, w, i, env(i));
    } else {
      steps, s' := EnterAndLeave(n, s, w, i, env(i));
    }
    if s'.pcs[w] == AtChunk(i + 1) {
      var rest, end := SendIsARun(n, s', w, i + 1, env);
      RunsToConcat(n, s, steps, s', rest, end);
      steps, s' := steps + rest, end;
    }
  }

  // ---------- no run gets stuck ----------

  lemma {:induction false} CrashFrom(n: nat, s: State, k: nat) returns (steps: seq<Step>, s': State)
    requires k <= |s.pcs| && forall w :: 0 <= w < k ==> s.pcs[w] == Idle
    ensures RunsTo(n, s, steps, s') && s' == s.(pcs := s'.pcs)
    ensures |s'.pcs| == |s.pcs| && forall w :: 0 <= w < |s.pcs| ==> s'.pcs[w] == Idle
    decreases |s.pcs| - k
  {
    steps, s' := [], s;
    if k < |s.pcs| {
      var crashed := OneStep(n, s, Crash(k));
      var rest;
      rest, s' := CrashFrom(n, crashed, k + 1);
      steps := [Crash(k)] + rest;
      RunsToConcat(n, s, [Crash(k)], crashed, rest, s');
    }
  }

  /** A time from which on no lease of these rows is running. */
  lemma {:induction false} LeasesEnd(rows: Rows, chunks: set<nat>, now: int) returns (later: int)
    requires chunks <= rows.Keys
    ensures now <= later && forall i :: i in chunks ==> !LiveLease(rows[i], later)
  {
    later := now;
    if chunks != {} {
      var i :| i in chunks;
      later := LeasesEnd(rows, chunks - {i}, now);
      if rows[i].sentAt.Some? && rows[i].sentAt.value > later { later := rows[i].sentAt.value; }
    }
  }

  function AllGoesWell(now: int): nat -> Env { (k: nat) => Env(now, now, true, Ok, true, now) }

  lemma GoodTickSendsAll(rows: Rows, log: seq<nat>, n: nat, now: int)
    requires forall i :: i in rows ==> !LiveLease(rows[i], now)
    ensures AllSent(Send(rows, log, n, 0, AllGoesWell(now)).rows, n)
  {
    TickFinishesOrFails(rows, log, n, 0, AllGoesWell(now));
    TickPostsExactly(rows, log, n, 0, AllGoesWell(now));
  }

  /**
   * From every state of every run, whatever crashed and whatever leases are open, the digest can still be finished: a
   * sender that starts after the last lease and meets no refusal sends all that is left.
   */
  lemma NoRunGetsStuck(n: nat, trace: seq<State>) returns (longer: seq<State>)
    requires Run(n, trace) && trace[|trace| - 1].pcs != []
    ensures Run(n, longer) && trace <= longer && AllSent(longer[|longer| - 1].rows, n)
  {
    var last := trace[|trace| - 1];
    var later := LeasesEnd(last.rows, last.rows.Keys, last.now);
    var steps, idle := CrashFrom(n, last, 0);
    longer := RunsToExtends(n, trace, steps, idle);
    var waited := OneStep(n, idle, Wait(later - idle.now));
    longer := RunsToExtends(n, longer, [Wait(later - idle.now)], waited);
    var started := OneStep(n, waited, Start(0));
    longer := RunsToExtends(n, longer, [Start(0)], started);
    var end;
    steps, end := SendIsARun(n, started, 0, 0, AllGoesWell(later));
    longer := RunsToExtends(n, longer, steps, end);
    GoodTickSendsAll(last.rows, last.log, n, later);
  }

  // ---------- what the channel shows ----------

  datatype Message = Message(content: Option<JsString>, embeds: seq<Embed>)

  /** The chunks of one digest; a text without embeds still makes one message. */
  function DigestChunks(content: JsString, embeds: seq<Embed>): seq<seq<Embed>> {
    var chunks := Pack(NormaliseAll(embeds), MAX_EMBEDS_PER_MESSAGE, MAX_TOTAL_CHARS_PER_MESSAGE);
    if chunks != [] then chunks else if content != [] then [[]] else []
  }

  function MessageOf(content: JsString, chunks: seq<seq<Embed>>, i: nat): Message
    requires i < |chunks|
  {
    Message(if i == 0 && content != [] then Some(content) else None, chunks[i])
  }

  /** The channel with repeats skipped: the first copy of every message Discord accepted, in order. */
  function Channel(content: JsString, chunks: seq<seq<Embed>>, log: seq<nat>): seq<Message>
    requires forall i :: i in log ==> i < |chunks|
  {
    var first := FirstOccurrences(log);
    seq(|first|, k requires 0 <= k < |first| => assert first[k] in first; MessageOf(content, chunks, first[k]))
  }

  function EmbedsOf(messages: seq<Message>): seq<seq<Embed>> {
    seq(|messages|, k requires 0 <= k < |messages| => messages[k].embeds)
  }

  lemma {:induction false} FlattenPrefix<T>(parts: seq<seq<T>>, m: nat)
    requires m <= |parts|
    ensures Flatten(parts[..m]) <= Flatten(parts)
  {
    if m < |parts| {
      FlattenPrefix(parts[..|parts| - 1], m);
      assert parts[..|parts| - 1][..m] == parts[..m];
    } else {
      assert parts[..m] == parts;
    }
  }

  lemma ChunksFlatten(content: JsString, embeds: seq<Embed>)
    ensures Flatten(DigestChunks(content, embeds)) == NormaliseAll(embeds)
  {
    PackPartitions(NormaliseAll(embeds), MAX_EMBEDS_PER_MESSAGE, MAX_TOTAL_CHARS_PER_MESSAGE);
    var empty: seq<seq<Embed>> := [];
    FlattenSnoc(empty, []);
    assert empty + [[]] == [[]];
  }

  /** In every run and at every moment the channel shows a prefix of the digest, the text on its first message only. */
  lemma ReaderSeesAPrefix(content: JsString, embeds: seq<Embed>, trace: seq<State>, k: nat)
    requires var chunks := DigestChunks(content, embeds); Run(|chunks|, trace) && k < |trace|
    ensures forall i :: i in trace[k].log ==> i < |DigestChunks(content, embeds)|
    ensures var seen := Channel(content, DigestChunks(content, embeds), trace[k].log);
            && Flatten(EmbedsOf(seen)) <= NormaliseAll(embeds)
            && forall m :: 0 <= m < |seen| ==>
                 seen[m].content == if m == 0 && content != [] then Some(content) else None
  {
    var chunks := DigestChunks(content, embeds);
    OrderAlways(|chunks|, trace, k);
    FirstAcceptancesInOrder(|chunks|, trace, k);
    var first := FirstOccurrences(trace[k].log);
    assert forall m :: 0 <= m < |first| ==> first[m] == UpTo(|first|)[m] == m;
    assert EmbedsOf(Channel(content, chunks, trace[k].log)) == chunks[..|first|];
    FlattenPrefix(chunks, |first|);
    ChunksFlatten(content, embeds);
  }

  lemma ChunksSaySomething(content: JsString, embeds: seq<Embed>)
    ensures var chunks := DigestChunks(content, embeds);
            content == [] || |chunks| > 1 ==> forall i :: 0 <= i < |chunks| ==> chunks[i] != []
  {
    PackPartitions(NormaliseAll(embeds), MAX_EMBEDS_PER_MESSAGE, MAX_TOTAL_CHARS_PER_MESSAGE);
  }

  /**
   * When every chunk is SENT, the channel shows every normalised embed once, in order, in full, the text on the first
   * message, and no empty message; embeds within Discord's limits show as they were given.
   */
  lemma ReaderSeesTheDigest(content: JsString, embeds: seq<Embed>, trace: seq<State>, k: nat)
    requires var chunks := DigestChunks(content, embeds);
             Run(|chunks|, trace) && k < |trace| && AllSent(trace[k].rows, |chunks|)
    ensures forall i :: i in trace[k].log ==> i < |DigestChunks(content, embeds)|
    ensures var seen := Channel(content, DigestChunks(content, embeds), trace[k].log);
            && Flatten(EmbedsOf(seen)) == NormaliseAll(embeds)
            && ((forall i :: 0 <= i < |embeds| ==> WithinLimits(embeds[i])) ==> Flatten(EmbedsOf(seen)) == embeds)
            && (content != [] ==> seen != [] && seen[0].content == Some(content))
            && (forall m :: 0 <= m < |seen| ==> seen[m].content.Some? || seen[m].embeds != [])
            && forall m :: 1 <= m < |seen| ==> seen[m].content == None
  {
    var chunks := DigestChunks(content, embeds);
    ChannelShowsChunks(content, chunks, trace, k);
    MessagesHoldTheChunks(content, embeds, Channel(content, chunks, trace[k].log));
    ChunksFlatten(content, embeds);
    if forall i :: 0 <= i < |embeds| ==> WithinLimits(embeds[i]) { AllKept(embeds); }
  }

  /** The messages of all chunks in order: their embeds are the chunks, the text comes first, and none is empty. */
  lemma MessagesHoldTheChunks(content: JsString, embeds: seq<Embed>, seen: seq<Message>)
    requires var chunks := DigestChunks(content, embeds);
             |seen| == |chunks| && forall m :: 0 <= m < |seen| ==> seen[m] == MessageOf(content, chunks, m)
    ensures EmbedsOf(seen) == DigestChunks(content, embeds)
    ensures content != [] ==> seen != [] && seen[0].content == Some(content)
    ensures forall m :: 1 <= m < |seen| ==> seen[m].content == None
    ensures forall m :: 0 <= m < |seen| ==> seen[m].content.Some? || seen[m].embeds != []
  {
    ChunksSaySomething(content, embeds);
  }

  /** Every chunk is SENT: the channel holds the message of every chunk, in order. */
  lemma ChannelShowsChunks(content: JsString, chunks: seq<seq<Embed>>, trace: seq<State>, k: nat)
    requires Run(|chunks|, trace) && k < |trace| && AllSent(trace[k].rows, |chunks|)
    ensures forall i :: i in trace[k].log ==> i < |chunks|
    ensures var seen := Channel(content, chunks, trace[k].log);
            |seen| == |chunks| && forall m :: 0 <= m < |seen| ==> seen[m] == MessageOf(content, chunks, m)
  {
    OrderAlways(|chunks|, trace, k);
    AllSentMeansAllRead(|chunks|, trace, k);
    var first := FirstOccurrences(trace[k].log);
    assert forall m :: 0 <= m < |first| ==> first[m] == UpTo(|chunks|)[m] == m;
  }
}
