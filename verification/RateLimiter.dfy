/** The in-memory sliding-window limiter of the credentials vault, against a log that forgets nothing. */
module RateLimiter {
  import opened JsStrings

  /** More keys than this in the map trigger a sweep over all of them. */
  const GC_THRESHOLD := 5000
  const COLON: CodeUnit := 58

  /** `<scope>:<userId>`, wrapped so that keys are compared as one value. */
  datatype Key = Key(text: JsString)

  type Hits = map<Key, seq<int>>

  function Fresh(times: seq<int>, cutoff: int): seq<int> {
    if times == [] then []
    else
      var init := Fresh(times[..|times| - 1], cutoff);
      if times[|times| - 1] > cutoff then init + [times[|times| - 1]] else init
  }

  function HitsOf(hits: Hits, key: Key): seq<int> {
    if key in hits then hits[key] else []
  }

  /** The sweep: drop every key that has no fresh hit. */
  function Swept(hits: Hits, cutoff: int): Hits {
    map k | k in hits && Fresh(hits[k], cutoff) != [] :: hits[k]
  }

  predicate Allows(hits: Hits, key: Key, limit: int, windowMs: int, now: int) {
    |Fresh(HitsOf(hits, key), now - windowMs)| < limit
  }

  function Stored(hits: Hits, key: Key, cutoff: int, now: int): Hits {
    hits[key := Fresh(HitsOf(hits, key), cutoff) + [now]]
  }

  function Consumed(hits: Hits, key: Key, limit: int, windowMs: int, now: int): Hits {
    if !Allows(hits, key, limit, windowMs, now) then hits
    else
      var hits' := Stored(hits, key, now - windowMs, now);
      if |hits'| > GC_THRESHOLD then Swept(hits', now - windowMs) else hits'
  }

  lemma {:induction false} StaleMeansEmpty(times: seq<int>, cutoff: int)
    requires forall j :: 0 <= j < |times| ==> times[j] <= cutoff
    ensures Fresh(times, cutoff) == []
  {
    if times == [] {
    } else {
      StaleMeansEmpty(times[..|times| - 1], cutoff);
    }
  }

  lemma {:induction false} FreshKeeps(times: seq<int>, cutoff: int, j: nat)
    requires j < |times| && times[j] > cutoff
    ensures Fresh(times, cutoff) != []
  {
    if j == |times| - 1 {
    } else {
      FreshKeeps(times[..|times| - 1], cutoff, j);
    }
  }

  lemma {:induction false} SomeFreshAt(times: seq<int>, cutoff: int)
    requires Fresh(times, cutoff) != []
    ensures exists j :: 0 <= j < |times| && times[j] > cutoff
  {
    if times[|times| - 1] > cutoff {
    } else {
      SomeFreshAt(times[..|times| - 1], cutoff);
      var j :| 0 <= j < |times| - 1 && times[..|times| - 1][j] > cutoff;
      assert times[j] > cutoff;
    }
  }

  /** A key has a hit later than the cutoff. */
  ghost predicate HasHitAfter(times: seq<int>, cutoff: int) { exists j :: 0 <= j < |times| && times[j] > cutoff }

  lemma FreshExactlyWhen(times: seq<int>, cutoff: int)
    ensures Fresh(times, cutoff) != [] <==> HasHitAfter(times, cutoff)
  {
    if Fresh(times, cutoff) != [] { SomeFreshAt(times, cutoff); }
    if j :| 0 <= j < |times| && times[j] > cutoff { FreshKeeps(times, cutoff, j); }
  }

  class VaultRateLimiter {
    var hits: Hits

    constructor ()
      ensures hits == map[]
    {
      hits := map[];
    }

    /** False stands for the 429 the source throws. */
    method Consume(scope: JsString, userId: JsString, limit: int, windowMs: int, now: int) returns (ok: bool)
      modifies this
      ensures ok == Allows(old(hits), Key(scope + [COLON] + userId), limit, windowMs, now)
      ensures hits == Consumed(old(hits), Key(scope + [COLON] + userId), limit, windowMs, now)
      ensures !ok ==> hits == old(hits)
    {
      var key := Key(scope + [COLON] + userId);
      var cutoff := now - windowMs;
      var kept := Fresh(HitsOf(hits, key), cutoff);
      if |kept| >= limit { return false; }
      hits := hits[key := kept + [now]];
      if |hits| > GC_THRESHOLD {
        Sweep(cutoff);
      }
      ok := true;
    }

    method Sweep(cutoff: int)
      modifies this
      ensures hits == Swept(old(hits), cutoff)
      ensures forall k :: k in hits <==> k in old(hits) && HasHitAfter(old(hits)[k], cutoff)
      ensures forall k :: k in hits ==> hits[k] == old(hits)[k]
    {
      var todo := hits.Keys;
      while todo != {}
        invariant todo <= old(hits).Keys
        invariant hits == map k | k in old(hits) && (k in todo || Fresh(old(hits)[k], cutoff) != []) :: old(hits)[k]
        decreases |todo|
      {
        var k :| k in todo;
        var stale := AllStale(hits[k], cutoff);
        if stale { hits := hits - {k}; }
        todo := todo - {k};
      }
      forall k | k in old(hits) ensures k in hits <==> HasHitAfter(old(hits)[k], cutoff) {
        FreshExactlyWhen(old(hits)[k], cutoff);
      }
    }

    method AllStale(times: seq<int>, cutoff: int) returns (stale: bool)
      ensures stale <==> Fresh(times, cutoff) == []
    {
      var i := 0;
      while i < |times|
        invariant 0 <= i <= |times|
        invariant forall j :: 0 <= j < i ==> times[j] <= cutoff
      {
        if times[i] > cutoff {
          FreshKeeps(times, cutoff, i);
          return false;
        }
        i := i + 1;
      }
      StaleMeansEmpty(times, cutoff);
      stale := true;
    }
  }

  // ---------- the naive limiter ----------

  datatype Call = Call(key: Key, limit: int, windowMs: int, now: int)

  datatype Hit = Hit(key: Key, at: int)

  function TimesOf(log: seq<Hit>, key: Key): seq<int> {
    if log == [] then []
    else
      var init := TimesOf(log[..|log| - 1], key);
      if log[|log| - 1].key == key then init + [log[|log| - 1].at] else init
  }

  /** Never prunes: counts the accepted calls of the key inside the window. */
  predicate NaiveAllows(log: seq<Hit>, call: Call) {
    |Fresh(TimesOf(log, call.key), call.now - call.windowMs)| < call.limit
  }

  function Logged(log: seq<Hit>, call: Call): seq<Hit> {
    if NaiveAllows(log, call) then log + [Hit(call.key, call.now)] else log
  }

  function NaiveLog(calls: seq<Call>): seq<Hit> {
    if calls == [] then []
    else
      Logged(NaiveLog(calls[..|calls| - 1]), calls[|calls| - 1])
  }

  function ConsumedBy(hits: Hits, call: Call): Hits {
    Consumed(hits, call.key, call.limit, call.windowMs, call.now)
  }

  function HitsAfter(calls: seq<Call>): Hits {
    if calls == [] then map[]
    else
      ConsumedBy(HitsAfter(calls[..|calls| - 1]), calls[|calls| - 1])
  }

  /** The limiter's and the naive limiter's answers to the i-th call. */
  predicate Answer(calls: seq<Call>, i: nat)
    requires i < |calls|
  {
    Allows(HitsAfter(calls[..i]), calls[i].key, calls[i].limit, calls[i].windowMs, calls[i].now)
  }

  predicate NaiveAnswer(calls: seq<Call>, i: nat)
    requires i < |calls|
  {
    NaiveAllows(NaiveLog(calls[..i]), calls[i])
  }

  ghost predicate CommonWindow(calls: seq<Call>, windowMs: int) {
    forall i :: 0 <= i < |calls| ==> calls[i].windowMs == windowMs
  }

  ghost predicate ClockForward(calls: seq<Call>) {
    forall i, j :: 0 <= i < j < |calls| ==> calls[i].now <= calls[j].now
  }

  // ---------- same answers ----------

  lemma {:induction false} FreshAppend(a: seq<int>, b: seq<int>, cutoff: int)
    ensures Fresh(a + b, cutoff) == Fresh(a, cutoff) + Fresh(b, cutoff)
  {
    if b == [] {
      assert a + b == a;
    } else {
      assert (a + b)[..|a + b| - 1] == a + b[..|b| - 1];
      FreshAppend(a, b[..|b| - 1], cutoff);
    }
  }

  lemma {:induction false} FreshTwice(times: seq<int>, cutoff: int, later: int)
    requires cutoff <= later
    ensures Fresh(Fresh(times, cutoff), later) == Fresh(times, later)
  {
    if times == [] {
    } else {
      var init, last := times[..|times| - 1], times[|times| - 1];
      FreshTwice(init, cutoff, later);
      if last > cutoff {
        assert (Fresh(init, cutoff) + [last])[..|Fresh(init, cutoff)|] == Fresh(init, cutoff);
      }
    }
  }

  /** A sweep drops nothing that counts from its cutoff on. */
  lemma SweepInvisible(hits: Hits, key: Key, cutoff: int, from: int)
    requires cutoff <= from
    ensures Fresh(HitsOf(Swept(hits, cutoff), key), from) == Fresh(HitsOf(hits, key), from)
  {
    FreshTwice(HitsOf(hits, key), cutoff, from);
  }

  /** What one accepted call of key `changed` adds to the fresh hits of `key`. */
  function Gain(changed: Key, at: int, key: Key, cutoff: int): seq<int> {
    if changed == key then Fresh([at], cutoff) else []
  }

  lemma StoreGrows(hits: Hits, changed: Key, cutoff: int, now: int, key: Key, from: int)
    requires cutoff <= from
    ensures Fresh(HitsOf(Stored(hits, changed, cutoff, now), key), from)
            == Fresh(HitsOf(hits, key), from) + Gain(changed, now, key, from)
  {
    if changed == key {
      FreshTwice(HitsOf(hits, key), cutoff, from);
      FreshAppend(Fresh(HitsOf(hits, key), cutoff), [now], from);
    }
  }

  /** What an accepted call changes, seen from any key. */
  lemma AcceptGrows(hits: Hits, call: Call, key: Key, from: int)
    requires Allows(hits, call.key, call.limit, call.windowMs, call.now) && call.now - call.windowMs <= from
    ensures Fresh(HitsOf(ConsumedBy(hits, call), key), from)
            == Fresh(HitsOf(hits, key), from) + Gain(call.key, call.now, key, from)
  {
    var cutoff := call.now - call.windowMs;
    StoreGrows(hits, call.key, cutoff, call.now, key, from);
    SweepInvisible(Stored(hits, call.key, cutoff, call.now), key, cutoff, from);
  }

  lemma LogGrows(log: seq<Hit>, hit: Hit, key: Key, cutoff: int)
    ensures Fresh(TimesOf(log + [hit], key), cutoff)
            == Fresh(TimesOf(log, key), cutoff) + Gain(hit.key, hit.at, key, cutoff)
  {
    assert (log + [hit])[..|log|] == log;
    FreshAppend(TimesOf(log, key), [hit.at], cutoff);
  }

  /** From the cutoff on, the limiter remembers about the key what the full log says. */
  ghost predicate Agrees(hits: Hits, log: seq<Hit>, key: Key, cutoff: int) {
    forall from: int :: cutoff <= from ==> Fresh(HitsOf(hits, key), from) == Fresh(TimesOf(log, key), from)
  }

  lemma AcceptAgrees(hits: Hits, log: seq<Hit>, call: Call, key: Key)
    requires Agrees(hits, log, key, call.now - call.windowMs)
    requires Allows(hits, call.key, call.limit, call.windowMs, call.now)
    ensures Agrees(ConsumedBy(hits, call), log + [Hit(call.key, call.now)], key, call.now - call.windowMs)
  {
    var hit := Hit(call.key, call.now);
    forall from: int | call.now - call.windowMs <= from
      ensures Fresh(HitsOf(ConsumedBy(hits, call), key), from) == Fresh(TimesOf(log + [hit], key), from)
    {
      AcceptGrows(hits, call, key, from);
      LogGrows(log, hit, key, from);
    }
  }

  lemma StepAgrees(hits: Hits, log: seq<Hit>, call: Call, key: Key)
    requires Agrees(hits, log, key, call.now - call.windowMs) && Agrees(hits, log, call.key, call.now - call.windowMs)
    ensures Agrees(ConsumedBy(hits, call), Logged(log, call), key, call.now - call.windowMs)
  {
    if Allows(hits, call.key, call.limit, call.windowMs, call.now) {
      AcceptAgrees(hits, log, call, key);
    }
  }

  /** The calls share the window, and their clock runs forward up to `now`. */
  ghost predicate Orderly(calls: seq<Call>, windowMs: int, now: int) {
    calls == [] ||
    var init, last := calls[..|calls| - 1], calls[|calls| - 1];
    last.windowMs == windowMs && last.now <= now && Orderly(init, windowMs, last.now)
  }

  lemma {:induction false} OrderlyCalls(calls: seq<Call>, windowMs: int, now: int)
    requires CommonWindow(calls, windowMs) && ClockForward(calls)
    requires forall i :: 0 <= i < |calls| ==> calls[i].now <= now
    ensures Orderly(calls, windowMs, now)
  {
    if calls == [] {
    } else {
      OrderlyCalls(calls[..|calls| - 1], windowMs, calls[|calls| - 1].now);
    }
  }

  /** Before a call at `now`, the limiter and the log agree about everything that call can see. */
  lemma {:induction false} RunsAgree(calls: seq<Call>, windowMs: int, now: int, key: Key)
    requires Orderly(calls, windowMs, now)
    ensures Agrees(HitsAfter(calls), NaiveLog(calls), key, now - windowMs)
  {
    if calls == [] {
    } else {
      var init, last := calls[..|calls| - 1], calls[|calls| - 1];
      RunsAgree(init, windowMs, last.now, key);
      RunsAgree(init, windowMs, last.now, last.key);
      StepAgrees(HitsAfter(init), NaiveLog(init), last, key);
    }
  }

  /**
   * Pruning and sweeping never show: with one common window and a clock that does not run backwards, every
   * answer is the answer of the log that keeps everything, whatever keys and limits are mixed.
   */
  lemma SameAnswersAsTheFullLog(calls: seq<Call>, windowMs: int, i: nat)
    requires CommonWindow(calls, windowMs) && ClockForward(calls) && i < |calls|
    ensures Answer(calls, i) == NaiveAnswer(calls, i)
  {
    var before := calls[..i];
    OrderlyCalls(before, windowMs, calls[i].now);
    RunsAgree(before, windowMs, calls[i].now, calls[i].key);
  }

  // ---------- the bound ----------

  function Between(times: seq<int>, from: int, to: int): nat {
    if times == [] then 0
    else Between(times[..|times| - 1], from, to) + if from < times[|times| - 1] <= to then 1 else 0
  }

  lemma {:induction false} BetweenAtMostFresh(times: seq<int>, from: int, to: int, cutoff: int)
    requires cutoff <= from
    ensures Between(times, from, to) <= |Fresh(times, cutoff)|
  {
    if times == [] {
    } else {
      BetweenAtMostFresh(times[..|times| - 1], from, to, cutoff);
    }
  }

  lemma {:induction false} LogWithinLimit(calls: seq<Call>, windowMs: int, key: Key, limit: nat, from: int)
    requires CommonWindow(calls, windowMs)
    requires forall i :: 0 <= i < |calls| && calls[i].key == key ==> calls[i].limit == limit
    ensures Between(TimesOf(NaiveLog(calls), key), from, from + windowMs) <= limit
  {
    if calls == [] {
    } else {
      var init, call := calls[..|calls| - 1], calls[|calls| - 1];
      LogWithinLimit(init, windowMs, key, limit, from);
      var log := NaiveLog(init);
      if NaiveAllows(log, call) {
        var log' := log + [Hit(call.key, call.now)];
        assert log'[..|log|] == log;
        if call.key == key {
          var times := TimesOf(log, key);
          assert (times + [call.now])[..|times|] == times;
          if call.now <= from + windowMs {
            BetweenAtMostFresh(times, from, from + windowMs, call.now - windowMs);
          }
        }
      }
    }
  }

  /** The calls the limiter itself let through, in order. */
  function AcceptedLog(calls: seq<Call>): seq<Hit> {
    if calls == [] then []
    else
      var init, call := calls[..|calls| - 1], calls[|calls| - 1];
      AcceptedLog(init)
      + if Allows(HitsAfter(init), call.key, call.limit, call.windowMs, call.now) then [Hit(call.key, call.now)] else []
  }

  lemma {:induction false} AcceptedIsLogged(calls: seq<Call>, windowMs: int)
    requires CommonWindow(calls, windowMs) && ClockForward(calls)
    ensures AcceptedLog(calls) == NaiveLog(calls)
  {
    if calls == [] {
    } else {
      var n := |calls| - 1;
      AcceptedIsLogged(calls[..n], windowMs);
      SameAnswersAsTheFullLog(calls, windowMs, n);
    }
  }

  /** No half-open interval as long as the window holds more calls of a key let through than the key's limit. */
  lemma NoWindowOverLimit(calls: seq<Call>, windowMs: int, key: Key, limit: nat, from: int)
    requires CommonWindow(calls, windowMs) && ClockForward(calls)
    requires forall i :: 0 <= i < |calls| && calls[i].key == key ==> calls[i].limit == limit
    ensures Between(TimesOf(AcceptedLog(calls), key), from, from + windowMs) <= limit
  {
    AcceptedIsLogged(calls, windowMs);
    LogWithinLimit(calls, windowMs, key, limit, from);
  }

  // ---------- which call is refused ----------

  /** The calls of the key before the n-th that were let through later than the cutoff. */
  ghost function LetThrough(calls: seq<Call>, n: nat, key: Key, cutoff: int): set<nat>
    requires n <= |calls|
  {
    set j: nat | j < n && calls[j].key == key && calls[j].now > cutoff && Answer(calls, j)
  }

  predicate CountsFor(calls: seq<Call>, n: nat, key: Key, cutoff: int)
    requires n < |calls|
  {
    calls[n].key == key && calls[n].now > cutoff && Answer(calls, n)
  }

  lemma LetThroughNext(calls: seq<Call>, n: nat, key: Key, cutoff: int)
    requires n < |calls|
    ensures |LetThrough(calls, n + 1, key, cutoff)|
         == |LetThrough(calls, n, key, cutoff)| + if CountsFor(calls, n, key, cutoff) then 1 else 0
  {
    var before := LetThrough(calls, n, key, cutoff);
    assert LetThrough(calls, n + 1, key, cutoff) == before + if CountsFor(calls, n, key, cutoff) then {n} else {};
  }

  lemma AcceptedNext(calls: seq<Call>, n: nat, key: Key, cutoff: int)
    requires n < |calls|
    ensures |Fresh(TimesOf(AcceptedLog(calls[..n + 1]), key), cutoff)|
         == |Fresh(TimesOf(AcceptedLog(calls[..n]), key), cutoff)| + if CountsFor(calls, n, key, cutoff) then 1 else 0
  {
    var call, log := calls[n], AcceptedLog(calls[..n]);
    assert calls[..n + 1][..n] == calls[..n];
    if Answer(calls, n) {
      LogGrows(log, Hit(call.key, call.now), key, cutoff);
      assert [call.now][..0] == [];
    } else {
      assert log + [] == log;
    }
  }

  lemma {:induction false} LogCountsLetThrough(calls: seq<Call>, n: nat, key: Key, cutoff: int)
    requires n <= |calls|
    ensures |Fresh(TimesOf(AcceptedLog(calls[..n]), key), cutoff)| == |LetThrough(calls, n, key, cutoff)|
  {
    if n == 0 {
    } else {
      LogCountsLetThrough(calls, n - 1, key, cutoff);
      LetThroughNext(calls, n - 1, key, cutoff);
      AcceptedNext(calls, n - 1, key, cutoff);
    }
  }

  lemma PrefixAccepted(calls: seq<Call>, windowMs: int, i: nat)
    requires CommonWindow(calls, windowMs) && ClockForward(calls) && i < |calls|
    ensures AcceptedLog(calls[..i]) == NaiveLog(calls[..i])
  {
    AcceptedIsLogged(calls[..i], windowMs);
  }

  /**
   * With one common window and a forward clock, a call goes through exactly when fewer calls of its key than its
   * limit were let through later than one window length before it.
   */
  lemma GoesThroughExactlyWhen(calls: seq<Call>, windowMs: int, i: nat)
    requires CommonWindow(calls, windowMs) && ClockForward(calls) && i < |calls|
    ensures Answer(calls, i)
       <==> |LetThrough(calls, i, calls[i].key, calls[i].now - windowMs)| < calls[i].limit
  {
    SameAnswersAsTheFullLog(calls, windowMs, i);
    PrefixAccepted(calls, windowMs, i);
    LogCountsLetThrough(calls, i, calls[i].key, calls[i].now - windowMs);
  }

  // ---------- why the window has to be common ----------

  /** One call of user 0 with the long window, then one call each of m other users with the short window. */
  function Crowd(m: nat, long: nat, short: nat): seq<Call>
    requires m < 0x1_0000
  {
    if m == 0 then [Call(Key([0]), 1, long, 0)] else Crowd(m - 1, long, short) + [Call(Key([m]), 1, short, short)]
  }

  lemma {:induction false} CrowdState(m: nat, long: nat, short: nat)
    requires m < GC_THRESHOLD
    ensures var hits := HitsAfter(Crowd(m, long, short));
            && |hits| == m + 1
            && Key([0]) in hits && hits[Key([0])] == [0]
            && forall k :: k in hits ==> |k.text| == 1 && k.text[0] <= m
  {
    if m == 0 {
      assert Crowd(0, long, short)[..0] == [];
    } else {
      CrowdState(m - 1, long, short);
      assert Crowd(m, long, short)[..|Crowd(m, long, short)| - 1] == Crowd(m - 1, long, short);
      var k := Key([m]);
      assert k !in HitsAfter(Crowd(m - 1, long, short));
    }
  }

  lemma {:induction false} CrowdLog(m: nat, long: nat, short: nat)
    requires m <= GC_THRESHOLD
    ensures TimesOf(NaiveLog(Crowd(m, long, short)), Key([0])) == [0]
  {
    if m == 0 {
      assert Crowd(0, long, short)[..0] == [];
      var log := [Hit(Key([0]), 0)];
      assert NaiveLog(Crowd(0, long, short)) == log && log[..0] == [];
    } else {
      CrowdLog(m - 1, long, short);
      var init, call := Crowd(m - 1, long, short), Call(Key([m]), 1, short, short);
      assert Crowd(m, long, short)[..|init|] == init;
      OtherKeyLogged(NaiveLog(init), call, Key([0]));
    }
  }

  lemma OtherKeyLogged(log: seq<Hit>, call: Call, key: Key)
    requires call.key != key
    ensures TimesOf(Logged(log, call), key) == TimesOf(log, key)
  {
    assert (log + [Hit(call.key, call.now)])[..|log|] == log;
  }

  lemma {:induction false} CrowdShape(m: nat, long: nat, short: nat)
    requires m <= GC_THRESHOLD
    ensures |Crowd(m, long, short)| == m + 1
    ensures forall i :: 0 <= i <= m ==>
              Crowd(m, long, short)[i].windowMs in {long, short}
                && Crowd(m, long, short)[i].now == if i == 0 then 0 else short
  {
    if m == 0 {
    } else {
      CrowdShape(m - 1, long, short);
    }
  }

  lemma LastOneSweeps(hits: Hits, call: Call)
    requires |hits| == GC_THRESHOLD && call.key !in hits && call.limit == 1 && call.now == call.windowMs
    requires Key([0]) in hits && hits[Key([0])] == [0]
    ensures HitsOf(ConsumedBy(hits, call), Key([0])) == []
  {
    var full := Stored(hits, call.key, 0, call.now);
    assert |full| == GC_THRESHOLD + 1;
    assert Fresh([0], 0) == [] by { assert [0][..0] == []; }
  }

  /** The call that pushes the map over the threshold sweeps user 0 away. */
  lemma CrowdSweepsUserZero(long: nat, short: nat)
    ensures HitsOf(HitsAfter(Crowd(GC_THRESHOLD, long, short)), Key([0])) == []
  {
    var m := GC_THRESHOLD - 1;
    CrowdState(m, long, short);
    var crowd, before := Crowd(GC_THRESHOLD, long, short), Crowd(m, long, short);
    assert crowd[..|crowd| - 1] == before;
    LastOneSweeps(HitsAfter(before), Call(Key([GC_THRESHOLD]), 1, short, short));
  }

  /**
   * The sweep uses the window of the call that triggers it. Any two different windows in use can make it forget
   * a hit that still counts: user 0 gets a second call through although its limit is one per long window.
   */
  lemma TwoWindowsBreakTheLimit(long: nat, short: nat) returns (calls: seq<Call>)
    requires short < long
    ensures ClockForward(calls) && |calls| > 0
    ensures forall i :: 0 <= i < |calls| ==> calls[i].windowMs in {long, short}
    ensures Answer(calls, |calls| - 1) && !NaiveAnswer(calls, |calls| - 1)
  {
    var crowd, last := Crowd(GC_THRESHOLD, long, short), Call(Key([0]), 1, long, short);
    calls := crowd + [last];
    CrowdSweepsUserZero(long, short);
    CrowdLog(GC_THRESHOLD, long, short);
    CrowdShape(GC_THRESHOLD, long, short);
    assert calls[..|calls| - 1] == crowd;
    assert [0][..0] == [];
  }

  /** Exactly when the limiter can be trusted on every call sequence over two windows: when they are one. */
  lemma FaithfulIffOneWindow(a: nat, b: nat)
    ensures a == b <==>
            forall calls: seq<Call>, i: nat :: ClockForward(calls) && i < |calls| &&
                               (forall j :: 0 <= j < |calls| ==> calls[j].windowMs in {a, b})
              ==> Answer(calls, i) == NaiveAnswer(calls, i)
  {
    if a == b {
      forall calls: seq<Call>, i: nat | ClockForward(calls) && i < |calls|
        && (forall j :: 0 <= j < |calls| ==> calls[j].windowMs in {a, b})
        ensures Answer(calls, i) == NaiveAnswer(calls, i)
      {
        SameAnswersAsTheFullLog(calls, a, i);
      }
    } else {
      var calls := TwoWindowsBreakTheLimit(if a > b then a else b, if a > b then b else a);
      var i: nat := |calls| - 1;
      assert Answer(calls, i) != NaiveAnswer(calls, i);
    }
  }
}
