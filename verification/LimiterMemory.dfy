/** What the limiter still remembers after a call: its own hits inside the window, and which other keys. */
module LimiterMemory {
  import opened JsStrings
  import opened RateLimiter
  import opened Sieving

  lemma {:induction false} FreshSieves(times: seq<int>, cutoff: int)
    ensures Sieves(times, Fresh(times, cutoff), (at: int) => at > cutoff)
  {
    var wanted := (at: int) => at > cutoff;
    if times == [] {
      NothingSieved(wanted);
    } else {
      var init, last := times[..|times| - 1], times[|times| - 1];
      FreshSieves(init, cutoff);
      assert times == init + [last];
      if wanted(last) { SieveKeeps(init, Fresh(init, cutoff), last, wanted); }
      else { SieveDrops(init, Fresh(init, cutoff), last, wanted); }
    }
  }

  /** An accepted call keeps all keys as long as there are at most 5000, and then those with a hit in its window. */
  lemma KeysForgotten(hits: Hits, key: Key, limit: int, windowMs: int, now: int, other: Key)
    requires Allows(hits, key, limit, windowMs, now) && other != key
    ensures other in Consumed(hits, key, limit, windowMs, now)
       <==> other in hits && (|hits.Keys + {key}| <= 5000 || HasHitAfter(hits[other], now - windowMs))
  {
    assert Stored(hits, key, now - windowMs, now).Keys == hits.Keys + {key};
    if other in hits { FreshExactlyWhen(hits[other], now - windowMs); }
  }

  /** Of its own key, an accepted call keeps the hits inside the window, in order, and adds itself. */
  lemma OwnHitsArePruned(hits: Hits, key: Key, limit: int, windowMs: int, now: int)
    requires Allows(hits, key, limit, windowMs, now) && windowMs > 0
    ensures var after := HitsOf(Consumed(hits, key, limit, windowMs, now), key);
            && after != [] && after[|after| - 1] == now
            && Sieves(HitsOf(hits, key), after[..|after| - 1], (at: int) => at > now - windowMs)
  {
    FreshSieves(HitsOf(hits, key), now - windowMs);
  }
}
