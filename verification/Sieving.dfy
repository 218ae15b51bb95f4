/** What it means for a filter to keep exactly the wanted elements of a list, in their order. */
module Sieving {
  /** `kept` is what stands at the positions `at` of the list, in order. */
  ghost predicate Picks<T>(list: seq<T>, kept: seq<T>, at: seq<nat>) {
    && |at| == |kept|
    && (forall i, j :: 0 <= i < j < |at| ==> at[i] < at[j])
    && (forall i :: 0 <= i < |at| ==> at[i] < |list| && kept[i] == list[at[i]])
  }

  /** The positions are those of the wanted elements. */
  ghost predicate Wants<T>(list: seq<T>, at: seq<nat>, wanted: T -> bool) {
    forall k :: 0 <= k < |list| ==> (k in at <==> wanted(list[k]))
  }

  ghost predicate Sieves<T>(list: seq<T>, kept: seq<T>, wanted: T -> bool) {
    exists at: seq<nat> :: Picks(list, kept, at) && Wants(list, at, wanted)
  }

  lemma NothingSieved<T>(wanted: T -> bool)
    ensures Sieves([], [], wanted)
  {
    assert Picks<T>([], [], []) && Wants([], [], wanted);
  }

  lemma PicksLast<T>(list: seq<T>, kept: seq<T>, at: seq<nat>, x: T)
    requires Picks(list, kept, at)
    ensures Picks(list + [x], kept + [x], at + [|list|])
  {
  }

  lemma WantsLast<T>(list: seq<T>, at: seq<nat>, x: T, wanted: T -> bool)
    requires Wants(list, at, wanted) && wanted(x)
    ensures Wants(list + [x], at + [|list|], wanted)
  {
    forall k | 0 <= k < |list| + 1 ensures k in at + [|list|] <==> wanted((list + [x])[k]) {
      assert k in at + [|list|] <==> k in at || k == |list|;
    }
  }

  /** A wanted element more is kept at the end. */
  lemma SieveKeeps<T>(list: seq<T>, kept: seq<T>, x: T, wanted: T -> bool)
    requires Sieves(list, kept, wanted) && wanted(x)
    ensures Sieves(list + [x], kept + [x], wanted)
  {
    var at: seq<nat> :| Picks(list, kept, at) && Wants(list, at, wanted);
    PicksLast(list, kept, at, x);
    WantsLast(list, at, x, wanted);
  }

  /** An element that is not wanted changes nothing. */
  lemma SieveDrops<T>(list: seq<T>, kept: seq<T>, x: T, wanted: T -> bool)
    requires Sieves(list, kept, wanted) && !wanted(x)
    ensures Sieves(list + [x], kept, wanted)
  {
    var at: seq<nat> :| Picks(list, kept, at) && Wants(list, at, wanted);
    assert |list| !in at;
    assert Picks(list + [x], kept, at) && Wants(list + [x], at, wanted);
  }
}
