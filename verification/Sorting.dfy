/** Insertion sort by any comparison, standing for the stable library sort, and the bags it keeps. */
module Sorting {
  // ---------- bags of sequences ----------

  lemma CutBag<T>(s: seq<T>, j: nat)
    requires j < |s|
    ensures multiset(s) == multiset(s[..j] + s[j + 1..]) + multiset{s[j]}
  {
    assert s == s[..j] + [s[j]] + s[j + 1..];
  }

  lemma LastBag<T>(s: seq<T>)
    requires s != []
    ensures multiset(s) == multiset(s[..|s| - 1]) + multiset{s[|s| - 1]}
  {
    assert s == s[..|s| - 1] + [s[|s| - 1]];
  }

  lemma CancelBag<T>(a: multiset<T>, b: multiset<T>, x: T)
    requires a + multiset{x} == b + multiset{x}
    ensures a == b
  {
    assert a == a + multiset{x} - multiset{x};
  }

  lemma EmptyBags<S, T>(a: seq<S>, b: seq<T>)
    requires |multiset(a)| == |multiset(b)|
    ensures |a| == |b|
  {
  }

  lemma SameInitSameLast<T>(a: seq<T>, b: seq<T>)
    requires |a| == |b| > 0 && a[..|a| - 1] == b[..|b| - 1] && a[|a| - 1] == b[|b| - 1]
    ensures a == b
  {
    assert a == a[..|a| - 1] + [a[|a| - 1]] && b == b[..|b| - 1] + [b[|b| - 1]];
  }

  // ---------- the sort ----------

  /** Insertion from the end, past every element that must come later. */
  function Insert<T>(s: seq<T>, x: T, le: (T, T) -> bool): seq<T> {
    if s == [] || le(s[|s| - 1], x) then s + [x] else Insert(s[..|s| - 1], x, le) + [s[|s| - 1]]
  }

  function Sort<T>(s: seq<T>, le: (T, T) -> bool): seq<T> {
    if s == [] then [] else Insert(Sort(s[..|s| - 1], le), s[|s| - 1], le)
  }

  lemma {:induction false} InsertKeepsBag<T>(s: seq<T>, x: T, le: (T, T) -> bool)
    ensures multiset(Insert(s, x, le)) == multiset(s) + multiset{x}
  {
    if s == [] || le(s[|s| - 1], x) {
    } else {
      InsertKeepsBag(s[..|s| - 1], x, le);
      LastBag(s);
    }
  }

  lemma {:induction false} SortKeepsBag<T>(s: seq<T>, le: (T, T) -> bool)
    ensures multiset(Sort(s, le)) == multiset(s)
  {
    if s == [] {
    } else {
      SortKeepsBag(s[..|s| - 1], le);
      InsertKeepsBag(Sort(s[..|s| - 1], le), s[|s| - 1], le);
      LastBag(s);
    }
  }

  lemma {:induction false} InsertEnd<T>(s: seq<T>, x: T, le: (T, T) -> bool)
    ensures var r := Insert(s, x, le); |r| == |s| + 1 && (r[|s|] == x || (s != [] && r[|s|] == s[|s| - 1]))
  {
    if s == [] || le(s[|s| - 1], x) {
    } else {
      InsertEnd(s[..|s| - 1], x, le);
    }
  }

  ghost predicate Total<T(!new)>(le: (T, T) -> bool) {
    forall a, b :: le(a, b) || le(b, a)
  }

  ghost predicate Transitive<T(!new)>(le: (T, T) -> bool) {
    forall a, b, c :: le(a, b) && le(b, c) ==> le(a, c)
  }

  ghost predicate Antisymmetric<T(!new)>(le: (T, T) -> bool) {
    forall a, b :: le(a, b) && le(b, a) ==> a == b
  }

  ghost predicate InOrder<T>(s: seq<T>, le: (T, T) -> bool) {
    forall i :: 0 < i < |s| ==> le(s[i - 1], s[i])
  }

  lemma {:induction false} InsertKeepsOrder<T(!new)>(s: seq<T>, x: T, le: (T, T) -> bool)
    requires Total(le) && InOrder(s, le)
    ensures InOrder(Insert(s, x, le), le)
  {
    if s == [] || le(s[|s| - 1], x) {
    } else {
      var init, last := s[..|s| - 1], s[|s| - 1];
      InsertKeepsOrder(init, x, le);
      InsertEnd(init, x, le);
      var moved := Insert(init, x, le);
      assert moved[|init|] == x || (init != [] && moved[|init|] == s[|init| - 1]);
      assert le(moved[|init|], last);
    }
  }

  /** Sorting by a total comparison leaves every element in order with the next. */
  lemma {:induction false} SortOrders<T(!new)>(s: seq<T>, le: (T, T) -> bool)
    requires Total(le)
    ensures InOrder(Sort(s, le), le)
  {
    if s == [] {
    } else {
      SortOrders(s[..|s| - 1], le);
      InsertKeepsOrder(Sort(s[..|s| - 1], le), s[|s| - 1], le);
    }
  }

  lemma {:induction false} LastIsGreatest<T(!new)>(s: seq<T>, i: nat, le: (T, T) -> bool)
    requires Total(le) && Transitive(le) && InOrder(s, le) && i < |s|
    ensures le(s[i], s[|s| - 1])
    decreases |s| - i
  {
    if i == |s| - 1 {
    } else {
      LastIsGreatest(s, i + 1, le);
      assert le(s[i + 1 - 1], s[i + 1]);
    }
  }

  lemma GreatestAgree<T(!new)>(a: seq<T>, b: seq<T>, le: (T, T) -> bool)
    requires Total(le) && Transitive(le) && Antisymmetric(le) && InOrder(a, le) && InOrder(b, le)
    requires multiset(a) == multiset(b) && a != [] && b != []
    ensures a[|a| - 1] == b[|b| - 1]
  {
    var x, y := a[|a| - 1], b[|b| - 1];
    assert x in multiset(b) && y in multiset(a);
    var i :| 0 <= i < |b| && b[i] == x;
    var j :| 0 <= j < |a| && a[j] == y;
    LastIsGreatest(b, i, le);
    LastIsGreatest(a, j, le);
  }

  /** Under a total order, a bag has only one ordered sequence. */
  lemma {:induction false} OrderedIsUnique<T(!new)>(a: seq<T>, b: seq<T>, le: (T, T) -> bool)
    requires Total(le) && Transitive(le) && Antisymmetric(le) && InOrder(a, le) && InOrder(b, le)
    requires multiset(a) == multiset(b)
    ensures a == b
  {
    EmptyBags(a, b);
    if a == [] {
    } else {
      var n := |a| - 1;
      GreatestAgree(a, b, le);
      LastBag(a);
      LastBag(b);
      CancelBag(multiset(a[..n]), multiset(b[..n]), a[n]);
      OrderedIsUnique(a[..n], b[..n], le);
      SameInitSameLast(a, b);
    }
  }
}
