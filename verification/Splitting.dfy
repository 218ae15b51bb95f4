/** `split` and `join` on one code unit. */
module Splitting {
  import opened JsStrings

  /** The first position of the code unit, or the length when it does not occur. */
  function IndexOf(s: JsString, u: CodeUnit): (i: nat)
    ensures i <= |s|
    ensures i < |s| ==> s[i] == u
    ensures forall k :: 0 <= k < i ==> s[k] != u
    decreases |s|
  {
    if s == [] || s[0] == u then 0 else 1 + IndexOf(s[1..], u)
  }

  lemma {:induction false} FirstIsFirst(a: JsString, u: CodeUnit, b: JsString)
    requires u !in a
    ensures IndexOf(a + [u] + b, u) == |a|
    ensures IndexOf(a, u) == |a|
    decreases |a|
  {
    if a == [] {
    } else {
      assert (a + [u] + b)[1..] == a[1..] + [u] + b;
      FirstIsFirst(a[1..], u, b);
    }
  }

  /** What `split` returns: at least one part. */
  datatype Parts = One(part: JsString) | More(part: JsString, rest: Parts)

  function Split(s: JsString, u: CodeUnit): Parts
    decreases |s|
  {
    var i := IndexOf(s, u);
    if i == |s| then One(s) else More(s[..i], Split(s[i + 1..], u))
  }

  function Join(parts: Parts, u: CodeUnit): JsString {
    match parts
    case One(part) => part
    case More(part, rest) => part + [u] + Join(rest, u)
  }

  lemma SplitAt(a: JsString, u: CodeUnit, b: JsString)
    requires u !in a
    ensures Split(a + [u] + b, u) == More(a, Split(b, u))
  {
    var s := a + [u] + b;
    FirstIsFirst(a, u, b);
    assert s[..|a|] == a && s[|a| + 1..] == b;
  }

  // ---------- when two joins agree ----------

  function Concat(a: Parts, b: Parts): Parts {
    match a
    case One(part) => More(part, b)
    case More(part, rest) => More(part, Concat(rest, b))
  }

  /** The parts, each split again at the separator. */
  function Pieces(parts: Parts, u: CodeUnit): Parts {
    match parts
    case One(part) => Split(part, u)
    case More(part, rest) => Concat(Split(part, u), Pieces(rest, u))
  }

  lemma {:induction false} JoinUndoesSplit(s: JsString, u: CodeUnit)
    ensures Join(Split(s, u), u) == s
    decreases |s|
  {
    var i := IndexOf(s, u);
    if i == |s| {
    } else {
      JoinUndoesSplit(s[i + 1..], u);
      CutAt(s, i);
    }
  }

  lemma {:induction false} SplitConcat(s: JsString, u: CodeUnit, t: JsString)
    ensures Split(s + [u] + t, u) == Concat(Split(s, u), Split(t, u))
    decreases |s|
  {
    var i := IndexOf(s, u);
    if i == |s| {
      SplitAt(s, u, t);
    } else {
      var head, tail := s[..i], s[i + 1..];
      CutAt(s, i);
      SplitConcat(tail, u, t);
      assert s + [u] + t == head + [u] + (tail + [u] + t);
      SplitAt(head, u, tail + [u] + t);
    }
  }

  lemma {:induction false} SplitOfJoin(parts: Parts, u: CodeUnit)
    ensures Split(Join(parts, u), u) == Pieces(parts, u)
  {
    match parts
    case One(_) =>
    case More(part, rest) =>
      SplitOfJoin(rest, u);
      SplitConcat(part, u, Join(rest, u));
  }

  /** Joined strings agree exactly when their parts agree once each is split again. */
  lemma JoinsAgreeExactlyWhen(a: Parts, b: Parts, u: CodeUnit)
    ensures Join(a, u) == Join(b, u) <==> Pieces(a, u) == Pieces(b, u)
  {
    SplitOfJoin(a, u);
    SplitOfJoin(b, u);
    JoinUndoesSplit(Join(a, u), u);
    JoinUndoesSplit(Join(b, u), u);
  }

  // ---------- joining an array ----------

  /** The parts an array joins; an empty array joins like one empty string. */
  function PartsOf(list: seq<Text>): Parts {
    if list == [] then One([])
    else if |list| == 1 then One(list[0].units)
    else More(list[0].units, PartsOf(list[1..]))
  }

  function JoinTexts(list: seq<Text>, u: CodeUnit): JsString { Join(PartsOf(list), u) }

  /** No entry is empty or holds the separator. */
  ghost predicate Free(list: seq<Text>, u: CodeUnit) {
    forall i :: 0 <= i < |list| ==> u !in list[i].units && list[i].units != []
  }

  lemma {:induction false} FreePieces(list: seq<Text>, u: CodeUnit)
    requires Free(list, u)
    ensures Pieces(PartsOf(list), u) == PartsOf(list)
  {
    if list == [] {
    } else {
      FirstIsFirst(list[0].units, u, []);
      if |list| > 1 { FreePieces(list[1..], u); }
    }
  }

  lemma {:induction false} PartsOfDiffer(a: seq<Text>, b: seq<Text>, u: CodeUnit)
    requires Free(a, u) && Free(b, u) && PartsOf(a) == PartsOf(b)
    ensures a == b
  {
    if a == [] || b == [] {
    } else {
      assert a[0] == b[0];
      if |a| == 1 || |b| == 1 {
      } else {
        PartsOfDiffer(a[1..], b[1..], u);
        assert a == [a[0]] + a[1..] && b == [b[0]] + b[1..];
      }
    }
  }

  /** Arrays free of the separator and of empty entries join alike only when they are equal. */
  lemma JoinIsInjective(a: seq<Text>, b: seq<Text>, u: CodeUnit)
    requires Free(a, u) && Free(b, u)
    ensures JoinTexts(a, u) == JoinTexts(b, u) <==> a == b
  {
    JoinsAgreeExactlyWhen(PartsOf(a), PartsOf(b), u);
    FreePieces(a, u);
    FreePieces(b, u);
    if PartsOf(a) == PartsOf(b) { PartsOfDiffer(a, b, u); }
  }
}
