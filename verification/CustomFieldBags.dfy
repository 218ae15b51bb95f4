/** Custom fields of a secret, compared as a sorted, joined list of "label=value" lines. */
module CustomFieldBags {
  import opened JsStrings
  import opened Sorting
  import opened Splitting

  const EQUALS: CodeUnit := 0x3D
  const NEWLINE: CodeUnit := 0x0A

  datatype CustomField = CustomField(name: Text, value: Text)

  function TrimStart(s: JsString): JsString {
    if s != [] && IsSpace(s[0]) then TrimStart(s[1..]) else s
  }

  function TrimEnd(s: JsString): JsString {
    if s != [] && IsSpace(s[|s| - 1]) then TrimEnd(s[..|s| - 1]) else s
  }

  function Trim(s: JsString): JsString { TrimEnd(TrimStart(s)) }

  lemma {:induction false} TrimStartCuts(s: JsString)
    ensures exists l :: IsBlank(l) && s == l + TrimStart(s)
    ensures TrimStart(s) != [] ==> !IsSpace(TrimStart(s)[0])
  {
    if s != [] && IsSpace(s[0]) {
      TrimStartCuts(s[1..]);
      var l :| IsBlank(l) && s[1..] == l + TrimStart(s[1..]);
      assert IsBlank([s[0]] + l) && s == [s[0]] + l + TrimStart(s);
    } else {
      assert IsBlank([]) && s == [] + TrimStart(s);
    }
  }

  lemma {:induction false} TrimEndCuts(s: JsString)
    ensures exists r :: IsBlank(r) && s == TrimEnd(s) + r
    ensures TrimEnd(s) != [] ==> !IsSpace(TrimEnd(s)[|TrimEnd(s)| - 1])
  {
    if s != [] && IsSpace(s[|s| - 1]) {
      TrimEndCuts(s[..|s| - 1]);
      var r :| IsBlank(r) && s[..|s| - 1] == TrimEnd(s[..|s| - 1]) + r;
      assert IsBlank(r + [s[|s| - 1]]) && s == TrimEnd(s) + (r + [s[|s| - 1]]);
    } else {
      assert IsBlank([]) && s == TrimEnd(s) + [];
    }
  }

  /** `long` is `short` with white space before and behind it. */
  ghost predicate Pads(short: JsString, long: JsString) {
    exists l, r :: IsBlank(l) && IsBlank(r) && long == l + short + r
  }

  /** Trimming cuts only white space, and all there is at either end. */
  lemma TrimCuts(s: JsString)
    ensures Pads(Trim(s), s)
    ensures Trim(s) != [] ==> !IsSpace(Trim(s)[0]) && !IsSpace(Trim(s)[|Trim(s)| - 1])
  {
    TrimStartCuts(s);
    TrimEndCuts(TrimStart(s));
    var l :| IsBlank(l) && s == l + TrimStart(s);
    var r :| IsBlank(r) && TrimStart(s) == Trim(s) + r;
    assert s == l + Trim(s) + r;
  }

  lemma {:induction false} TrimStartPadded(l: JsString, s: JsString)
    requires IsBlank(l)
    ensures TrimStart(l + s) == TrimStart(s)
  {
    if l == [] {
      assert l + s == s;
    } else {
      assert (l + s)[1..] == l[1..] + s;
      TrimStartPadded(l[1..], s);
    }
  }

  lemma {:induction false} TrimEndPadded(s: JsString, r: JsString)
    requires IsBlank(r)
    ensures TrimEnd(s + r) == TrimEnd(s)
  {
    if r == [] {
      assert s + r == s;
    } else {
      assert (s + r)[..|s + r| - 1] == s + r[..|r| - 1];
      TrimEndPadded(s, r[..|r| - 1]);
    }
  }

  lemma {:induction false} TrimStartOfFront(s: JsString, r: JsString)
    requires IsBlank(r)
    ensures TrimEnd(TrimStart(s + r)) == TrimEnd(TrimStart(s))
  {
    if s == [] {
      TrimStartPadded(r, []);
      assert s + r == r == r + [];
    } else if IsSpace(s[0]) {
      assert (s + r)[1..] == s[1..] + r;
      TrimStartOfFront(s[1..], r);
    } else {
      TrimEndPadded(s, r);
    }
  }

  /** So two texts trim alike exactly when both pad one text. */
  lemma TrimsAgreeExactlyWhen(a: JsString, b: JsString)
    ensures Trim(a) == Trim(b) <==> exists core :: Pads(core, a) && Pads(core, b)
  {
    TrimCuts(a);
    TrimCuts(b);
    if core :| Pads(core, a) && Pads(core, b) {
      PaddedTrims(core, a);
      PaddedTrims(core, b);
    }
  }

  lemma PaddedTrims(core: JsString, s: JsString)
    requires Pads(core, s)
    ensures Trim(s) == Trim(core)
  {
    var l, r :| IsBlank(l) && IsBlank(r) && s == l + core + r;
    assert s == l + (core + r);
    TrimStartPadded(l, core + r);
    TrimStartOfFront(core, r);
  }

  // ---------- sorting strings by code unit ----------

  predicate StringLe(a: JsString, b: JsString) {
    if a == [] then true
    else if b == [] then false
    else if a[0] != b[0] then a[0] < b[0]
    else StringLe(a[1..], b[1..])
  }

  predicate Le(a: Text, b: Text) { StringLe(a.units, b.units) }

  lemma {:induction false} StringLeIsTotal(a: JsString, b: JsString)
    ensures StringLe(a, b) || StringLe(b, a)
    ensures StringLe(a, b) && StringLe(b, a) ==> a == b
  {
    if a == [] || b == [] || a[0] != b[0] {
    } else {
      StringLeIsTotal(a[1..], b[1..]);
      assert a == [a[0]] + a[1..] && b == [b[0]] + b[1..];
    }
  }

  lemma {:induction false} StringLeIsTransitive(a: JsString, b: JsString, c: JsString)
    requires StringLe(a, b) && StringLe(b, c)
    ensures StringLe(a, c)
  {
    if a == [] || a[0] != b[0] || b[0] != c[0] {
    } else {
      StringLeIsTransitive(a[1..], b[1..], c[1..]);
    }
  }

  /** Code-unit order is a total order on texts. */
  lemma LeIsAnOrder()
    ensures Total(Le) && Transitive(Le) && Antisymmetric(Le)
  {
    forall a, b ensures Le(a, b) || Le(b, a) { StringLeIsTotal(a.units, b.units); }
    forall a, b | Le(a, b) && Le(b, a) ensures a == b { StringLeIsTotal(a.units, b.units); }
    forall a, b, c | Le(a, b) && Le(b, c) ensures Le(a, c) { StringLeIsTransitive(a.units, b.units, c.units); }
  }

  // ---------- the bag of a field list ----------

  function Trimmed(f: CustomField): CustomField {
    CustomField(Text(Trim(f.name.units)), Text(Trim(f.value.units)))
  }

  /** The line of a trimmed field. */
  function Line(f: CustomField): Text { Text(f.name.units + [EQUALS] + f.value.units) }

  function AllTrimmed(list: seq<CustomField>): (r: seq<CustomField>) {
    seq(|list|, i requires 0 <= i < |list| => Trimmed(list[i]))
  }

  /** White space around names and values does not show. */
  lemma PaddedFieldsTrim(a: seq<CustomField>, b: seq<CustomField>)
    requires |a| == |b|
    requires forall i :: 0 <= i < |a| ==> Pads(a[i].name.units, b[i].name.units)
    requires forall i :: 0 <= i < |a| ==> Pads(a[i].value.units, b[i].value.units)
    ensures AllTrimmed(a) == AllTrimmed(b)
  {
    forall i | 0 <= i < |a| ensures AllTrimmed(a)[i] == AllTrimmed(b)[i] {
      PaddedTrims(a[i].name.units, b[i].name.units);
      PaddedTrims(a[i].value.units, b[i].value.units);
    }
  }

  function Lines(list: seq<CustomField>): (r: seq<Text>)
    ensures |r| == |list|
  {
    if list == [] then [] else Lines(list[..|list| - 1]) + [Line(list[|list| - 1])]
  }

  /** The printed form the diff compares. */
  function Bag(list: seq<CustomField>): JsString {
    JoinTexts(Sort(Lines(AllTrimmed(list)), Le), NEWLINE)
  }

  /** The other field's name runs on past this one's, across an equals sign, and ends where this one's value does. */
  predicate Continues(f: CustomField, g: CustomField) {
    var a, b := f.name.units, g.name.units;
    |a| < |b| && b[..|a|] == a && b[|a|] == EQUALS && f.value.units == b[|a| + 1..] + [EQUALS] + g.value.units
  }

  lemma ContinuedLine(f: CustomField, g: CustomField)
    requires Line(f) == Line(g) && |f.name.units| < |g.name.units|
    ensures Continues(f, g)
  {
    var a, b, s := f.name.units, g.name.units, Line(f).units;
    assert s == a + [EQUALS] + f.value.units == b + [EQUALS] + g.value.units;
    assert s[..|a|] == a && s[|a|] == EQUALS && s[|a| + 1..] == f.value.units;
    assert s[..|a|] == b[..|a|] && s[|a|] == b[|a|];
    assert s[|a| + 1..] == b[|a| + 1..] + [EQUALS] + g.value.units;
  }

  /** Two fields print alike exactly when they are one, or one name continues the other across an equals sign. */
  lemma LinesAgreeExactlyWhen(f: CustomField, g: CustomField)
    ensures Line(f) == Line(g) <==> f == g || Continues(f, g) || Continues(g, f)
  {
    var a, b := f.name.units, g.name.units;
    if Continues(f, g) {
      assert b == a + [EQUALS] + b[|a| + 1..];
      assert Line(g).units == a + [EQUALS] + (b[|a| + 1..] + [EQUALS] + g.value.units);
    } else if Continues(g, f) {
      assert a == b + [EQUALS] + a[|b| + 1..];
      assert Line(f).units == b + [EQUALS] + (a[|b| + 1..] + [EQUALS] + f.value.units);
    } else if Line(f) == Line(g) {
      SameLengthSameField(f, g);
    }
  }

  lemma SameLengthSameField(f: CustomField, g: CustomField)
    requires Line(f) == Line(g) && !Continues(f, g) && !Continues(g, f)
    ensures f == g
  {
    var a, b, s := f.name.units, g.name.units, Line(f).units;
    if |a| < |b| { ContinuedLine(f, g); }
    if |b| < |a| { ContinuedLine(g, f); }
    assert s[..|a|] == a && s[|a| + 1..] == f.value.units;
    assert s[..|b|] == b && s[|b| + 1..] == g.value.units;
  }

  /** A field that prints on one line. */
  predicate Unbroken(f: CustomField) { NEWLINE !in f.name.units && NEWLINE !in f.value.units }

  /** A field whose line can also be read back. */
  predicate Readable(f: CustomField) { EQUALS !in f.name.units && Unbroken(f) }

  lemma LineIsInjective(f: CustomField, g: CustomField)
    requires Readable(f) && Readable(g) && Line(f) == Line(g)
    ensures f == g
  {
    LinesAgreeExactlyWhen(f, g);
    assert !Continues(f, g) && !Continues(g, f);
  }

  ghost predicate AllUnbroken(list: seq<CustomField>) {
    forall f :: f in list ==> Unbroken(f)
  }

  ghost predicate AllReadable(list: seq<CustomField>) {
    forall f :: f in list ==> Readable(f)
  }

  lemma LinesSnoc(list: seq<CustomField>, f: CustomField)
    ensures Lines(list + [f]) == Lines(list) + [Line(f)]
  {
    assert (list + [f])[..|list|] == list;
  }

  lemma CutSnoc<T>(s: seq<T>, j: nat)
    requires j < |s| - 1
    ensures var init := s[..|s| - 1]; s[..j] + s[j + 1..] == init[..j] + init[j + 1..] + [s[|s| - 1]]
  {
  }

  lemma {:induction false} LinesCut(list: seq<CustomField>, j: nat)
    requires j < |list|
    ensures Lines(list)[j] == Line(list[j])
    ensures multiset(Lines(list)) == multiset(Lines(list[..j] + list[j + 1..])) + multiset{Line(list[j])}
  {
    var n := |list| - 1;
    var init := list[..n];
    if j == n {
      assert list[..j] + list[j + 1..] == init;
    } else {
      LinesCut(init, j);
      LinesSnoc(init[..j] + init[j + 1..], list[n]);
      CutSnoc(list, j);
    }
  }

  lemma {:induction false} SameFieldsSameLines(a: seq<CustomField>, b: seq<CustomField>)
    requires multiset(a) == multiset(b)
    ensures multiset(Lines(a)) == multiset(Lines(b))
  {
    EmptyBags(a, b);
    if a == [] {
    } else {
      var n, f := |a| - 1, a[|a| - 1];
      assert f in multiset(b);
      var j :| 0 <= j < |b| && b[j] == f;
      LastBag(a);
      CutBag(b, j);
      CancelBag(multiset(a[..n]), multiset(b[..j] + b[j + 1..]), f);
      SameFieldsSameLines(a[..n], b[..j] + b[j + 1..]);
      LinesCut(b, j);
      LastBag(Lines(a));
    }
  }

  lemma {:induction false} SameLinesSameFields(a: seq<CustomField>, b: seq<CustomField>)
    requires AllReadable(a) && AllReadable(b) && multiset(Lines(a)) == multiset(Lines(b))
    ensures multiset(a) == multiset(b)
  {
    EmptyBags(Lines(a), Lines(b));
    if a == [] {
    } else {
      var n, f := |a| - 1, a[|a| - 1];
      LastBag(Lines(a));
      var j := LineFound(Line(f), b);
      LineIsInjective(f, b[j]);
      LinesCut(b, j);
      var cut := b[..j] + b[j + 1..];
      CancelBag(multiset(Lines(a[..n])), multiset(Lines(cut)), Line(f));
      CutReadable(b, j);
      SameLinesSameFields(a[..n], cut);
      LastBag(a);
      CutBag(b, j);
    }
  }

  lemma CutReadable(list: seq<CustomField>, j: nat)
    requires j < |list| && AllReadable(list)
    ensures AllReadable(list[..j] + list[j + 1..])
  {
  }

  lemma LineFound(line: Text, list: seq<CustomField>) returns (j: nat)
    requires line in multiset(Lines(list))
    ensures j < |list| && Line(list[j]) == line
  {
    j :| 0 <= j < |list| && Lines(list)[j] == line;
    LinesCut(list, j);
  }

  lemma {:induction false} LineHolds(list: seq<CustomField>, i: nat)
    requires i < |list|
    ensures Lines(list)[i] == Line(list[i])
  {
    if i == |list| - 1 {
    } else {
      LineHolds(list[..|list| - 1], i);
    }
  }

  lemma UnbrokenLine(list: seq<CustomField>, i: nat)
    requires AllUnbroken(list) && i < |list|
    ensures NEWLINE !in Lines(list)[i].units && Lines(list)[i].units != []
  {
    LineHolds(list, i);
    assert list[i] in list;
  }

  lemma SortedFrom(s: seq<Text>, i: nat) returns (j: nat)
    requires i < |Sort(s, Le)|
    ensures j < |s| && s[j] == Sort(s, Le)[i]
  {
    SortKeepsBag(s, Le);
    assert Sort(s, Le)[i] in multiset(Sort(s, Le));
    j :| 0 <= j < |s| && s[j] == Sort(s, Le)[i];
  }

  lemma SortedLinesAreFree(list: seq<CustomField>)
    requires AllUnbroken(list)
    ensures Free(Sort(Lines(list), Le), NEWLINE)
  {
    var sorted := Sort(Lines(list), Le);
    forall i | 0 <= i < |sorted| ensures NEWLINE !in sorted[i].units && sorted[i].units != [] {
      var j := SortedFrom(Lines(list), i);
      UnbrokenLine(list, j);
    }
  }

  lemma SortForgetsOrder(a: seq<Text>, b: seq<Text>)
    ensures Sort(a, Le) == Sort(b, Le) <==> multiset(a) == multiset(b)
  {
    LeIsAnOrder();
    SortOrders(a, Le);
    SortOrders(b, Le);
    SortKeepsBag(a, Le);
    SortKeepsBag(b, Le);
    if multiset(a) == multiset(b) { OrderedIsUnique(Sort(a, Le), Sort(b, Le), Le); }
  }

  /** Reordering fields never shows as a change, whatever they hold. */
  lemma BagIgnoresOrder(a: seq<CustomField>, b: seq<CustomField>)
    requires multiset(AllTrimmed(a)) == multiset(AllTrimmed(b))
    ensures Bag(a) == Bag(b)
  {
    SameFieldsSameLines(AllTrimmed(a), AllTrimmed(b));
    SortForgetsOrder(Lines(AllTrimmed(a)), Lines(AllTrimmed(b)));
  }

  /** The printed lines of a list, sorted and cut again at every line break. */
  function LinePieces(list: seq<CustomField>): Parts {
    Pieces(PartsOf(Sort(Lines(AllTrimmed(list)), Le)), NEWLINE)
  }

  /** Any two lists have the same bag exactly when their sorted lines, each cut at its own line breaks, are the same. */
  lemma BagsAgreeExactlyWhen(a: seq<CustomField>, b: seq<CustomField>)
    ensures Bag(a) == Bag(b) <==> LinePieces(a) == LinePieces(b)
  {
    JoinsAgreeExactlyWhen(
      PartsOf(Sort(Lines(AllTrimmed(a)), Le)), PartsOf(Sort(Lines(AllTrimmed(b)), Le)), NEWLINE);
  }

  /** For fields without line breaks, the bags agree exactly when the lists print the same lines. */
  lemma BagsCompareLines(a: seq<CustomField>, b: seq<CustomField>)
    requires AllUnbroken(AllTrimmed(a)) && AllUnbroken(AllTrimmed(b))
    ensures Bag(a) == Bag(b) <==> multiset(Lines(AllTrimmed(a))) == multiset(Lines(AllTrimmed(b)))
  {
    var la, lb := Lines(AllTrimmed(a)), Lines(AllTrimmed(b));
    SortedLinesAreFree(AllTrimmed(a));
    SortedLinesAreFree(AllTrimmed(b));
    JoinIsInjective(Sort(la, Le), Sort(lb, Le), NEWLINE);
    SortForgetsOrder(la, lb);
  }

  /** For readable fields, the bags agree exactly when the lists hold the same trimmed fields. */
  lemma BagsCompareFields(a: seq<CustomField>, b: seq<CustomField>)
    requires AllReadable(AllTrimmed(a)) && AllReadable(AllTrimmed(b))
    ensures Bag(a) == Bag(b) <==> multiset(AllTrimmed(a)) == multiset(AllTrimmed(b))
  {
    BagsCompareLines(a, b);
    if multiset(Lines(AllTrimmed(a))) == multiset(Lines(AllTrimmed(b))) {
      SameLinesSameFields(AllTrimmed(a), AllTrimmed(b));
    }
    if multiset(AllTrimmed(a)) == multiset(AllTrimmed(b)) {
      SameFieldsSameLines(AllTrimmed(a), AllTrimmed(b));
    }
  }

  /** An equals sign in a label can hide a change: "a=b" holding "c" and "a" holding "b=c" print the same line. */
  lemma RenamedFieldCanBeMissed()
    ensures var f, g :=
              CustomField(Text([0x61, 0x3D, 0x62]), Text([0x63])), CustomField(Text([0x61]), Text([0x62, 0x3D, 0x63]));
            Trimmed(f) == f != g == Trimmed(g) && Bag([f]) == Bag([g])
  {
    var a: CodeUnit, b: CodeUnit, c: CodeUnit := 0x61, 0x62, 0x63;
    var f, g := CustomField(Text([a, EQUALS, b]), Text([c])), CustomField(Text([a]), Text([b, EQUALS, c]));
    assert Line(f).units == [a, EQUALS, b, EQUALS, c] == Line(g).units;
    assert AllTrimmed([f]) == [f] && AllTrimmed([g]) == [g];
    assert [f][..0] == [] && [g][..0] == [];
    assert Lines([f]) == Lines([g]);
  }

  /** So can a line break in a value: "a" holding "a", a break and "b=b" prints the lines of the two fields in it. */
  lemma BrokenFieldCanBeMissed()
    ensures var f := CustomField(Text([0x61]), Text([0x61, 0x0A, 0x62, 0x3D, 0x62]));
            var g, h := CustomField(Text([0x61]), Text([0x61])), CustomField(Text([0x62]), Text([0x62]));
            && Trimmed(f) == f && Trimmed(g) == g && Trimmed(h) == h
            && Bag([f]) == Bag([g, h])
  {
    var a: CodeUnit, b: CodeUnit := 0x61, 0x62;
    var f := CustomField(Text([a]), Text([a, NEWLINE, b, EQUALS, b]));
    var g, h := CustomField(Text([a]), Text([a])), CustomField(Text([b]), Text([b]));
    TrimmedBreak(a, b);
    BagOfOne(f);
    BagOfTwo(g, h);
    assert Line(g).units == [a, EQUALS, a] && Line(h).units == [b, EQUALS, b];
    assert Line(f).units == [a, EQUALS, a] + [NEWLINE] + [b, EQUALS, b];
  }

  lemma TrimmedBreak(a: CodeUnit, b: CodeUnit)
    requires !IsSpace(a) && !IsSpace(b)
    ensures Trim([a]) == [a] && Trim([b]) == [b]
    ensures Trim([a, NEWLINE, b, EQUALS, b]) == [a, NEWLINE, b, EQUALS, b]
  {
  }

  lemma BagOfOne(f: CustomField)
    requires Trimmed(f) == f
    ensures Bag([f]) == Line(f).units
  {
    var lines := [Line(f)];
    assert AllTrimmed([f]) == [f];
    LinesSnoc([], f);
    assert [] + [f] == [f] && Lines([f]) == lines;
    assert lines[..0] == [] && Sort(lines, Le) == lines;
  }

  lemma BagOfTwo(g: CustomField, h: CustomField)
    requires Trimmed(g) == g && Trimmed(h) == h && Le(Line(g), Line(h))
    ensures Bag([g, h]) == Line(g).units + [NEWLINE] + Line(h).units
  {
    var lines := [Line(g), Line(h)];
    assert AllTrimmed([g, h]) == [g, h];
    LinesSnoc([], g);
    LinesSnoc([g], h);
    assert [] + [g] == [g] && [g] + [h] == [g, h] && Lines([g, h]) == lines;
    assert lines[..1] == [Line(g)] && [Line(g)][..0] == [];
    assert Sort([Line(g)], Le) == [Line(g)];
    assert Sort(lines, Le) == lines && lines[1..] == [Line(h)];
    assert PartsOf(lines) == More(Line(g).units, One(Line(h).units));
    assert Join(One(Line(h).units), NEWLINE) == Line(h).units;
  }
}
