/** The sales overview and the opportunity heatmap: one set of filters, queried through two different paths. */
module Analytics {
  import opened JsStrings
  import opened Sieving

  const QUALIFIED_THRESHOLD := 50
  const HOT_THRESHOLD := 75
  const CELL_COUNT := 168

  type Dow = d: nat | d < 7

  type Hour = h: nat | h < 24

  /** A post's slot as PostgreSQL numbers it: day 0 is Sunday. */
  datatype PgSlot = PgSlot(dow: Dow, hour: Hour)

  /** A row of job posts; its slot is what the time zone of the query makes of `createdAt`. */
  datatype Post = Post(
    createdAt: int,
    matchScore: Option<int>,
    location: Option<Text>,
    skills: seq<Text>,
    slot: PgSlot)

  datatype Window = Window(from: int, to: int)

  datatype Filters = Filters(
    scoreMin: Option<int>,
    scoreMax: Option<int>,
    technology: Option<seq<Text>>,
    clientCountry: Option<seq<Text>>)

  // ---------- what the filters mean ----------

  predicate AtLeast(score: Option<int>, n: int) { score.Some? && score.value >= n }

  predicate AtMost(score: Option<int>, n: int) { score.Some? && score.value <= n }

  predicate Overlap(a: seq<Text>, b: seq<Text>) { exists t :: t in a && t in b }

  predicate Listed(list: Option<seq<Text>>) { list.Some? && |list.value| > 0 }

  predicate InWindow(w: Window, p: Post) { w.from <= p.createdAt < w.to }

  /** An unset bound or an empty list asks for nothing; a set one is never met by a null column. */
  predicate Wanted(f: Filters, p: Post) {
    && (f.scoreMin.Some? ==> AtLeast(p.matchScore, f.scoreMin.value))
    && (f.scoreMax.Some? ==> AtMost(p.matchScore, f.scoreMax.value))
    && (Listed(f.technology) ==> Overlap(f.technology.value, p.skills))
    && (Listed(f.clientCountry) ==> p.location.Some? && p.location.value in f.clientCountry.value)
  }

  /** Each filter narrows on its own what the others select; with none set, every post is wanted. */
  lemma FiltersNarrow(f: Filters, n: int, list: seq<Text>, p: Post)
    ensures Wanted(Filters(None, None, None, None), p)
    ensures Wanted(f.(scoreMin := Some(n)), p)
       <==> Wanted(f.(scoreMin := None), p) && p.matchScore.Some? && p.matchScore.value >= n
    ensures Wanted(f.(scoreMax := Some(n)), p)
       <==> Wanted(f.(scoreMax := None), p) && p.matchScore.Some? && p.matchScore.value <= n
    ensures Wanted(f.(technology := Some(list)), p)
       <==> Wanted(f.(technology := None), p) && (list == [] || exists t :: t in list && t in p.skills)
    ensures Wanted(f.(clientCountry := Some(list)), p)
       <==> Wanted(f.(clientCountry := None), p) && (list == [] || (p.location.Some? && p.location.value in list))
  {
  }

  function WantedIn(posts: seq<Post>, f: Filters, w: Window): seq<Post> {
    if posts == [] then []
    else
      var p := posts[|posts| - 1];
      WantedIn(posts[..|posts| - 1], f, w) + if Wanted(f, p) && InWindow(w, p) then [p] else []
  }

  /** The posts whose score reaches the bound; a post without a score never does. */
  function Above(sel: seq<Post>, n: int): seq<Post> {
    if sel == [] then []
    else
      var p := sel[|sel| - 1];
      Above(sel[..|sel| - 1], n) + if AtLeast(p.matchScore, n) then [p] else []
  }

  /** The wanted posts of a window are all of them, in order, whatever the table holds besides. */
  lemma {:induction false} WantedInSieves(posts: seq<Post>, f: Filters, w: Window)
    ensures Sieves(posts, WantedIn(posts, f, w), (p: Post) => Wanted(f, p) && w.from <= p.createdAt < w.to)
  {
    var keep := (p: Post) => Wanted(f, p) && w.from <= p.createdAt < w.to;
    if posts == [] {
      NothingSieved(keep);
    } else {
      var init, p := posts[..|posts| - 1], posts[|posts| - 1];
      WantedInSieves(init, f, w);
      assert posts == init + [p];
      if keep(p) { SieveKeeps(init, WantedIn(init, f, w), p, keep); }
      else { SieveDrops(init, WantedIn(init, f, w), p, keep); }
    }
  }

  lemma {:induction false} AboveSieves(sel: seq<Post>, n: int)
    ensures Sieves(sel, Above(sel, n), (p: Post) => p.matchScore.Some? && p.matchScore.value >= n)
  {
    var keep := (p: Post) => p.matchScore.Some? && p.matchScore.value >= n;
    if sel == [] {
      NothingSieved(keep);
    } else {
      var init, p := sel[..|sel| - 1], sel[|sel| - 1];
      AboveSieves(init, n);
      assert sel == init + [p];
      if keep(p) { SieveKeeps(init, Above(init, n), p, keep); }
      else { SieveDrops(init, Above(init, n), p, keep); }
    }
  }

  // ---------- the Prisma path ----------

  /** `not` distinguishes a missing entry, `not: null` and `not: n`. */
  datatype IntFilter = IntFilter(gte: Option<int>, lte: Option<int>, not: Option<Option<int>>)

  datatype ScoreWhere = AnyScore | ExactScore(n: int) | ScoreIn(filter: IntFilter)

  datatype PostWhere = PostWhere(
    score: ScoreWhere,
    hasSome: Option<seq<Text>>,
    locationIn: Option<seq<Text>>,
    createdAt: Option<Window>)

  predicate FilterMatches(f: IntFilter, score: Option<int>) {
    && (f.gte.Some? ==> AtLeast(score, f.gte.value))
    && (f.lte.Some? ==> AtMost(score, f.lte.value))
    && (f.not.Some? ==> score.Some? && f.not.value != score)
  }

  predicate ScoreMatches(w: ScoreWhere, score: Option<int>) {
    match w
    case AnyScore => true
    case ExactScore(n) => score == Some(n)
    case ScoreIn(f) => FilterMatches(f, score)
  }

  predicate PrismaMatches(w: PostWhere, p: Post) {
    && ScoreMatches(w.score, p.matchScore)
    && (w.hasSome.Some? ==> Overlap(w.hasSome.value, p.skills))
    && (w.locationIn.Some? ==> p.location.Some? && p.location.value in w.locationIn.value)
    && (w.createdAt.Some? ==> InWindow(w.createdAt.value, p))
  }

  function PrismaSelect(posts: seq<Post>, w: PostWhere): seq<Post> {
    if posts == [] then []
    else
      var p := posts[|posts| - 1];
      PrismaSelect(posts[..|posts| - 1], w) + if PrismaMatches(w, p) then [p] else []
  }

  /** The where-object of a filter set: it selects exactly the wanted posts, at any time. */
  method BuildWhere(filters: Filters) returns (w: PostWhere)
    ensures forall p :: PrismaMatches(w, p) <==> Wanted(filters, p)
    ensures w.createdAt.None? && Mergeable(w)
  {
    w := PostWhere(AnyScore, None, None, None);
    if filters.scoreMin.Some? || filters.scoreMax.Some? {
      var f := IntFilter(None, None, None);
      if filters.scoreMin.Some? { f := f.(gte := Some(filters.scoreMin.value)); }
      if filters.scoreMax.Some? { f := f.(lte := Some(filters.scoreMax.value)); }
      w := w.(score := ScoreIn(f));
    }
    if Listed(filters.technology) { w := w.(hasSome := filters.technology); }
    if Listed(filters.clientCountry) { w := w.(locationIn := filters.clientCountry); }
  }

  /** The shapes `BuildWhere` makes: no exact score and no `not`. */
  predicate Mergeable(w: PostWhere) {
    w.score.AnyScore? || (w.score.ScoreIn? && w.score.filter.not.None?)
  }

  /** What a merge keeps of the caller's constraint: an exact score, or a `not` the extra one overwrites, is lost. */
  function KeptPart(w: PostWhere, extra: IntFilter): PostWhere {
    match w.score
    case AnyScore => w
    case ExactScore(_) => w.(score := AnyScore)
    case ScoreIn(f) => if extra.not.Some? then w.(score := ScoreIn(f.(not := None))) else w
  }

  method WithMatchScoreConstraint(w: PostWhere, extra: IntFilter) returns (merged: PostWhere)
    ensures forall p ::
              PrismaMatches(merged, p)
              <==> PrismaMatches(KeptPart(w, extra), p) && FilterMatches(extra, p.matchScore)
    ensures Mergeable(w) ==> KeptPart(w, extra) == w
    ensures merged.(score := w.score) == w
  {
    if !w.score.ScoreIn? {
      return w.(score := ScoreIn(extra));
    }
    var f := w.score.filter;
    if extra.gte.Some? {
      f := f.(gte := Some(if f.gte.Some? && f.gte.value > extra.gte.value then f.gte.value else extra.gte.value));
    }
    if extra.lte.Some? {
      f := f.(lte := Some(if f.lte.Some? && f.lte.value < extra.lte.value then f.lte.value else extra.lte.value));
    }
    if extra.not.Some? {
      f := f.(not := extra.not);
    }
    merged := w.(score := ScoreIn(f));
  }

  /** The exact shapes whose merge is the conjunction with every extra constraint. */
  lemma MergeIsConjunctionExactlyWhen(w: PostWhere)
    ensures (forall extra, p :: PrismaMatches(w, p) && FilterMatches(extra, p.matchScore)
                            <==> PrismaMatches(KeptPart(w, extra), p) && FilterMatches(extra, p.matchScore))
            <==> !Overwritable(w) || Unmatchable(w)
  {
    if Overwritable(w) && !Unmatchable(w) {
      var met :| PrismaMatches(w.(score := AnyScore), met);
      var n := LostScore(w);
      var p, extra := met.(matchScore := Some(n)), IntFilter(None, None, Some(None));
      assert !PrismaMatches(w, p) && FilterMatches(extra, p.matchScore);
      assert PrismaMatches(KeptPart(w, extra), p);
    } else {
      forall extra, p
        ensures PrismaMatches(w, p) && FilterMatches(extra, p.matchScore)
           <==> PrismaMatches(KeptPart(w, extra), p) && FilterMatches(extra, p.matchScore)
      {
        assert Unmatchable(w) ==> !PrismaMatches(w.(score := AnyScore), p);
      }
    }
  }

  /** An exact score, or a `not` whose number the bounds leave in. */
  predicate Overwritable(w: PostWhere) {
    || w.score.ExactScore?
    || (w.score.ScoreIn? && w.score.filter.not.Some? && w.score.filter.not.value.Some?
        && FilterMatches(w.score.filter.(not := None), w.score.filter.not.value))
  }

  /** No post meets the rest of the where-object, whatever its score. */
  ghost predicate Unmatchable(w: PostWhere) {
    forall p :: !PrismaMatches(w.(score := AnyScore), p)
  }

  function LostScore(w: PostWhere): int
    requires Overwritable(w)
  {
    if w.score.ExactScore? then w.score.n + 1 else w.score.filter.not.value.value
  }

  datatype Kpi = Kpi(received: nat, qualified: nat, hot: nat)

  function KpiOf(sel: seq<Post>): Kpi {
    Kpi(|sel|, |Above(sel, QUALIFIED_THRESHOLD)|, |Above(sel, HOT_THRESHOLD)|)
  }

  lemma {:induction false} SelectAbove(posts: seq<Post>, w: PostWhere, merged: PostWhere, n: int)
    requires forall p :: PrismaMatches(merged, p) <==> PrismaMatches(w, p) && AtLeast(p.matchScore, n)
    ensures PrismaSelect(posts, merged) == Above(PrismaSelect(posts, w), n)
  {
    if posts == [] {
    } else {
      var init, p := posts[..|posts| - 1], posts[|posts| - 1];
      SelectAbove(init, w, merged, n);
      AboveSnoc(PrismaSelect(init, w), p, n);
      assert PrismaSelect(init, w) + [] == PrismaSelect(init, w);
    }
  }

  lemma AboveSnoc(sel: seq<Post>, p: Post, n: int)
    ensures Above(sel + [p], n) == Above(sel, n) + if AtLeast(p.matchScore, n) then [p] else []
  {
    assert (sel + [p])[..|sel|] == sel;
  }

  lemma {:induction false} PrismaSelectsWanted(posts: seq<Post>, w: PostWhere, f: Filters, window: Window)
    requires forall p :: PrismaMatches(w, p) <==> Wanted(f, p) && InWindow(window, p)
    ensures PrismaSelect(posts, w) == WantedIn(posts, f, window)
  {
    if posts == [] {
    } else {
      PrismaSelectsWanted(posts[..|posts| - 1], w, f, window);
    }
  }

  method AggregateKpi(posts: seq<Post>, w: PostWhere) returns (kpi: Kpi)
    ensures kpi.received == |PrismaSelect(posts, w)|
    ensures Mergeable(w) ==>
              var sel := PrismaSelect(posts, w);
              kpi == KpiOf(sel) && kpi.qualified == |Above(sel, 50)| && kpi.hot == |Above(sel, 75)|
  {
    var qualified := WithMatchScoreConstraint(w, IntFilter(Some(QUALIFIED_THRESHOLD), None, None));
    var hot := WithMatchScoreConstraint(w, IntFilter(Some(HOT_THRESHOLD), None, None));
    kpi := Kpi(|PrismaSelect(posts, w)|, |PrismaSelect(posts, qualified)|, |PrismaSelect(posts, hot)|);
    if Mergeable(w) {
      SelectAbove(posts, w, qualified, QUALIFIED_THRESHOLD);
      SelectAbove(posts, w, hot, HOT_THRESHOLD);
    }
  }

  function PreviousWindow(w: Window): Window {
    var duration := w.to - w.from;
    Window(w.from - duration, w.from)
  }

  method GetSalesOverview(posts: seq<Post>, filters: Filters, current: Window) returns (cur: Kpi, prev: Kpi)
    ensures cur == KpiOf(WantedIn(posts, filters, current))
    ensures prev == KpiOf(WantedIn(posts, filters, Window(2 * current.from - current.to, current.from)))
  {
    var previous := PreviousWindow(current);
    var base := BuildWhere(filters);
    cur := AggregateKpi(posts, base.(createdAt := Some(current)));
    prev := AggregateKpi(posts, base.(createdAt := Some(previous)));
    PrismaSelectsWanted(posts, base.(createdAt := Some(current)), filters, current);
    PrismaSelectsWanted(posts, base.(createdAt := Some(previous)), filters, previous);
  }

  /** The two windows of the overview split the doubled one: no post is in both, and none between them is missed. */
  lemma {:induction false} WindowsAbut(posts: seq<Post>, f: Filters, w: Window)
    ensures var doubled := Window(2 * w.from - w.to, w.to);
            |WantedIn(posts, f, PreviousWindow(w))| + |WantedIn(posts, f, w)| == |WantedIn(posts, f, doubled)|
  {
    if posts == [] {
    } else {
      WindowsAbut(posts[..|posts| - 1], f, w);
    }
  }

  // ---------- the SQL path ----------

  /** The three truth values of SQL; a row is kept only when its condition is true. */
  datatype Truth = True | False | Unknown

  datatype SqlPart =
    | CreatedWithin(w: Window)
    | ScoreAtLeast(n: int)
    | ScoreAtMost(n: int)
    | SkillsOverlap(list: seq<Text>)
    | LocationIn(list: seq<Text>)

  function Known(b: bool): Truth { if b then True else False }

  function And(a: Truth, b: Truth): Truth {
    if a == False || b == False then False
    else if a == Unknown || b == Unknown then Unknown
    else True
  }

  function Holds(part: SqlPart, p: Post): Truth {
    match part
    case CreatedWithin(w) => And(Known(p.createdAt >= w.from), Known(p.createdAt < w.to))
    case ScoreAtLeast(n) => if p.matchScore.None? then Unknown else Known(p.matchScore.value >= n)
    case ScoreAtMost(n) => if p.matchScore.None? then Unknown else Known(p.matchScore.value <= n)
    case SkillsOverlap(list) => Known(Overlap(p.skills, list))
    case LocationIn(list) => if p.location.None? then Unknown else Known(p.location.value in list)
  }

  /** The parts joined by AND. */
  function Joined(parts: seq<SqlPart>, p: Post): Truth {
    if parts == [] then True else And(Joined(parts[..|parts| - 1], p), Holds(parts[|parts| - 1], p))
  }

  function SqlSelect(posts: seq<Post>, parts: seq<SqlPart>): seq<Post> {
    if posts == [] then []
    else
      var p := posts[|posts| - 1];
      SqlSelect(posts[..|posts| - 1], parts) + if Joined(parts, p) == True then [p] else []
  }

  /** An AND chain is true exactly when each of its parts is. */
  lemma {:induction false} JoinedIsAll(parts: seq<SqlPart>, p: Post)
    ensures Joined(parts, p) == True <==> forall part :: part in parts ==> Holds(part, p) == True
  {
    if parts == [] {
    } else {
      var init := parts[..|parts| - 1];
      JoinedIsAll(init, p);
      assert forall part :: part in parts <==> part in init || part == parts[|parts| - 1];
    }
  }

  /** The joined condition: it is true of exactly the wanted posts of the window. */
  method BuildWhereSql(filters: Filters, window: Window) returns (parts: seq<SqlPart>)
    ensures forall p :: Joined(parts, p) == True <==> Wanted(filters, p) && InWindow(window, p)
  {
    parts := [CreatedWithin(window)];
    if filters.scoreMin.Some? { parts := parts + [ScoreAtLeast(filters.scoreMin.value)]; }
    if filters.scoreMax.Some? { parts := parts + [ScoreAtMost(filters.scoreMax.value)]; }
    if Listed(filters.technology) { parts := parts + [SkillsOverlap(filters.technology.value)]; }
    if Listed(filters.clientCountry) { parts := parts + [LocationIn(filters.clientCountry.value)]; }
    ghost var asked := AskedParts(filters, window);
    assert forall part :: part in parts <==> part in asked;
    forall p ensures Joined(parts, p) == True <==> Wanted(filters, p) && InWindow(window, p) {
      JoinedIsAll(parts, p);
      AskedPartsMean(filters, window, p);
    }
  }

  ghost function AskedParts(f: Filters, w: Window): set<SqlPart> {
    {CreatedWithin(w)}
    + (if f.scoreMin.Some? then {ScoreAtLeast(f.scoreMin.value)} else {})
    + (if f.scoreMax.Some? then {ScoreAtMost(f.scoreMax.value)} else {})
    + (if Listed(f.technology) then {SkillsOverlap(f.technology.value)} else {})
    + (if Listed(f.clientCountry) then {LocationIn(f.clientCountry.value)} else {})
  }

  lemma AskedPartsMean(f: Filters, w: Window, p: Post)
    ensures (forall part :: part in AskedParts(f, w) ==> Holds(part, p) == True) <==> Wanted(f, p) && InWindow(w, p)
  {
    var asked := AskedParts(f, w);
    assert CreatedWithin(w) in asked;
    assert f.scoreMin.Some? ==> ScoreAtLeast(f.scoreMin.value) in asked;
    assert f.scoreMax.Some? ==> ScoreAtMost(f.scoreMax.value) in asked;
    assert Listed(f.technology) ==> SkillsOverlap(f.technology.value) in asked;
    assert Listed(f.clientCountry) ==> LocationIn(f.clientCountry.value) in asked;
  }

  lemma {:induction false} SqlSelectsWanted(posts: seq<Post>, parts: seq<SqlPart>, f: Filters, window: Window)
    requires forall p :: Joined(parts, p) == True <==> Wanted(f, p) && InWindow(window, p)
    ensures SqlSelect(posts, parts) == WantedIn(posts, f, window)
  {
    if posts == [] {
    } else {
      SqlSelectsWanted(posts[..|posts| - 1], parts, f, window);
    }
  }
}
