/** The 7 by 24 opportunity heatmap, and why its cells add up to the sales overview. */
module OpportunityHeatmap {
  import opened Analytics
  import opened JsStrings
  import opened Sorting

  datatype Country = Country(name: Text, count: nat)

  datatype Cell = Cell(weekday: nat, hour: nat, total: nat, qualified: nat, hot: nat, countries: seq<Country>)

  /** A row of `GROUP BY weekday, hour`. */
  datatype SlotRow = SlotRow(slot: PgSlot, total: nat, qualified: nat, hot: nat)

  /** A row of `GROUP BY weekday, hour, location`. */
  datatype CountryRow = CountryRow(slot: PgSlot, location: Option<Text>, count: nat)

  /** The key of a cell: its day with Monday first, and its hour. */
  datatype Key = Key(weekday: nat, hour: nat)

  function At(sel: seq<Post>, slot: PgSlot): seq<Post> {
    if sel == [] then []
    else
      var p := sel[|sel| - 1];
      At(sel[..|sel| - 1], slot) + if p.slot == slot then [p] else []
  }

  function From(sel: seq<Post>, location: Option<Text>): seq<Post> {
    if sel == [] then []
    else
      var p := sel[|sel| - 1];
      From(sel[..|sel| - 1], location) + if p.location == location then [p] else []
  }

  // ---------- the two aggregate queries ----------

  function SlotRowOf(sel: seq<Post>, slot: PgSlot): SlotRow {
    var mine := At(sel, slot);
    SlotRow(slot, |mine|, |Above(mine, QUALIFIED_THRESHOLD)|, |Above(mine, HOT_THRESHOLD)|)
  }

  /** One row for each slot that has a post, in any order. */
  ghost predicate GroupedBySlot(rows: seq<SlotRow>, sel: seq<Post>) {
    && (forall i, j :: 0 <= i < j < |rows| ==> rows[i].slot != rows[j].slot)
    && (forall i :: 0 <= i < |rows| ==> rows[i] == SlotRowOf(sel, rows[i].slot))
    && (forall p :: p in sel ==> exists i :: 0 <= i < |rows| && rows[i].slot == p.slot)
  }

  function CountryRowOf(sel: seq<Post>, slot: PgSlot, location: Option<Text>): CountryRow {
    CountryRow(slot, location, |From(At(sel, slot), location)|)
  }

  /** One row for each slot and location that has a post; a null location is a group of its own. */
  ghost predicate GroupedByCountry(rows: seq<CountryRow>, sel: seq<Post>) {
    && (forall i, j :: 0 <= i < j < |rows| ==> (rows[i].slot, rows[i].location) != (rows[j].slot, rows[j].location))
    && (forall i :: 0 <= i < |rows| ==> rows[i] == CountryRowOf(sel, rows[i].slot, rows[i].location))
    && (forall p :: p in sel ==>
        exists i :: 0 <= i < |rows| && rows[i].slot == p.slot && rows[i].location == p.location)
  }

  /** Stands for PostgreSQL: callers know only that the rows are such a grouping, in whatever order. */
  method QuerySlots(sel: seq<Post>) returns (rows: seq<SlotRow>)
    ensures GroupedBySlot(rows, sel)
  {
    rows := [];
    var i := 0;
    while i < |sel|
      invariant 0 <= i <= |sel|
      invariant forall j, k :: 0 <= j < k < |rows| ==> rows[j].slot != rows[k].slot
      invariant forall j :: 0 <= j < |rows| ==> rows[j] == SlotRowOf(sel, rows[j].slot)
      invariant forall j :: 0 <= j < i ==> exists k :: 0 <= k < |rows| && rows[k].slot == sel[j].slot
    {
      if forall k :: 0 <= k < |rows| ==> rows[k].slot != sel[i].slot {
        ghost var was := rows;
        rows := rows + [SlotRowOf(sel, sel[i].slot)];
        assert forall k :: 0 <= k < |was| ==> rows[k] == was[k];
        assert rows[|was|].slot == sel[i].slot;
      }
      i := i + 1;
    }
  }

  /** The same for the grouping by location. */
  method QueryCountries(sel: seq<Post>) returns (rows: seq<CountryRow>)
    ensures GroupedByCountry(rows, sel)
  {
    rows := [];
    var i := 0;
    while i < |sel|
      invariant 0 <= i <= |sel|
      invariant forall j, k :: 0 <= j < k < |rows| ==>
                  (rows[j].slot, rows[j].location) != (rows[k].slot, rows[k].location)
      invariant forall j :: 0 <= j < |rows| ==> rows[j] == CountryRowOf(sel, rows[j].slot, rows[j].location)
      invariant forall j :: 0 <= j < i ==>
                  exists k :: 0 <= k < |rows| && rows[k].slot == sel[j].slot && rows[k].location == sel[j].location
    {
      var p := sel[i];
      if forall k :: 0 <= k < |rows| ==> rows[k].slot != p.slot || rows[k].location != p.location {
        ghost var was := rows;
        rows := rows + [CountryRowOf(sel, p.slot, p.location)];
        assert forall k :: 0 <= k < |was| ==> rows[k] == was[k];
        assert rows[|was|].slot == p.slot && rows[|was|].location == p.location;
      }
      i := i + 1;
    }
  }

  // ---------- the countries of a cell ----------

  /** The text "Unknown". */
  const UNKNOWN := Text([0x55, 0x6E, 0x6B, 0x6E, 0x6F, 0x77, 0x6E])

  function Shown(location: Option<Text>): Text {
    if location.Some? && !IsBlank(location.value.units) then location.value else UNKNOWN
  }

  /** A post without a country, or with a blank one, counts under "Unknown"; every other name is shown as it is. */
  lemma ShownNames(location: Option<Text>)
    ensures location == None ==> Shown(location) == Text([85, 110, 107, 110, 111, 119, 110])
    ensures location.Some? ==>
              var blank := forall u :: u in location.value.units ==> IsSpace(u);
              Shown(location) == if blank then Shown(None) else location.value
  {
  }

  /** `only` asks for one name, or for all of them. */
  predicate Asked(only: Option<Text>, name: Text) { only.None? || only.value == name }

  function Weight(list: seq<Country>, only: Option<Text>): nat {
    if list == [] then 0
    else
      var c := list[|list| - 1];
      Weight(list[..|list| - 1], only) + if Asked(only, c.name) then c.count else 0
  }

  function ShownAs(sel: seq<Post>, only: Option<Text>): seq<Post> {
    if sel == [] then []
    else
      var p := sel[|sel| - 1];
      ShownAs(sel[..|sel| - 1], only) + if Asked(only, Shown(p.location)) then [p] else []
  }

  function CountriesAt(rows: seq<CountryRow>, key: Key): seq<Country> {
    if rows == [] then []
    else
      var r := rows[|rows| - 1];
      CountriesAt(rows[..|rows| - 1], key) + if KeyOf(r.slot) == key then [Country(Shown(r.location), r.count)] else []
  }

  function CountriesOf(m: map<Key, seq<Country>>, key: Key): seq<Country> {
    if key in m then m[key] else []
  }

  method GroupCountries(rows: seq<CountryRow>) returns (byKey: map<Key, seq<Country>>)
    ensures forall key :: CountriesOf(byKey, key) == CountriesAt(rows, key)
  {
    byKey := map[];
    var i := 0;
    while i < |rows|
      invariant 0 <= i <= |rows|
      invariant forall key :: CountriesOf(byKey, key) == CountriesAt(rows[..i], key)
    {
      var r := rows[i];
      var key := KeyOf(r.slot);
      var list := CountriesOf(byKey, key);
      list := list + [Country(Shown(r.location), r.count)];
      byKey := byKey[key := list];
      assert rows[..i + 1][..i] == rows[..i];
      i := i + 1;
    }
    assert rows[..i] == rows;
  }

  /** The comparator: larger counts first, then by name. */
  function Compare(a: Country, b: Country, collate: (Text, Text) -> int): int {
    if b.count != a.count then b.count - a.count else collate(a.name, b.name)
  }

  /** The list as it is shown: counts never rise, and equal counts follow the collation. */
  ghost predicate Ranked(list: seq<Country>, collate: (Text, Text) -> int) {
    && (forall i, j :: 0 <= i < j < |list| ==> list[i].count >= list[j].count)
    && (forall i :: 0 < i < |list| && list[i - 1].count == list[i].count ==>
          collate(list[i - 1].name, list[i].name) <= 0)
  }

  lemma {:induction false} OrderedIsRanked(list: seq<Country>, collate: (Text, Text) -> int)
    requires InOrder(list, ByCount(collate))
    ensures Ranked(list, collate)
  {
    if list == [] {
    } else {
      var n := |list| - 1;
      var init := list[..n];
      OrderedIsRanked(init, collate);
      if n > 0 {
        assert ByCount(collate)(list[n - 1], list[n]);
        assert forall i :: 0 <= i < n ==> init[i] == list[i];
      }
    }
  }

  ghost predicate Consistent(collate: (Text, Text) -> int) {
    forall a, b :: collate(a, b) > 0 ==> collate(b, a) <= 0
  }

  function ByCount(collate: (Text, Text) -> int): (Country, Country) -> bool {
    (a, b) => Compare(a, b, collate) <= 0
  }

  lemma WeightSnoc(list: seq<Country>, c: Country, only: Option<Text>)
    ensures Weight(list + [c], only) == Weight(list, only) + if Asked(only, c.name) then c.count else 0
  {
    assert (list + [c])[..|list|] == list;
  }

  lemma {:induction false} InsertWeight(
      list: seq<Country>, c: Country, le: (Country, Country) -> bool, only: Option<Text>)
    ensures Weight(Insert(list, c, le), only) == Weight(list, only) + if Asked(only, c.name) then c.count else 0
  {
    WeightSnoc(list, c, only);
    if list == [] || le(list[|list| - 1], c) {
    } else {
      var init, last := list[..|list| - 1], list[|list| - 1];
      InsertWeight(init, c, le, only);
      WeightSnoc(Insert(init, c, le), last, only);
    }
  }

  lemma {:induction false} SortWeight(list: seq<Country>, le: (Country, Country) -> bool, only: Option<Text>)
    ensures Weight(Sort(list, le), only) == Weight(list, only)
  {
    if list == [] {
    } else {
      SortWeight(list[..|list| - 1], le, only);
      InsertWeight(Sort(list[..|list| - 1], le), list[|list| - 1], le, only);
    }
  }

  /** Sorting keeps what every name weighs, and ranks the list. */
  lemma SortedKeeps(list: seq<Country>, collate: (Text, Text) -> int, only: Option<Text>)
    ensures Weight(Sort(list, ByCount(collate)), only) == Weight(list, only)
    ensures Consistent(collate) ==> Ranked(Sort(list, ByCount(collate)), collate)
  {
    SortWeight(list, ByCount(collate), only);
    if Consistent(collate) {
      assert Total(ByCount(collate));
      SortOrders(list, ByCount(collate));
      OrderedIsRanked(Sort(list, ByCount(collate)), collate);
    }
  }

  method SortCountries(byKey: map<Key, seq<Country>>, collate: (Text, Text) -> int)
    returns (sorted: map<Key, seq<Country>>)
    ensures forall key :: CountriesOf(sorted, key) == Sort(CountriesOf(byKey, key), ByCount(collate))
  {
    sorted := byKey;
    var todo := byKey.Keys;
    while todo != {}
      invariant todo <= byKey.Keys == sorted.Keys
      invariant forall key :: key in todo ==> sorted[key] == byKey[key]
      invariant forall key :: key in byKey && key !in todo ==> sorted[key] == Sort(byKey[key], ByCount(collate))
    {
      var key :| key in todo;
      sorted := sorted[key := Sort(byKey[key], ByCount(collate))];
      todo := todo - {key};
    }
  }

  // ---------- country counts add up within a cell ----------

  function Places(rows: seq<CountryRow>, slot: PgSlot): seq<Option<Text>> {
    if rows == [] then []
    else
      var r := rows[|rows| - 1];
      Places(rows[..|rows| - 1], slot) + if r.slot == slot then [r.location] else []
  }

  ghost predicate NoDuplicates<T>(s: seq<T>) {
    forall i, j :: 0 <= i < j < |s| ==> s[i] != s[j]
  }

  lemma {:induction false} PlacesAre(rows: seq<CountryRow>, slot: PgSlot)
    requires forall i, j :: 0 <= i < j < |rows| ==> (rows[i].slot, rows[i].location) != (rows[j].slot, rows[j].location)
    ensures forall l ::
              l in Places(rows, slot)
              <==> exists i :: 0 <= i < |rows| && rows[i].slot == slot && rows[i].location == l
    ensures NoDuplicates(Places(rows, slot))
  {
    if rows == [] {
    } else {
      var init, r := rows[..|rows| - 1], rows[|rows| - 1];
      PlacesAre(init, slot);
      assert forall i :: 0 <= i < |init| ==> init[i] == rows[i];
      assert r.slot == slot ==> r.location !in Places(init, slot);
      forall l
        ensures l in Places(rows, slot)
           <==> exists i :: 0 <= i < |rows| && rows[i].slot == slot && rows[i].location == l
      {
        assert l in Places(rows, slot) <==> l in Places(init, slot) || (r.slot == slot && r.location == l);
      }
    }
  }

  /** Posts per place, over the places whose shown name is asked for. */
  function PlaceSum(places: seq<Option<Text>>, mine: seq<Post>, only: Option<Text>): nat {
    if places == [] then 0
    else
      var l := places[|places| - 1];
      PlaceSum(places[..|places| - 1], mine, only) + if Asked(only, Shown(l)) then |From(mine, l)| else 0
  }

  lemma {:induction false} PlaceSumSnoc(places: seq<Option<Text>>, mine: seq<Post>, p: Post, only: Option<Text>)
    requires NoDuplicates(places)
    ensures PlaceSum(places, mine + [p], only)
         == PlaceSum(places, mine, only) + if p.location in places && Asked(only, Shown(p.location)) then 1 else 0
  {
    if places == [] {
    } else {
      PlaceSumSnoc(places[..|places| - 1], mine, p, only);
      assert (mine + [p])[..|mine|] == mine;
      assert p.location in places <==> p.location in places[..|places| - 1] || p.location == places[|places| - 1];
    }
  }

  lemma {:induction false} PlaceSumIs(places: seq<Option<Text>>, mine: seq<Post>, only: Option<Text>)
    requires NoDuplicates(places) && forall p :: p in mine ==> p.location in places
    ensures PlaceSum(places, mine, only) == |ShownAs(mine, only)|
  {
    if mine == [] {
      PlaceSumOfNone(places, only);
    } else {
      var init, p := mine[..|mine| - 1], mine[|mine| - 1];
      PlaceSumIs(places, init, only);
      PlaceSumSnoc(places, init, p, only);
      assert mine == init + [p];
    }
  }

  lemma {:induction false} PlaceSumOfNone(places: seq<Option<Text>>, only: Option<Text>)
    ensures PlaceSum(places, [], only) == 0
  {
    if places == [] {
    } else {
      PlaceSumOfNone(places[..|places| - 1], only);
    }
  }

  lemma PlaceSumEnd(places: seq<Option<Text>>, l: Option<Text>, mine: seq<Post>, only: Option<Text>)
    ensures PlaceSum(places + [l], mine, only)
              == PlaceSum(places, mine, only) + if Asked(only, Shown(l)) then |From(mine, l)| else 0
  {
    assert (places + [l])[..|places|] == places;
  }

  lemma {:induction false} WeightIsPlaceSum(rows: seq<CountryRow>, sel: seq<Post>, slot: PgSlot, only: Option<Text>)
    requires forall i :: 0 <= i < |rows| ==> rows[i] == CountryRowOf(sel, rows[i].slot, rows[i].location)
    ensures Weight(CountriesAt(rows, KeyOf(slot)), only) == PlaceSum(Places(rows, slot), At(sel, slot), only)
  {
    if rows == [] {
    } else {
      var init, r := rows[..|rows| - 1], rows[|rows| - 1];
      WeightIsPlaceSum(init, sel, slot, only);
      KeysAreSlots(r.slot, slot);
      var countries, places := CountriesAt(init, KeyOf(slot)), Places(init, slot);
      if r.slot == slot {
        WeightSnoc(countries, Country(Shown(r.location), r.count), only);
        PlaceSumEnd(places, r.location, At(sel, slot), only);
      } else {
        assert CountriesAt(rows, KeyOf(slot)) == countries && Places(rows, slot) == places;
      }
    }
  }

  lemma {:induction false} AtIsPart(sel: seq<Post>, slot: PgSlot)
    ensures forall p :: p in At(sel, slot) <==> p in sel && p.slot == slot
  {
    if sel == [] {
    } else {
      AtIsPart(sel[..|sel| - 1], slot);
      assert forall p :: p in sel <==> p in sel[..|sel| - 1] || p == sel[|sel| - 1];
    }
  }

  /** However the rows come back, the country list of a cell counts its posts by shown name, and loses none. */
  lemma CountriesAddUp(rows: seq<CountryRow>, sel: seq<Post>, slot: PgSlot, only: Option<Text>)
    requires GroupedByCountry(rows, sel)
    ensures Weight(CountriesAt(rows, KeyOf(slot)), only) == |ShownAs(At(sel, slot), only)|
  {
    WeightIsPlaceSum(rows, sel, slot, only);
    PlacesAre(rows, slot);
    AtIsPart(sel, slot);
    PlaceSumIs(Places(rows, slot), At(sel, slot), only);
  }

  lemma {:induction false} AllAreShown(sel: seq<Post>)
    ensures ShownAs(sel, None) == sel
  {
    if sel == [] {
    } else {
      AllAreShown(sel[..|sel| - 1]);
    }
  }

  // ---------- the cells ----------

  function PgDowToMondayIdx(dow: Dow): nat {
    if dow == 0 then 6 else dow - 1
  }

  function KeyOf(slot: PgSlot): Key { Key(PgDowToMondayIdx(slot.dow), slot.hour) }

  lemma KeysAreSlots(a: PgSlot, b: PgSlot)
    ensures KeyOf(a) == KeyOf(b) <==> a == b
    ensures KeyOf(a).hour == a.hour && (KeyOf(a).weekday + 1) % 7 == a.dow && KeyOf(a).weekday <= 6
  {
  }

  /** The slot the k-th cell stands for: Monday is day 1 of PostgreSQL's week. */
  function CellSlot(k: nat): PgSlot
    requires k < CELL_COUNT
  {
    PgSlot((k / 24 + 1) % 7, k % 24)
  }

  lemma CellKey(k: nat)
    requires k < CELL_COUNT
    ensures KeyOf(CellSlot(k)) == Key(k / 24, k % 24)
  {
  }

  ghost predicate CellShows(cell: Cell, k: nat, sel: seq<Post>, collate: (Text, Text) -> int)
    requires k < CELL_COUNT
  {
    var row := SlotRowOf(sel, CellSlot(k));
    && cell.weekday == k / 24 && cell.hour == k % 24
    && cell.total == row.total && cell.qualified == row.qualified && cell.hot == row.hot
    && (forall only :: Weight(cell.countries, only) == |ShownAs(At(sel, CellSlot(k)), only)|)
    && (Consistent(collate) ==> Ranked(cell.countries, collate))
  }

  function CellFrom(r: SlotRow, countries: map<Key, seq<Country>>): Cell {
    var key := KeyOf(r.slot);
    Cell(key.weekday, key.hour, r.total, r.qualified, r.hot, CountriesOf(countries, key))
  }

  method IndexCells(rows: seq<SlotRow>, countries: map<Key, seq<Country>>) returns (byKey: map<Key, Cell>)
    requires forall i, j :: 0 <= i < j < |rows| ==> rows[i].slot != rows[j].slot
    ensures forall i :: 0 <= i < |rows| ==>
              KeyOf(rows[i].slot) in byKey && byKey[KeyOf(rows[i].slot)] == CellFrom(rows[i], countries)
    ensures forall key :: key in byKey ==> exists i :: 0 <= i < |rows| && KeyOf(rows[i].slot) == key
  {
    byKey := map[];
    var i := 0;
    while i < |rows|
      invariant 0 <= i <= |rows|
      invariant forall j :: 0 <= j < i ==>
                  KeyOf(rows[j].slot) in byKey && byKey[KeyOf(rows[j].slot)] == CellFrom(rows[j], countries)
      invariant forall key :: key in byKey ==> exists j :: 0 <= j < i && KeyOf(rows[j].slot) == key
    {
      forall j | 0 <= j < i ensures KeyOf(rows[j].slot) != KeyOf(rows[i].slot) {
        KeysAreSlots(rows[j].slot, rows[i].slot);
      }
      byKey := byKey[KeyOf(rows[i].slot) := CellFrom(rows[i], countries)];
      i := i + 1;
    }
  }

  function Lookup(byKey: map<Key, Cell>, k: nat): Cell {
    var key := Key(k / 24, k % 24);
    if key in byKey then byKey[key] else Cell(k / 24, k % 24, 0, 0, 0, [])
  }

  method LayOut(byKey: map<Key, Cell>) returns (cells: seq<Cell>)
    ensures |cells| == CELL_COUNT && forall k :: 0 <= k < CELL_COUNT ==> cells[k] == Lookup(byKey, k)
  {
    cells := [];
    var w := 0;
    while w < 7
      invariant 0 <= w <= 7 && |cells| == w * 24
      invariant forall k :: 0 <= k < |cells| ==> cells[k] == Lookup(byKey, k)
    {
      var h := 0;
      while h < 24
        invariant 0 <= h <= 24 && |cells| == w * 24 + h
        invariant forall k :: 0 <= k < |cells| ==> cells[k] == Lookup(byKey, k)
      {
        assert |cells| / 24 == w && |cells| % 24 == h;
        var key := Key(w, h);
        cells := cells + [if key in byKey then byKey[key] else Cell(w, h, 0, 0, 0, [])];
        h := h + 1;
      }
      w := w + 1;
    }
  }

  lemma {:induction false} NoRowNoPosts(sel: seq<Post>, slot: PgSlot)
    requires forall p :: p in sel ==> p.slot != slot
    ensures At(sel, slot) == []
  {
    if sel == [] {
    } else {
      assert sel[|sel| - 1] in sel;
      NoRowNoPosts(sel[..|sel| - 1], slot);
    }
  }

  lemma LookupShows(
      rows: seq<SlotRow>, countryRows: seq<CountryRow>, sel: seq<Post>, collate: (Text, Text) -> int,
      countries: map<Key, seq<Country>>, byKey: map<Key, Cell>, k: nat)
    requires GroupedBySlot(rows, sel) && GroupedByCountry(countryRows, sel) && k < CELL_COUNT
    requires forall key :: CountriesOf(countries, key) == Sort(CountriesAt(countryRows, key), ByCount(collate))
    requires forall i :: 0 <= i < |rows| ==>
               KeyOf(rows[i].slot) in byKey && byKey[KeyOf(rows[i].slot)] == CellFrom(rows[i], countries)
    requires forall key :: key in byKey ==> exists i :: 0 <= i < |rows| && KeyOf(rows[i].slot) == key
    ensures CellShows(Lookup(byKey, k), k, sel, collate)
  {
    var slot, cell := CellSlot(k), Lookup(byKey, k);
    CellKey(k);
    if KeyOf(slot) in byKey {
      var i :| 0 <= i < |rows| && KeyOf(rows[i].slot) == KeyOf(slot);
      KeysAreSlots(rows[i].slot, slot);
      forall only
        ensures Weight(cell.countries, only) == |ShownAs(At(sel, slot), only)|
        ensures Consistent(collate) ==> Ranked(cell.countries, collate)
      {
        CountriesAddUp(countryRows, sel, slot, only);
        SortedKeeps(CountriesAt(countryRows, KeyOf(slot)), collate, only);
      }
      assert Consistent(collate) ==> Ranked(cell.countries, collate) by {
        SortedKeeps(CountriesAt(countryRows, KeyOf(slot)), collate, None);
      }
    } else {
      NoRowNoPosts(sel, slot);
    }
  }

  method GetOpportunityHeatmap(posts: seq<Post>, filters: Filters, window: Window, collate: (Text, Text) -> int)
    returns (cells: seq<Cell>, sampleSize: nat)
    ensures |cells| == CELL_COUNT
    ensures forall k :: 0 <= k < CELL_COUNT ==> CellShows(cells[k], k, WantedIn(posts, filters, window), collate)
    ensures sampleSize == SumValues(cells, All)
  {
    var parts := BuildWhereSql(filters, window);
    SqlSelectsWanted(posts, parts, filters, window);
    cells := CellsOf(SqlSelect(posts, parts), collate);
    sampleSize := SampleSize(cells);
  }

  /** The two queries over the selected posts, and the grid filled from them. */
  method CellsOf(sel: seq<Post>, collate: (Text, Text) -> int) returns (cells: seq<Cell>)
    ensures |cells| == CELL_COUNT
    ensures forall k :: 0 <= k < CELL_COUNT ==> CellShows(cells[k], k, sel, collate)
  {
    var rows := QuerySlots(sel);
    var countryRows := QueryCountries(sel);
    var grouped := GroupCountries(countryRows);
    var countries := SortCountries(grouped, collate);
    var byKey := IndexCells(rows, countries);
    cells := LayOut(byKey);
    forall k | 0 <= k < CELL_COUNT ensures CellShows(cells[k], k, sel, collate) {
      LookupShows(rows, countryRows, sel, collate, countries, byKey, k);
    }
  }

  method SampleSize(cells: seq<Cell>) returns (sum: nat)
    ensures sum == SumValues(cells, All)
  {
    sum := 0;
    var i := 0;
    while i < |cells|
      invariant 0 <= i <= |cells|
      invariant sum == SumValues(cells[..i], All)
    {
      assert cells[..i + 1][..i] == cells[..i];
      sum := sum + cells[i].total;
      i := i + 1;
    }
    assert cells[..i] == cells;
  }

  // ---------- the heatmap adds up to the overview ----------

  function SumAt(n: nat, sel: seq<Post>): nat
    requires n <= CELL_COUNT
  {
    if n == 0 then 0 else SumAt(n - 1, sel) + |At(sel, CellSlot(n - 1))|
  }

  lemma OneCellPerPost(p: Post, k: nat)
    requires k < CELL_COUNT
    ensures KeyOf(p.slot).weekday * 24 + KeyOf(p.slot).hour < CELL_COUNT
    ensures CellSlot(k) == p.slot <==> k == KeyOf(p.slot).weekday * 24 + KeyOf(p.slot).hour
  {
    CellKey(k);
    KeysAreSlots(CellSlot(k), p.slot);
  }

  lemma {:induction false} SumAtSnoc(n: nat, sel: seq<Post>, p: Post)
    requires n <= CELL_COUNT
    ensures SumAt(n, sel + [p])
         == SumAt(n, sel) + if KeyOf(p.slot).weekday * 24 + KeyOf(p.slot).hour < n then 1 else 0
  {
    if n == 0 {
    } else {
      SumAtSnoc(n - 1, sel, p);
      OneCellPerPost(p, n - 1);
      assert (sel + [p])[..|sel|] == sel;
    }
  }

  lemma {:induction false} SumAtOfNone(n: nat)
    requires n <= CELL_COUNT
    ensures SumAt(n, []) == 0
  {
    if n == 0 {
    } else {
      SumAtOfNone(n - 1);
    }
  }

  /** Every post falls into exactly one of the 168 cells. */
  lemma {:induction false} CellsPartitionThePosts(sel: seq<Post>)
    ensures SumAt(CELL_COUNT, sel) == |sel|
  {
    if sel == [] {
      SumAtOfNone(CELL_COUNT);
    } else {
      var init, p := sel[..|sel| - 1], sel[|sel| - 1];
      CellsPartitionThePosts(init);
      SumAtSnoc(CELL_COUNT, init, p);
      OneCellPerPost(p, 0);
      assert sel == init + [p];
    }
  }

  lemma {:induction false} AboveAtCommute(sel: seq<Post>, slot: PgSlot, n: int)
    ensures Above(At(sel, slot), n) == At(Above(sel, n), slot)
  {
    if sel == [] {
    } else {
      var init, p := sel[..|sel| - 1], sel[|sel| - 1];
      AboveAtCommute(init, slot, n);
      AboveSnoc(At(init, slot), p, n);
      assert (Above(init, n) + [p])[..|Above(init, n)|] == Above(init, n);
      assert At(init, slot) + [] == At(init, slot) && Above(init, n) + [] == Above(init, n);
    }
  }

  datatype Metric = All | Qualified | Hot

  function CellValue(cell: Cell, metric: Metric): nat {
    match metric
    case All => cell.total
    case Qualified => cell.qualified
    case Hot => cell.hot
  }

  function SumValues(cells: seq<Cell>, metric: Metric): nat {
    if cells == [] then 0 else SumValues(cells[..|cells| - 1], metric) + CellValue(cells[|cells| - 1], metric)
  }

  /** The posts a metric counts. */
  function Counted(sel: seq<Post>, metric: Metric): seq<Post> {
    match metric
    case All => sel
    case Qualified => Above(sel, QUALIFIED_THRESHOLD)
    case Hot => Above(sel, HOT_THRESHOLD)
  }

  lemma {:induction false} ValuesAreSums(cells: seq<Cell>, sel: seq<Post>, collate: (Text, Text) -> int, metric: Metric)
    requires |cells| <= CELL_COUNT && forall k :: 0 <= k < |cells| ==> CellShows(cells[k], k, sel, collate)
    ensures SumValues(cells, metric) == SumAt(|cells|, Counted(sel, metric))
  {
    if cells == [] {
    } else {
      var k := |cells| - 1;
      ValuesAreSums(cells[..k], sel, collate, metric);
      assert CellShows(cells[k], k, sel, collate);
      AboveAtCommute(sel, CellSlot(k), QUALIFIED_THRESHOLD);
      AboveAtCommute(sel, CellSlot(k), HOT_THRESHOLD);
    }
  }

  /**
   * Over a common window the 168 cells sum to the received, qualified and hot counts of the overview, although
   * the two take different query paths; each cell's countries sum to its total.
   */
  lemma HeatmapSumsToOverview(cells: seq<Cell>, kpi: Kpi, sel: seq<Post>, collate: (Text, Text) -> int)
    requires |cells| == CELL_COUNT && forall k :: 0 <= k < CELL_COUNT ==> CellShows(cells[k], k, sel, collate)
    requires kpi == KpiOf(sel)
    ensures SumValues(cells, All) == kpi.received
    ensures SumValues(cells, Qualified) == kpi.qualified
    ensures SumValues(cells, Hot) == kpi.hot
    ensures forall k :: 0 <= k < CELL_COUNT ==> Weight(cells[k].countries, None) == cells[k].total
  {
    ValuesAreSums(cells, sel, collate, All);
    ValuesAreSums(cells, sel, collate, Qualified);
    ValuesAreSums(cells, sel, collate, Hot);
    CellsPartitionThePosts(sel);
    CellsPartitionThePosts(Above(sel, QUALIFIED_THRESHOLD));
    CellsPartitionThePosts(Above(sel, HOT_THRESHOLD));
    forall k | 0 <= k < CELL_COUNT ensures Weight(cells[k].countries, None) == cells[k].total {
      assert CellShows(cells[k], k, sel, collate);
      AllAreShown(At(sel, CellSlot(k)));
    }
  }

  /** Overview and heatmap of one filter set and one window, taken together. */
  method Dashboard(posts: seq<Post>, filters: Filters, window: Window, collate: (Text, Text) -> int)
    returns (overview: Kpi, cells: seq<Cell>)
    ensures |cells| == CELL_COUNT
    ensures SumValues(cells, All) == overview.received
    ensures SumValues(cells, Qualified) == overview.qualified
    ensures SumValues(cells, Hot) == overview.hot
  {
    var previous, sampleSize;
    overview, previous := GetSalesOverview(posts, filters, window);
    cells, sampleSize := GetOpportunityHeatmap(posts, filters, window, collate);
    HeatmapSumsToOverview(cells, overview, WantedIn(posts, filters, window), collate);
  }
}
