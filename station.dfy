/** The "Station" page: the summing bike-type extraction, the free-dock
    figure, the station picker and its filter, the period pills and the
    parameters of the history query. */
module StationPage {
  import opened Results
  import opened Seqs
  import opened Sorting
  import opened Gbfs
  import opened Clock
  import Ville

  // ---------------------------------------------------------------------
  // extract_bike_types (Station.py, lines 22-30)

  /** What one list element adds to each total: a dict's `mechanical` and
      `ebike` members (0 when missing), nothing for any other value. */
  function MechanicalIn(e: Element): int {
    if e.Object? then GetOr(e.fields, "mechanical", 0) else 0
  }

  function EbikesIn(e: Element): int {
    if e.Object? then GetOr(e.fields, "ebike", 0) else 0
  }

  /** The elements the loop visits: none unless the cell is a list. */
  function Visited(x: BikeTypes): seq<Element> {
    if x.List? then x.elements else []
  }

  /** The page's `extract_bike_types`: two accumulators over every element
      of the list. */
  method ExtractBikeTypes(x: BikeTypes) returns (mechanical: int, ebike: int)
    ensures mechanical == SumOf(Visited(x), MechanicalIn)
    ensures ebike == SumOf(Visited(x), EbikesIn)
  {
    mechanical, ebike := 0, 0;
    if x.List? {
      var items := x.elements;
      for i := 0 to |items|
        invariant mechanical == SumOf(items[..i], MechanicalIn)
        invariant ebike == SumOf(items[..i], EbikesIn)
      {
        assert items[..i + 1][..i] == items[..i];
        var item := items[i];
        if item.Object? {
          mechanical := mechanical + GetOr(item.fields, "mechanical", 0);
          ebike := ebike + GetOr(item.fields, "ebike", 0);
        }
      }
      assert items[..|items|] == items;
    }
  }

  predicate IsObject(e: Element) {
    e.Object?
  }

  /** Elements that are not dicts contribute nothing: the totals are those
      of the dict elements alone. */
  lemma NonObjectsIgnored(x: BikeTypes)
    ensures SumOf(Visited(x), MechanicalIn) == SumOf(Filter(Visited(x), IsObject), MechanicalIn)
    ensures SumOf(Visited(x), EbikesIn) == SumOf(Filter(Visited(x), IsObject), EbikesIn)
  {
    var items := Visited(x);
    var others := Filter(items, (e: Element) => !IsObject(e));
    SumOfFilterPartition(items, IsObject, (e: Element) => !IsObject(e), MechanicalIn);
    SumOfFilterPartition(items, IsObject, (e: Element) => !IsObject(e), EbikesIn);
    SumOfZero(others, MechanicalIn);
    SumOfZero(others, EbikesIn);
  }

  lemma {:induction false} SumOfZero(s: seq<Element>, f: Element -> int)
    requires forall e :: e in s ==> f(e) == 0
    ensures SumOf(s, f) == 0
  {
    if s != [] {
      SumOfZero(s[..|s| - 1], f);
    }
  }

  /** The dict members a well-formed feed carries are counts. */
  predicate CountsNonNegative(x: BikeTypes) {
    forall e :: e in Visited(x) ==> MechanicalIn(e) >= 0 && EbikesIn(e) >= 0
  }

  /** With non-negative counts both totals are non-negative. */
  lemma TotalsNonNegative(x: BikeTypes)
    requires CountsNonNegative(x)
    ensures SumOf(Visited(x), MechanicalIn) >= 0 && SumOf(Visited(x), EbikesIn) >= 0
  {
    SumOfNonNegative(Visited(x), MechanicalIn);
    SumOfNonNegative(Visited(x), EbikesIn);
  }

  /** The totals do not depend on the order of the list. */
  lemma TotalsOrderIndependent(x: BikeTypes, y: BikeTypes)
    requires x.List? && y.List? && multiset(x.elements) == multiset(y.elements)
    ensures SumOf(Visited(x), MechanicalIn) == SumOf(Visited(y), MechanicalIn)
    ensures SumOf(Visited(x), EbikesIn) == SumOf(Visited(y), EbikesIn)
  {
    SumOfPermutation(x.elements, y.elements, MechanicalIn);
    SumOfPermutation(x.elements, y.elements, EbikesIn);
  }

  /** On the feed's usual shape, `[{"mechanical": m}, {"ebike": e}]`, this
      page and the "Departements & Villes" page agree. */
  lemma AgreesWithVilleOnUsualShape(m: int, e: int)
    ensures var x := List([Object(map["mechanical" := m]), Object(map["ebike" := e])]);
            Ville.ExtractBikeTypes(x) == Ok((SumOf(Visited(x), MechanicalIn), SumOf(Visited(x), EbikesIn)))
  {
    var first, second := Object(map["mechanical" := m]), Object(map["ebike" := e]);
    var s := [first, second];
    assert "mechanical" != "ebike" by { assert |"mechanical"| != |"ebike"|; }
    assert s[..1] == [first] && s[..1][..0] == [];
    assert SumOf(s, MechanicalIn) == SumOf([first], MechanicalIn) + MechanicalIn(second) == m;
    assert SumOf(s, EbikesIn) == SumOf([first], EbikesIn) + EbikesIn(second) == e;
  }

  /** They differ once the list has a third dict: this page counts it, the
      positional extraction of the other page does not look at it. */
  lemma DiffersFromVilleOnThirdElement()
    ensures var x := List([Object(map[]), Object(map[]), Object(map["ebike" := 1])]);
            Ville.ExtractBikeTypes(x) == Ok((0, 0)) && SumOf(Visited(x), EbikesIn) == 1
  {
    var empty, third := Object(map[]), Object(map["ebike" := 1]);
    var s := [empty, empty, third];
    assert s[..2] == [empty, empty] && s[..2][..1] == [empty] && s[..2][..1][..0] == [];
    assert SumOf([empty], EbikesIn) == 0;
    assert SumOf([empty, empty], EbikesIn) == 0;
    assert SumOf(s, EbikesIn) == SumOf([empty, empty], EbikesIn) + EbikesIn(third) == 1;
  }

  // ---------------------------------------------------------------------
  // Free docks (Station.py, lines 63-66)

  /** `max(total_capacity - total_mechanical - total_ebike, 0)` */
  function FreeDocks(capacity: int, mechanical: int, ebike: int): (free: int)
    ensures free >= 0
    ensures capacity - mechanical - ebike >= 0 ==> free == capacity - mechanical - ebike
    ensures capacity - mechanical - ebike < 0 ==> free == 0
  {
    var rest := capacity - mechanical - ebike;
    if rest > 0 then rest else 0
  }

  // ---------------------------------------------------------------------
  // Stations, picker and filter (Station.py, lines 50-56)

  /** A row of the merged frames: the station's name, its `stationCode` from
      the information feed, the extracted counts and its capacity. */
  datatype Station = Station(name: string, stationCode: int, mechanical: int, ebike: int, capacity: int)

  const AllStations: string := "Toutes les stations"

  function Names(rows: seq<Station>): (names: seq<string>)
    ensures forall c :: c in names <==> exists s :: s in rows && s.name == c
  {
    if rows == [] then []
    else
      var s := rows[|rows| - 1];
      assert forall t :: t in rows <==> t in rows[..|rows| - 1] || t == s;
      Names(rows[..|rows| - 1]) + [s.name]
  }

  /** `["Toutes les stations"] + sorted(df["name"].unique())`: the sentinel,
      then every station name once, in increasing code-point order. */
  function PickerList(rows: seq<Station>): (options: seq<string>)
    ensures |options| > 0 && options[0] == AllStations
    ensures forall c :: c in options[1..] <==> exists s :: s in rows && s.name == c
    ensures StrStrictlySorted(options[1..])
    ensures |options| == 1 + |Distinct(Names(rows))|
  {
    var sorted := SortedUnique(Names(rows));
    var options := [AllStations] + sorted;
    assert options[1..] == sorted;
    options
  }

  function Named(name: string): Station -> bool {
    (s: Station) => s.name == name
  }

  function NotNamed(name: string): Station -> bool {
    (s: Station) => s.name != name
  }

  /** `df_filtered`: the rows of the selected station, or every row for the
      sentinel. */
  function Select(rows: seq<Station>, selected: string): (kept: seq<Station>)
    ensures selected == AllStations ==> kept == rows
    ensures selected != AllStations ==> forall s :: s in kept <==> s in rows && s.name == selected
    ensures |kept| <= |rows|
  {
    if selected != AllStations then Filter(rows, Named(selected)) else rows
  }

  // ---------------------------------------------------------------------
  // Indicators (Station.py, lines 63-66)

  function MechanicalOf(s: Station): int { s.mechanical }
  function EbikesOf(s: Station): int { s.ebike }
  function CapacityOf(s: Station): int { s.capacity }

  datatype Indicators = Indicators(mechanical: int, ebike: int, capacity: int, freeDocks: int)

  /** The three metrics of the page, over the selected rows. */
  function IndicatorsOf(rows: seq<Station>, selected: string): (ind: Indicators)
    ensures var kept := Select(rows, selected);
            ind.mechanical == SumOf(kept, MechanicalOf) && ind.ebike == SumOf(kept, EbikesOf)
            && ind.capacity == SumOf(kept, CapacityOf)
    ensures ind.freeDocks == FreeDocks(ind.capacity, ind.mechanical, ind.ebike)
  {
    var kept := Select(rows, selected);
    var m, e, c := SumOf(kept, MechanicalOf), SumOf(kept, EbikesOf), SumOf(kept, CapacityOf);
    Indicators(m, e, c, FreeDocks(c, m, e))
  }

  /** A selected station's totals and those of all other stations add up to
      the network totals shown for the sentinel. */
  lemma SelectionSplitsTotals(rows: seq<Station>, name: string)
    requires name != AllStations
    ensures IndicatorsOf(rows, name).mechanical + SumOf(Filter(rows, NotNamed(name)), MechanicalOf)
         == IndicatorsOf(rows, AllStations).mechanical
    ensures IndicatorsOf(rows, name).ebike + SumOf(Filter(rows, NotNamed(name)), EbikesOf)
         == IndicatorsOf(rows, AllStations).ebike
    ensures IndicatorsOf(rows, name).capacity + SumOf(Filter(rows, NotNamed(name)), CapacityOf)
         == IndicatorsOf(rows, AllStations).capacity
  {
    SumOfFilterPartition(rows, Named(name), NotNamed(name), MechanicalOf);
    SumOfFilterPartition(rows, Named(name), NotNamed(name), EbikesOf);
    SumOfFilterPartition(rows, Named(name), NotNamed(name), CapacityOf);
  }

  // ---------------------------------------------------------------------
  // Period and history (Station.py, lines 92-99 and 122-126)

  const Horizons: map<string, nat> := map["Jour N-1" := 1, "7 derniers jours" := 7]

  lemma HorizonValues()
    ensures HorizonDays(Horizons, Some("Jour N-1")) == Ok(1)
    ensures HorizonDays(Horizons, Some("7 derniers jours")) == Ok(7)
    ensures HorizonDays(Horizons, None) == Err(KeyError)
  {
  }

  /** The arguments of `load_station_history`, or `None` when the sentinel
      is selected and the history frame stays empty. The code is read from
      the first selected row, so an empty selection raises `IndexError`. */
  function HistoryRequest(rows: seq<Station>, selected: string, days: nat): (r: Result<Option<(int, nat)>>)
    ensures r == Ok(None) <==> selected == AllStations
    ensures r.Err? <==> selected != AllStations && forall s :: s in rows ==> s.name != selected
    ensures r.Err? ==> r.error == IndexError
    ensures r.Ok? && r.value.Some? ==>
              r.value.value.1 == days
              && exists i :: 0 <= i < |rows| && rows[i].name == selected && rows[i].stationCode == r.value.value.0
                          && forall j :: 0 <= j < i ==> rows[j].name != selected
  {
    if selected != AllStations then
      var kept := Filter(rows, Named(selected));
      if kept == [] then Err(IndexError)
      else
        FilterHead(rows, Named(selected));
        Ok(Some((kept[0].stationCode, days)))
    else Ok(None)
  }

  /** Every name the picker offers has a row, so choosing one never hits
      the `IndexError`, and a history is requested exactly for a real
      station. */
  lemma PickedStationHasHistory(rows: seq<Station>, i: nat, days: nat)
    requires i < |PickerList(rows)|
    ensures var choice := PickerList(rows)[i];
            HistoryRequest(rows, choice, days).Ok?
            && (HistoryRequest(rows, choice, days).value.Some? <==> choice != AllStations)
  {
    var options := PickerList(rows);
    var choice := options[i];
    if choice != AllStations {
      assert i > 0;
      assert choice in options[1..];
    }
  }
}
