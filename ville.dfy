/** The "Departements & Villes" page once the region index is built: the
    bike-type extraction of that page, the unlocated stations, the city
    ordering key and option list, the per-department tab filter and its
    figures, and the per-department `groupby`. */
module Ville {
  import opened Results
  import opened Seqs
  import opened Sorting
  import opened Gbfs

  // ---------------------------------------------------------------------
  // extract_bike_types (Ville.py, lines 80-86)

  /** The page's `extract_bike_types`: positional, each count defaulting to
      0. A one-element list gives no e-bikes; a second element that is not a
      dict raises `AttributeError` on `.get`. */
  function ExtractBikeTypes(x: BikeTypes): (r: Result<(int, int)>)
    ensures r.Err? <==> x.List? && |x.elements| > 1 && x.elements[0].Object? && x.elements[1].NonObject?
    ensures r.Err? ==> r.error == AttributeError
    ensures x.NotList? || x.elements == [] || x.elements[0].NonObject? ==> r == Ok((0, 0))
    ensures r.Ok? && x.List? && |x.elements| == 1 ==> r.value.1 == 0
    ensures r.Ok? && x.List? && |x.elements| > 0 && x.elements[0].Object? ==>
              r.value.0 == if "mechanical" in x.elements[0].fields then x.elements[0].fields["mechanical"] else 0
    ensures r.Ok? && x.List? && |x.elements| > 1 && x.elements[0].Object? ==>
              r.value.1 == if "ebike" in x.elements[1].fields then x.elements[1].fields["ebike"] else 0
  {
    if x.List? && |x.elements| > 0 && x.elements[0].Object? then
      var mechanical := GetOr(x.elements[0].fields, "mechanical", 0);
      if |x.elements| > 1 then
        match x.elements[1]
        case Object(f) => Ok((mechanical, GetOr(f, "ebike", 0)))
        case NonObject => Err(AttributeError)
      else Ok((mechanical, 0))
    else Ok((0, 0))
  }

  // ---------------------------------------------------------------------
  // Stations

  /** A row of the merged status and information frames, with the
      extracted bike counts and the two columns filled by `find_location`. */
  datatype Station = Station(
    stationId: int,
    isInstalled: int,
    numBikesAvailable: int,
    mechanical: int,
    ebike: int,
    capacity: int,
    code: Option<string>,
    city: Option<string>)

  /** `departement_code.isna() | ville.isna()` */
  predicate IsUnlocated(s: Station) {
    s.code.None? || s.city.None?
  }

  predicate IsLocated(s: Station) {
    !IsUnlocated(s)
  }

  /** `stations_non_localisees` (Ville.py, line 134). */
  function Unlocated(rows: seq<Station>): seq<Station> {
    Filter(rows, IsUnlocated)
  }

  /** Every station is either unlocated or located with both a department
      and a commune: the unlocated frame is exactly the complement. */
  lemma UnlocatedPartition(rows: seq<Station>)
    ensures forall s :: s in Unlocated(rows) <==> s in rows && (s.code.None? || s.city.None?)
    ensures |Unlocated(rows)| + |Filter(rows, IsLocated)| == |rows|
  {
    FilterPartition(rows, IsUnlocated, IsLocated);
  }

  /** The count shown by the warning (Ville.py, lines 136-137), or `None`
      when no warning is shown. */
  function UnlocatedWarning(rows: seq<Station>): (w: Option<nat>)
    ensures w.None? <==> forall s :: s in rows ==> s.code.Some? && s.city.Some?
    ensures w.Some? ==> w.value == |Unlocated(rows)| > 0
  {
    var bad := Unlocated(rows);
    if bad == [] then None
    else
      assert bad[0] in bad;
      Some(|bad|)
  }

  // ---------------------------------------------------------------------
  // Figures (Ville.py, lines 145-152 and 189-200)

  datatype Metrics = Metrics(
    stations: nat,    // number of rows (`station_id` count)
    working: nat,     // rows with `is_installed == 1`
    bikes: int,       // `num_bikes_available` sum
    mechanical: int,  // `mechanical_available` sum
    ebikes: int,      // `ebike_available` sum
    docks: int)       // `capacity` sum

  predicate IsInstalled(s: Station) {
    s.isInstalled == 1
  }

  function BikesOf(s: Station): int { s.numBikesAvailable }
  function MechanicalOf(s: Station): int { s.mechanical }
  function EbikesOf(s: Station): int { s.ebike }
  function DocksOf(s: Station): int { s.capacity }

  /** The six figures of a set of stations. */
  function MetricsOf(rows: seq<Station>): (m: Metrics)
    ensures m.working <= m.stations == |rows|
  {
    Metrics(|rows|, |Filter(rows, IsInstalled)|,
            SumOf(rows, BikesOf), SumOf(rows, MechanicalOf), SumOf(rows, EbikesOf), SumOf(rows, DocksOf))
  }

  /** 1 for a station in service, else 0. */
  function InstalledOne(s: Station): int {
    if IsInstalled(s) then 1 else 0
  }

  /** The in-service count is a column sum like the others. */
  lemma {:induction false} WorkingIsSum(rows: seq<Station>)
    ensures |Filter(rows, IsInstalled)| == SumOf(rows, InstalledOne)
  {
    if rows != [] {
      WorkingIsSum(rows[..|rows| - 1]);
    }
  }

  /** Each of the six figures of a split set of stations is the sum of the
      figures of its two parts. */
  lemma MetricsOfSplit(rows: seq<Station>, p: Station -> bool, q: Station -> bool)
    requires forall s :: q(s) == !p(s)
    ensures var a, b, all := MetricsOf(Filter(rows, p)), MetricsOf(Filter(rows, q)), MetricsOf(rows);
            a.stations + b.stations == all.stations && a.working + b.working == all.working
            && a.bikes + b.bikes == all.bikes && a.mechanical + b.mechanical == all.mechanical
            && a.ebikes + b.ebikes == all.ebikes && a.docks + b.docks == all.docks
  {
    FilterPartition(rows, p, q);
    WorkingIsSum(rows);
    WorkingIsSum(Filter(rows, p));
    WorkingIsSum(Filter(rows, q));
    SumOfFilterPartition(rows, p, q, InstalledOne);
    SumOfFilterPartition(rows, p, q, BikesOf);
    SumOfFilterPartition(rows, p, q, MechanicalOf);
    SumOfFilterPartition(rows, p, q, EbikesOf);
    SumOfFilterPartition(rows, p, q, DocksOf);
  }

  // ---------------------------------------------------------------------
  // The city ordering key (Ville.py, line 172)

  /** `str.isdigit`, for the ASCII digits. */
  predicate IsDigit(c: char) {
    '0' <= c <= '9'
  }

  /** `int(...)` of a string of digits. */
  function DigitsValue(d: string): (v: nat)
    requires forall c :: c in d ==> IsDigit(c)
  {
    if d == [] then 0
    else
      assert forall c :: c in d[..|d| - 1] ==> c in d;
      assert d[|d| - 1] in d;
      var digit := d[|d| - 1] as int - '0' as int;
      assert IsDigit(d[|d| - 1]);
      DigitsValue(d[..|d| - 1]) * 10 + digit
  }

  /** The sort key: every digit of the name, concatenated and read as a
      number, or 0 for a name without digits. */
  function CityKey(name: string): (k: nat)
    ensures (forall c :: c in name ==> !IsDigit(c)) ==> k == 0
  {
    var digits := Filter(name, IsDigit);
    if digits == [] then 0
    else
      assert digits[0] in digits;
      DigitsValue(digits)
  }

  function CityRank(name: string): real {
    CityKey(name) as real
  }

  /** `str(n)`: the decimal digits of `n`. */
  function Decimal(n: nat): (d: string)
    ensures d != [] && forall c :: c in d ==> IsDigit(c)
  {
    var last := (n % 10 + '0' as int) as char;
    if n < 10 then [last] else Decimal(n / 10) + [last]
  }

  lemma {:induction false} DigitsValueOfDecimal(n: nat)
    ensures DigitsValue(Decimal(n)) == n
  {
    var d := Decimal(n);
    if n >= 10 {
      DigitsValueOfDecimal(n / 10);
      assert d[..|d| - 1] == Decimal(n / 10);
    } else {
      assert d[..0] == [];
    }
  }

  lemma {:induction false} FilterDigitsOfDecimal(n: nat)
    ensures Filter(Decimal(n), IsDigit) == Decimal(n)
  {
    var d := Decimal(n);
    if n >= 10 {
      FilterDigitsOfDecimal(n / 10);
      assert d[..|d| - 1] == Decimal(n / 10);
    } else {
      assert d[..0] == [];
    }
  }

  /** A name whose only digits are a number `n` written in decimal (an
      arrondissement such as "Paris 12e Arrondissement") has the key `n`. */
  lemma NumberedNameKey(prefix: string, n: nat, suffix: string)
    requires forall c :: c in prefix + suffix ==> !IsDigit(c)
    ensures CityKey(prefix + Decimal(n) + suffix) == n
  {
    var d := Decimal(n);
    FilterAppend(prefix + d, suffix, IsDigit);
    FilterAppend(prefix, d, IsDigit);
    NoDigitsFilter(prefix);
    NoDigitsFilter(suffix);
    FilterDigitsOfDecimal(n);
    DigitsValueOfDecimal(n);
    assert Filter(prefix + d + suffix, IsDigit) == d;
  }

  lemma NoDigitsFilter(s: string)
    requires forall c :: c in s ==> !IsDigit(c)
    ensures Filter(s, IsDigit) == []
  {
  }

  /** So the second arrondissement is listed before the tenth, which plain
      string order would not do. */
  lemma SecondBeforeTenth()
    ensures CityKey("Paris 2e") == 2 && CityKey("Paris 10e") == 10
    ensures StrLess("Paris 10e", "Paris 2e")
  {
    assert Decimal(2) == "2";
    assert Decimal(10) == "10";
    assert "Paris 2e" == "Paris " + Decimal(2) + "e";
    assert "Paris 10e" == "Paris " + Decimal(10) + "e";
    NumberedNameKey("Paris ", 2, "e");
    NumberedNameKey("Paris ", 10, "e");
    TenBeforeTwo();
  }

  lemma TenBeforeTwo()
    ensures StrLess("Paris 10e", "Paris 2e")
  {
    var a, b := "Paris 10e", "Paris 2e";
    assert a[1..][1..][1..][1..][1..][1..] == "10e";
    assert b[1..][1..][1..][1..][1..][1..] == "2e";
  }

  // ---------------------------------------------------------------------
  // The department tab (Ville.py, lines 166-202)

  const AllCities: string := "Toutes les villes"

  predicate InDepartment(code: string, s: Station) {
    s.code == Some(code)
  }

  function InDept(code: string): Station -> bool {
    (s: Station) => InDepartment(code, s)
  }

  function InCity(city: string): Station -> bool {
    (s: Station) => s.city == Some(city)
  }

  /** The commune names of the rows that have one, in row order. */
  function KnownCities(rows: seq<Station>): (names: seq<string>)
    ensures forall c :: c in names <==> exists s :: s in rows && s.city == Some(c)
  {
    if rows == [] then []
    else
      var s := rows[|rows| - 1];
      assert forall t :: t in rows <==> t in rows[..|rows| - 1] || t == s;
      KnownCities(rows[..|rows| - 1]) + (if s.city.Some? then [s.city.value] else [])
  }

  /** The distinct communes of the department's stations are those of
      the rows with that code; a row of the department without a commune
      is one of the rows with that code and no commune. */
  lemma DepartmentCities(rows: seq<Station>, code: string)
    ensures forall c :: c in Distinct(KnownCities(Filter(rows, InDept(code))))
                   <==> exists s :: s in rows && s.code == Some(code) && s.city == Some(c)
    ensures (exists s :: s in Filter(rows, InDept(code)) && s.city.None?)
        <==> exists s :: s in rows && s.code == Some(code) && s.city.None?
  {
    var dept := Filter(rows, InDept(code));
    assert forall s :: s in dept <==> s in rows && s.code == Some(code);
  }

  /** Sorting distinct communes keeps them distinct and keeps the same
      communes. */
  lemma SortedCities(cities: seq<string>)
    requires NoDup(cities)
    ensures forall c :: c in SortBy(cities, CityRank) <==> c in cities
    ensures NoDup(SortBy(cities, CityRank))
  {
    var sorted := SortBy(cities, CityRank);
    NoDupPermutation(cities, sorted);
    assert forall c :: c in sorted <==> c in multiset(cities);
  }

  /** The options of the city box: the sentinel, then the department's
      distinct communes (first-occurrence order) sorted stably by `CityKey`.
      A station of the department without a commune puts `None` among the
      values to sort, and the key function raises `TypeError` on it. */
  function CityOptions(rows: seq<Station>, code: string): (r: Result<seq<string>>)
    ensures r.Err? <==> exists s :: s in rows && s.code == Some(code) && s.city.None?
    ensures r.Err? ==> r.error == TypeError
    ensures r.Ok? ==> |r.value| > 0 && r.value[0] == AllCities
    ensures r.Ok? ==> forall c :: c in r.value[1..] <==> exists s :: s in rows && s.code == Some(code) && s.city == Some(c)
    ensures r.Ok? ==> NoDup(r.value[1..])
    ensures r.Ok? ==> SortedBy(r.value[1..], CityRank)
  {
    var dept := Filter(rows, InDept(code));
    DepartmentCities(rows, code);
    if exists s :: s in dept && s.city.None? then Err(TypeError)
    else
      var cities := Distinct(KnownCities(dept));
      var sorted := SortBy(cities, CityRank);
      SortedCities(cities);
      var options := [AllCities] + sorted;
      assert options[1..] == sorted;
      Ok(options)
  }

  /** Communes with the same key keep their first-occurrence order among
      the options (`sorted` is stable). */
  lemma CityOptionsStable(rows: seq<Station>, code: string, key: nat)
    requires CityOptions(rows, code).Ok?
    ensures KeyedAs(CityOptions(rows, code).value[1..], CityRank, key as real)
         == KeyedAs(Distinct(KnownCities(Filter(rows, InDept(code)))), CityRank, key as real)
  {
    var cities := Distinct(KnownCities(Filter(rows, InDept(code))));
    assert CityOptions(rows, code).value[1..] == SortBy(cities, CityRank);
    SortByStable(cities, CityRank, key as real);
  }

  /** `stations_filtrees`: the department's stations, narrowed to one
      commune unless the sentinel is selected. */
  function TabStations(rows: seq<Station>, code: string, selected: string): (r: seq<Station>)
    ensures forall s :: s in r <==> s in rows && s.code == Some(code) && (selected == AllCities || s.city == Some(selected))
  {
    var dept := Filter(rows, InDept(code));
    if selected != AllCities then Filter(dept, InCity(selected)) else dept
  }

  /** What a tab shows: the figures, or a warning naming the commune (or
      the department label when the sentinel is selected). */
  datatype TabView = Figures(metrics: Metrics) | NoData(subject: string)

  function Tab(rows: seq<Station>, code: string, heading: string, selected: string): (v: TabView)
    ensures v.Figures? <==> TabStations(rows, code, selected) != []
    ensures v.Figures? ==> v.metrics == MetricsOf(TabStations(rows, code, selected))
    ensures v.NoData? ==> v.subject == if selected != AllCities then selected else heading
  {
    var kept := TabStations(rows, code, selected);
    if kept != [] then Figures(MetricsOf(kept))
    else NoData(if selected != AllCities then selected else heading)
  }

  function NotInCity(city: string): Station -> bool {
    (s: Station) => s.city != Some(city)
  }

  /** The figures of a commune's tab and those of the rest of its
      department add up, figure by figure, to the figures of the
      department's sentinel tab. */
  lemma CityTabSplitsDepartment(rows: seq<Station>, code: string, city: string)
    requires city != AllCities
    ensures var here, rest := MetricsOf(TabStations(rows, code, city)),
                              MetricsOf(Filter(TabStations(rows, code, AllCities), NotInCity(city)));
            var all := MetricsOf(TabStations(rows, code, AllCities));
            here.stations + rest.stations == all.stations && here.working + rest.working == all.working
            && here.bikes + rest.bikes == all.bikes && here.mechanical + rest.mechanical == all.mechanical
            && here.ebikes + rest.ebikes == all.ebikes && here.docks + rest.docks == all.docks
  {
    MetricsOfSplit(Filter(rows, InDept(code)), InCity(city), NotInCity(city));
  }

  /** Every option the box offers selects at least one station, so the
      "no data" warning is only reachable for a department without
      stations. */
  lemma OptionsSelectStations(rows: seq<Station>, code: string, i: nat)
    requires CityOptions(rows, code).Ok? && i < |CityOptions(rows, code).value|
    requires i > 0 || exists s :: s in rows && s.code == Some(code)
    ensures Tab(rows, code, "", CityOptions(rows, code).value[i]).Figures?
  {
    var options := CityOptions(rows, code).value;
    var c := options[i];
    var s: Station;
    if i > 0 {
      assert c in options[1..];
      s :| s in rows && s.code == Some(code) && s.city == Some(c);
    } else {
      s :| s in rows && s.code == Some(code);
    }
    assert s in TabStations(rows, code, c);
  }

  // ---------------------------------------------------------------------
  // groupby("departement_code") (Ville.py, lines 145-152)

  function KnownCodes(rows: seq<Station>): (codes: seq<string>)
    ensures forall c :: c in codes <==> exists s :: s in rows && s.code == Some(c)
  {
    if rows == [] then []
    else
      var s := rows[|rows| - 1];
      assert forall t :: t in rows <==> t in rows[..|rows| - 1] || t == s;
      KnownCodes(rows[..|rows| - 1]) + (if s.code.Some? then [s.code.value] else [])
  }

  predicate HasCode(s: Station) {
    s.code.Some?
  }

  /** The group keys of `groupby`: the distinct department codes in
      ascending order. */
  function SortedCodes(rows: seq<Station>): (keys: seq<string>)
    ensures forall c :: c in keys <==> exists s :: s in rows && s.code == Some(c)
    ensures StrStrictlySorted(keys)
    ensures NoDup(keys)
  {
    SortedUnique(KnownCodes(rows))
  }

  /** One row per department code in ascending order, with the figures of
      its stations; stations without a code belong to no group. */
  function DepartmentMetrics(rows: seq<Station>): (groups: seq<(string, Metrics)>)
    ensures |groups| == |SortedCodes(rows)|
    ensures forall i :: 0 <= i < |groups| ==> groups[i].0 == SortedCodes(rows)[i]
    ensures forall i :: 0 <= i < |groups| ==> groups[i].1 == MetricsOf(Filter(rows, InDept(groups[i].0)))
  {
    var keys := SortedCodes(rows);
    seq(|keys|, i requires 0 <= i < |keys| => (keys[i], MetricsOf(Filter(rows, InDept(keys[i])))))
  }

  function StationTotal(groups: seq<(string, Metrics)>): nat {
    if groups == [] then 0 else StationTotal(groups[..|groups| - 1]) + groups[|groups| - 1].1.stations
  }

  /** The groups hold every station that has a department code, each once. */
  lemma DepartmentMetricsTotal(rows: seq<Station>)
    ensures StationTotal(DepartmentMetrics(rows)) == |Filter(rows, HasCode)|
  {
    var keys := SortedCodes(rows);
    TotalIsSumCounts(rows, DepartmentMetrics(rows), keys);
    SumOfCounts(keys, KnownCodes(rows));
    KnownCodesLength(rows);
  }

  lemma SortedStrictNoDup(s: seq<string>)
    requires StrStrictlySorted(s)
    ensures NoDup(s)
  {
    forall i, j | 0 <= i < j < |s| ensures s[i] != s[j] {
      if s[i] == s[j] { StrLessIrreflexive(s[i]); }
    }
  }

  lemma {:induction false} TotalIsSumCounts(rows: seq<Station>, groups: seq<(string, Metrics)>, keys: seq<string>)
    requires |keys| == |groups|
    requires forall i :: 0 <= i < |groups| ==> groups[i].0 == keys[i] && groups[i].1 == MetricsOf(Filter(rows, InDept(keys[i])))
    ensures StationTotal(groups) == SumCounts(keys, KnownCodes(rows))
  {
    if groups != [] {
      var n := |groups| - 1;
      TotalIsSumCounts(rows, groups[..n], keys[..n]);
      GroupSizeIsCount(rows, keys[n]);
    }
  }

  /** A department's group has one row per occurrence of its code. */
  lemma {:induction false} GroupSizeIsCount(rows: seq<Station>, code: string)
    ensures |Filter(rows, InDept(code))| == Count(KnownCodes(rows), code)
  {
    if rows != [] {
      var n := |rows| - 1;
      GroupSizeIsCount(rows[..n], code);
      assert |Filter(rows, InDept(code))|
          == |Filter(rows[..n], InDept(code))| + (if rows[n].code == Some(code) then 1 else 0);
      var front := KnownCodes(rows[..n]);
      if rows[n].code.Some? {
        CountSnoc(front, rows[n].code.value, code);
      } else {
        assert KnownCodes(rows) == front + [];
        assert front + [] == front;
      }
    }
  }

  lemma {:induction false} KnownCodesLength(rows: seq<Station>)
    ensures |KnownCodes(rows)| == |Filter(rows, HasCode)|
  {
    if rows != [] {
      KnownCodesLength(rows[..|rows| - 1]);
    }
  }
}
