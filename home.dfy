/** The home page: its positional bike-type extraction, which yields `None`
    for a missing count and has no length guard on the second element, and
    the network-wide indicators. */
module Home {
  import opened Results
  import opened Seqs
  import opened Gbfs
  import Ville

  // ---------------------------------------------------------------------
  // extract_bike_types (Home.py, lines 37-43)

  /** The page's `extract_bike_types`. Unlike the other pages it reads
      `x[1]` whenever the first element is a dict, so a one-element list
      raises `IndexError`, and a missing member gives `None`. */
  function ExtractBikeTypes(x: BikeTypes): (r: Result<(Option<int>, Option<int>)>)
    ensures r.Err? ==> r.error == IndexError || r.error == AttributeError
    ensures x.NotList? || x.elements == [] || x.elements[0].NonObject? ==> r == Ok((None, None))
    ensures r == Err(IndexError) <==> x.List? && |x.elements| == 1 && x.elements[0].Object?
    ensures r == Err(AttributeError)
        <==> x.List? && |x.elements| > 1 && x.elements[0].Object? && x.elements[1].NonObject?
    ensures r.Ok? && r.value.0.Some? ==> x.List? && "mechanical" in x.elements[0].fields
                                         && r.value.0.value == x.elements[0].fields["mechanical"]
    ensures r.Ok? && r.value.1.Some? ==> x.List? && |x.elements| > 1 && "ebike" in x.elements[1].fields
                                         && r.value.1.value == x.elements[1].fields["ebike"]
    ensures r.Ok? && x.List? && |x.elements| > 1 && x.elements[0].Object? ==>
              (r.value.0.Some? <==> "mechanical" in x.elements[0].fields) &&
              (r.value.1.Some? <==> "ebike" in x.elements[1].fields)
  {
    if x.List? && |x.elements| > 0 && x.elements[0].Object? then
      if |x.elements| < 2 then Err(IndexError)
      else
        match x.elements[1]
        case NonObject => Err(AttributeError)
        case Object(f) => Ok((GetOpt(x.elements[0].fields, "mechanical"), GetOpt(f, "ebike")))
    else Ok((None, None))
  }

  function OrZero(v: Option<int>): int {
    if v.Some? then v.value else 0
  }

  /** How this extraction relates to the one of the "Departements & Villes"
      page: where this one succeeds the other gives the same counts with 0
      for `None`; the one-element list that raises here is read there with
      0 e-bikes; both fail on a second element that is not a dict. */
  lemma ComparedWithVille(x: BikeTypes)
    ensures ExtractBikeTypes(x).Ok? ==>
              Ville.ExtractBikeTypes(x) == Ok((OrZero(ExtractBikeTypes(x).value.0), OrZero(ExtractBikeTypes(x).value.1)))
    ensures ExtractBikeTypes(x) == Err(IndexError) ==>
              Ville.ExtractBikeTypes(x) == Ok((GetOr(x.elements[0].fields, "mechanical", 0), 0))
    ensures ExtractBikeTypes(x) == Err(AttributeError) <==> Ville.ExtractBikeTypes(x).Err?
  {
  }

  // ---------------------------------------------------------------------
  // Indicators (Home.py, lines 45-55 and 67)

  /** A row of the status feed. */
  datatype Status = Status(
    stationId: int,
    isInstalled: int,
    numBikesAvailable: int,
    numDocksAvailable: int,
    bikeTypes: BikeTypes)

  /** A column sum that skips missing values, as pandas does. */
  function SumPresent(xs: seq<Option<int>>): int {
    if xs == [] then 0 else SumPresent(xs[..|xs| - 1]) + OrZero(xs[|xs| - 1])
  }

  lemma {:induction false} SumPresentAppend(a: seq<Option<int>>, b: seq<Option<int>>)
    ensures SumPresent(a + b) == SumPresent(a) + SumPresent(b)
  {
    if b == [] {
      assert a + b == a;
    } else {
      assert (a + b)[..|a + b| - 1] == a + b[..|b| - 1];
      SumPresentAppend(a, b[..|b| - 1]);
    }
  }

  /** A missing value contributes nothing: removing it leaves the sum
      unchanged. */
  lemma MissingContributesNothing(a: seq<Option<int>>, b: seq<Option<int>>)
    ensures SumPresent(a + [None] + b) == SumPresent(a + b)
  {
    SumPresentAppend(a + [None], b);
    SumPresentAppend(a, [None]);
    SumPresentAppend(a, b);
    var missing: seq<Option<int>> := [None];
    assert missing[..0] == [];
  }

  function Ids(rows: seq<Status>): (ids: seq<int>)
    ensures |ids| == |rows|
    ensures forall i :: 0 <= i < |rows| ==> ids[i] == rows[i].stationId
  {
    if rows == [] then [] else Ids(rows[..|rows| - 1]) + [rows[|rows| - 1].stationId]
  }

  predicate InService(s: Status) {
    s.isInstalled == 1
  }

  datatype Indicators = Indicators(
    stations: nat,    // `station_id.nunique()`
    inService: nat,   // `nunique()` of the ids with `is_installed == 1`
    capacity: int,    // `capacity` sum of the information feed
    docks: int,       // `num_docks_available` sum
    bikes: int,       // `num_bikes_available` sum
    mechanical: int,  // extracted mechanical counts, `None` skipped
    ebikes: int)      // extracted e-bike counts, `None` skipped

  function BikesOf(s: Status): int { s.numBikesAvailable }
  function DocksOf(s: Status): int { s.numDocksAvailable }
  function Identity(c: int): int { c }

  function Firsts(pairs: seq<(Option<int>, Option<int>)>): seq<Option<int>> {
    seq(|pairs|, i requires 0 <= i < |pairs| => pairs[i].0)
  }

  function Seconds(pairs: seq<(Option<int>, Option<int>)>): seq<Option<int>> {
    seq(|pairs|, i requires 0 <= i < |pairs| => pairs[i].1)
  }

  function Cells(rows: seq<Status>): seq<BikeTypes> {
    seq(|rows|, i requires 0 <= i < |rows| => rows[i].bikeTypes)
  }

  /** The extracted mechanical (`first`) or e-bike column, row by row. */
  function Column(rows: seq<Status>, first: bool): (column: seq<Option<int>>)
    requires forall i :: 0 <= i < |rows| ==> ExtractBikeTypes(rows[i].bikeTypes).Ok?
    ensures |column| == |rows|
  {
    seq(|rows|, i requires 0 <= i < |rows| =>
      var counts := ExtractBikeTypes(rows[i].bikeTypes).value;
      if first then counts.0 else counts.1)
  }

  /** The seven figures of the page. The extraction runs over every row
      first, so one malformed cell stops the page. */
  function HomeIndicators(rows: seq<Status>, capacities: seq<int>): (r: Result<Indicators>)
    ensures r.Ok? <==> forall i :: 0 <= i < |rows| ==> ExtractBikeTypes(rows[i].bikeTypes).Ok?
    ensures r.Ok? ==> r.value.stations == |Distinct(Ids(rows))|
    ensures r.Ok? ==> r.value.inService == |Distinct(Ids(Filter(rows, InService)))|
    ensures r.Ok? ==> r.value.docks == SumOf(rows, DocksOf) && r.value.bikes == SumOf(rows, BikesOf)
    ensures r.Ok? ==> r.value.capacity == SumOf(capacities, Identity)
    ensures r.Ok? ==> r.value.mechanical == SumPresent(Column(rows, true))
    ensures r.Ok? ==> r.value.ebikes == SumPresent(Column(rows, false))
  {
    assert forall i :: 0 <= i < |rows| ==> Cells(rows)[i] == rows[i].bikeTypes;
    match ApplyAll(Cells(rows), ExtractBikeTypes)
    case Err(e) => Err(e)
    case Ok(pairs) =>
      assert Firsts(pairs) == Column(rows, true);
      assert Seconds(pairs) == Column(rows, false);
      Ok(Indicators(
        |Distinct(Ids(rows))|,
        |Distinct(Ids(Filter(rows, InService)))|,
        SumOf(capacities, Identity),
        SumOf(rows, DocksOf),
        SumOf(rows, BikesOf),
        SumPresent(Firsts(pairs)),
        SumPresent(Seconds(pairs))))
  }

  /** No more stations are in service than there are stations. */
  lemma InServiceAtMostTotal(rows: seq<Status>)
    ensures |Distinct(Ids(Filter(rows, InService)))| <= |Distinct(Ids(rows))|
  {
    var a, b := Distinct(Ids(Filter(rows, InService))), Distinct(Ids(rows));
    forall x | x in a ensures x in b {
      var i :| 0 <= i < |Filter(rows, InService)| && Ids(Filter(rows, InService))[i] == x;
      var s := Filter(rows, InService)[i];
      assert s in rows;
      var j :| 0 <= j < |rows| && rows[j] == s;
      assert Ids(rows)[j] == x;
    }
    NoDupSubsetLength(a, b);
  }

  /** Counting distinct ids counts rows exactly when no id repeats. */
  lemma StationsAreRowsWhenIdsUnique(rows: seq<Status>)
    requires NoDup(Ids(rows))
    ensures |Distinct(Ids(rows))| == |rows|
  {
    var ids := Ids(rows);
    NoDupSubsetLength(ids, Distinct(ids));
  }
}
