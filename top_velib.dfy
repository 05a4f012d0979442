/** The "Top vélos" page: the period pills, the trips query window, the two
    left merges that attach station names and coordinates to each trip, the
    most-used bike, the longest trip by distance and the two points of its
    map. */
module TopVelib {
  import opened Results
  import opened Seqs
  import opened Sorting
  import opened Clock
  import GenericStats

  /** A row of the trips query. Times are whole seconds since the epoch. */
  datatype Trip = Trip(
    bikeId: string,
    startId: int,
    endId: int,
    startTime: int,
    endTime: int,
    durationMin: real,
    distanceKm: real)

  /** A row of the station dimension table. */
  datatype StationInfo = StationInfo(id: int, name: string, lat: real, lon: real)

  /** A trip after the merges: the start and end station columns, empty
      (NaN) when the merge found no station with that id. */
  datatype Enriched = Enriched(trip: Trip, start: Option<StationInfo>, end: Option<StationInfo>)

  // ---------------------------------------------------------------------
  // Period (TopVelib.py, lines 32-39 and 56)

  const Horizons: map<string, nat> := map["Jour N-1" := 1, "7 jours" := 7, "14 jours" := 14]

  lemma HorizonValues()
    ensures HorizonDays(Horizons, Some("Jour N-1")) == Ok(1)
    ensures HorizonDays(Horizons, Some("7 jours")) == Ok(7)
    ensures HorizonDays(Horizons, Some("14 jours")) == Ok(14)
    ensures HorizonDays(Horizons, None) == Err(KeyError)
  {
  }

  /** `TIMESTAMP_SUB(CURRENT_TIMESTAMP(), INTERVAL days DAY)`: a rolling
      window, not one that starts at midnight. */
  function QueryStart(now: int, days: nat): int {
    now - days * SecondsPerDay
  }

  function StartsFrom(start: int): Trip -> bool {
    (t: Trip) => t.startTime >= start
  }

  /** The trips the query returns, in table order. */
  function LoadTrips(table: seq<Trip>, now: int, days: nat): (trips: seq<Trip>)
    ensures forall t :: t in trips <==> t in table && t.startTime >= now - days * SecondsPerDay
  {
    Filter(table, StartsFrom(QueryStart(now, days)))
  }

  /** The trip statistics page counts the same number of days from today's
      UTC midnight, so its window starts earlier, by less than a day. */
  lemma RollingWindowStartsLater(now: int, days: nat)
    ensures WindowStart(now, days) <= QueryStart(now, days) < WindowStart(now, days) + SecondsPerDay
  {
  }

  // ---------------------------------------------------------------------
  // Left merges (TopVelib.py, lines 74-90)

  function HasStationId(id: int): StationInfo -> bool {
    (s: StationInfo) => s.id == id
  }

  /** The station id a merge joins on. */
  function KeyOf(r: Enriched, atStart: bool): int {
    if atStart then r.trip.startId else r.trip.endId
  }

  /** The station columns a merge fills. */
  function Slot(r: Enriched, atStart: bool): Option<StationInfo> {
    if atStart then r.start else r.end
  }

  function Put(r: Enriched, info: Option<StationInfo>, atStart: bool): (o: Enriched)
    ensures o.trip == r.trip && Slot(o, atStart) == info && Slot(o, !atStart) == Slot(r, !atStart)
  {
    if atStart then r.(start := info) else r.(end := info)
  }

  /** The rows a left merge produces for one left row: one per matching
      station row, in table order, or one with empty columns. */
  function Attach(r: Enriched, matches: seq<StationInfo>, atStart: bool): (rows: seq<Enriched>)
    ensures |rows| == if matches == [] then 1 else |matches|
  {
    if matches == [] then [Put(r, None, atStart)]
    else seq(|matches|, i requires 0 <= i < |matches| => Put(r, Some(matches[i]), atStart))
  }

  /** `rows.merge(dim, on=<station id>, how="left")`. */
  function MergeOn(rows: seq<Enriched>, dim: seq<StationInfo>, atStart: bool): (merged: seq<Enriched>)
    ensures |merged| >= |rows|
  {
    if rows == [] then []
    else
      var r := rows[|rows| - 1];
      MergeOn(rows[..|rows| - 1], dim, atStart) + Attach(r, Filter(dim, HasStationId(KeyOf(r, atStart))), atStart)
  }

  function Bare(trips: seq<Trip>): (rows: seq<Enriched>)
    ensures |rows| == |trips|
    ensures forall i :: 0 <= i < |trips| ==> rows[i] == Enriched(trips[i], None, None)
  {
    seq(|trips|, i requires 0 <= i < |trips| => Enriched(trips[i], None, None))
  }

  /** The trips with their start, then their end station. */
  function Enrich(trips: seq<Trip>, dim: seq<StationInfo>): seq<Enriched> {
    MergeOn(MergeOn(Bare(trips), dim, true), dim, false)
  }

  /** Whether `info` is what a merge may put in a row joined on `id`: a
      station row with that id, or nothing when the table has none. */
  ghost predicate Matching(dim: seq<StationInfo>, id: int, info: Option<StationInfo>) {
    if info.Some? then info.value in dim && info.value.id == id else forall s :: s in dim ==> s.id != id
  }

  lemma AttachRows(r: Enriched, dim: seq<StationInfo>, atStart: bool, o: Enriched)
    requires o in Attach(r, Filter(dim, HasStationId(KeyOf(r, atStart))), atStart)
    ensures o == Put(r, Slot(o, atStart), atStart) && Matching(dim, KeyOf(r, atStart), Slot(o, atStart))
  {
    var matches := Filter(dim, HasStationId(KeyOf(r, atStart)));
    if matches == [] {
      forall s | s in dim ensures s.id != KeyOf(r, atStart) {
        assert HasStationId(KeyOf(r, atStart))(s) ==> s in matches;
      }
    } else {
      var k :| 0 <= k < |matches| && Attach(r, matches, atStart)[k] == o;
      assert matches[k] in matches;
    }
  }

  /** Every row of a left merge comes from a left row, with the station
      columns of a row with the same id or, when there is none, empty. */
  lemma {:induction false} MergeRowsMatch(rows: seq<Enriched>, dim: seq<StationInfo>, atStart: bool)
    ensures forall o :: o in MergeOn(rows, dim, atStart) ==>
              exists r :: r in rows && o == Put(r, Slot(o, atStart), atStart)
                          && Matching(dim, KeyOf(r, atStart), Slot(o, atStart))
  {
    if rows != [] {
      var n := |rows| - 1;
      var r := rows[n];
      MergeRowsMatch(rows[..n], dim, atStart);
      forall o | o in MergeOn(rows, dim, atStart)
        ensures exists q :: q in rows && o == Put(q, Slot(o, atStart), atStart)
                            && Matching(dim, KeyOf(q, atStart), Slot(o, atStart))
      {
        if o in MergeOn(rows[..n], dim, atStart) {
          var q :| q in rows[..n] && o == Put(q, Slot(o, atStart), atStart)
                   && Matching(dim, KeyOf(q, atStart), Slot(o, atStart));
          assert q in rows;
        } else {
          AttachRows(r, dim, atStart, o);
        }
      }
    }
  }

  /** A left merge drops no row: each left row is in the result, with some
      station columns filled in. */
  lemma {:induction false} MergeKeepsRows(rows: seq<Enriched>, dim: seq<StationInfo>, atStart: bool)
    ensures forall r :: r in rows ==> exists info :: Put(r, info, atStart) in MergeOn(rows, dim, atStart)
  {
    if rows != [] {
      var n := |rows| - 1;
      var r := rows[n];
      MergeKeepsRows(rows[..n], dim, atStart);
      var matches := Filter(dim, HasStationId(KeyOf(r, atStart)));
      var first := Attach(r, matches, atStart)[0];
      assert first == Put(r, Slot(first, atStart), atStart);
      forall q | q in rows ensures exists info :: Put(q, info, atStart) in MergeOn(rows, dim, atStart) {
        if q in rows[..n] {
          var info :| Put(q, info, atStart) in MergeOn(rows[..n], dim, atStart);
          assert Put(q, info, atStart) in MergeOn(rows, dim, atStart);
        } else {
          assert Put(q, Slot(first, atStart), atStart) in MergeOn(rows, dim, atStart);
        }
      }
    }
  }

  /** At most one station row per id. */
  ghost predicate UniqueIds(dim: seq<StationInfo>) {
    forall i, j :: 0 <= i < j < |dim| ==> dim[i].id != dim[j].id
  }

  /** The station row with a given id, looked up. */
  function Lookup(dim: seq<StationInfo>, id: int): (info: Option<StationInfo>)
    ensures Matching(dim, id, info)
  {
    var matches := Filter(dim, HasStationId(id));
    if matches == [] then
      assert forall s :: s in dim ==> s.id != id by {
        forall s | s in dim ensures s.id != id {
          assert HasStationId(id)(s) ==> s in matches;
        }
      }
      None
    else
      assert matches[0] in matches;
      Some(matches[0])
  }

  lemma {:induction false} UniqueIdsMatchOnce(dim: seq<StationInfo>, id: int)
    requires UniqueIds(dim)
    ensures |Filter(dim, HasStationId(id))| <= 1
  {
    if dim != [] {
      var n := |dim| - 1;
      var front := dim[..n];
      UniqueIdsMatchOnce(front, id);
      if dim[n].id == id {
        forall s | s in front ensures !HasStationId(id)(s) {
          var j :| 0 <= j < n && front[j] == s;
        }
        FilterNone(front, HasStationId(id));
      }
    }
  }

  /** Each left row with the station looked up for it. */
  function Looked(rows: seq<Enriched>, dim: seq<StationInfo>, atStart: bool): seq<Enriched> {
    seq(|rows|, i requires 0 <= i < |rows| => Put(rows[i], Lookup(dim, KeyOf(rows[i], atStart)), atStart))
  }

  lemma LookedSnoc(rows: seq<Enriched>, dim: seq<StationInfo>, atStart: bool)
    requires rows != []
    ensures var n := |rows| - 1;
            Looked(rows, dim, atStart)
            == Looked(rows[..n], dim, atStart) + [Put(rows[n], Lookup(dim, KeyOf(rows[n], atStart)), atStart)]
  {
  }

  lemma {:induction false} MergeIsLooked(rows: seq<Enriched>, dim: seq<StationInfo>, atStart: bool)
    requires UniqueIds(dim)
    ensures MergeOn(rows, dim, atStart) == Looked(rows, dim, atStart)
  {
    if rows != [] {
      var n := |rows| - 1;
      MergeIsLooked(rows[..n], dim, atStart);
      AttachUnique(rows[n], dim, atStart);
      LookedSnoc(rows, dim, atStart);
    }
  }

  /** With one station row per id a left merge is a lookup: one row per
      left row, in the same order. */
  lemma MergeIsLookup(rows: seq<Enriched>, dim: seq<StationInfo>, atStart: bool)
    requires UniqueIds(dim)
    ensures |MergeOn(rows, dim, atStart)| == |rows|
    ensures forall i :: 0 <= i < |rows| ==>
              MergeOn(rows, dim, atStart)[i] == Put(rows[i], Lookup(dim, KeyOf(rows[i], atStart)), atStart)
  {
    MergeIsLooked(rows, dim, atStart);
  }

  /** With one station row per id, one left row gives exactly one merged
      row: the looked-up station, or empty columns. */
  lemma AttachUnique(r: Enriched, dim: seq<StationInfo>, atStart: bool)
    requires UniqueIds(dim)
    ensures Attach(r, Filter(dim, HasStationId(KeyOf(r, atStart))), atStart)
         == [Put(r, Lookup(dim, KeyOf(r, atStart)), atStart)]
  {
    UniqueIdsMatchOnce(dim, KeyOf(r, atStart));
  }

  /** With one station row per id every trip gets exactly one row, in
      order, carrying the station rows of its start and end ids. */
  lemma EnrichIsLookup(trips: seq<Trip>, dim: seq<StationInfo>)
    requires UniqueIds(dim)
    ensures |Enrich(trips, dim)| == |trips|
    ensures forall i :: 0 <= i < |trips| ==>
              Enrich(trips, dim)[i] == Enriched(trips[i], Lookup(dim, trips[i].startId), Lookup(dim, trips[i].endId))
  {
    var first := MergeOn(Bare(trips), dim, true);
    MergeIsLookup(Bare(trips), dim, true);
    MergeIsLookup(first, dim, false);
  }

  /** The number of rows a left merge produces: for each left row, its
      number of matches, or 1 when there is none. */
  function MergedCount(rows: seq<Enriched>, dim: seq<StationInfo>, atStart: bool): (c: nat)
    ensures c >= |rows|
  {
    if rows == [] then 0
    else
      var n := |rows| - 1;
      var m := |Filter(dim, HasStationId(KeyOf(rows[n], atStart)))|;
      MergedCount(rows[..n], dim, atStart) + if m == 0 then 1 else m
  }

  lemma {:induction false} MergedCountIsLength(rows: seq<Enriched>, dim: seq<StationInfo>, atStart: bool)
    ensures |MergeOn(rows, dim, atStart)| == MergedCount(rows, dim, atStart)
  {
    if rows != [] {
      MergedCountIsLength(rows[..|rows| - 1], dim, atStart);
      MergeLengthSnoc(rows, dim, atStart);
    }
  }

  /** The last left row adds one merged row per match, or one row. */
  lemma MergeLengthSnoc(rows: seq<Enriched>, dim: seq<StationInfo>, atStart: bool)
    requires rows != []
    ensures var n := |rows| - 1;
            var m := |Filter(dim, HasStationId(KeyOf(rows[n], atStart)))|;
            |MergeOn(rows, dim, atStart)| == |MergeOn(rows[..n], dim, atStart)| + if m == 0 then 1 else m
  {
  }

  lemma {:induction false} DuplicateIdGrowsCount(rows: seq<Enriched>, dim: seq<StationInfo>, atStart: bool,
                                                 i: nat, id: int)
    requires i < |rows| && KeyOf(rows[i], atStart) == id
    requires |Filter(dim, HasStationId(id))| >= 2
    ensures MergedCount(rows, dim, atStart) > |rows|
  {
    var n := |rows| - 1;
    if i < n {
      assert rows[..n][i] == rows[i];
      DuplicateIdGrowsCount(rows[..n], dim, atStart, i, id);
    }
  }

  /** A left row whose id the station table lists twice or more yields as
      many merged rows, so the merge grows past its left side. */
  lemma DuplicateIdGrowsMerge(rows: seq<Enriched>, dim: seq<StationInfo>, atStart: bool, i: nat, id: int)
    requires i < |rows| && KeyOf(rows[i], atStart) == id
    requires |Filter(dim, HasStationId(id))| >= 2
    ensures |MergeOn(rows, dim, atStart)| > |rows|
  {
    MergedCountIsLength(rows, dim, atStart);
    DuplicateIdGrowsCount(rows, dim, atStart, i, id);
  }

  /** Any trip whose start or end id is listed twice in the station table
      comes out of the two merges as more than one row, so the merged table
      has more rows than there are trips. */
  lemma DuplicateIdAddsRows(trips: seq<Trip>, dim: seq<StationInfo>, i: nat)
    requires i < |trips|
    requires |Filter(dim, HasStationId(trips[i].startId))| >= 2
             || |Filter(dim, HasStationId(trips[i].endId))| >= 2
    ensures |Enrich(trips, dim)| > |trips|
  {
    var bare := Bare(trips);
    var first := MergeOn(bare, dim, true);
    if |Filter(dim, HasStationId(trips[i].startId))| >= 2 {
      assert KeyOf(bare[i], true) == trips[i].startId;
      DuplicateIdGrowsMerge(bare, dim, true, i, trips[i].startId);
    } else {
      MergeKeepsRows(bare, dim, true);
      assert bare[i] in bare;
      var info :| Put(bare[i], info, true) in first;
      var k :| 0 <= k < |first| && first[k] == Put(bare[i], info, true);
      assert KeyOf(first[k], false) == trips[i].endId;
      DuplicateIdGrowsMerge(first, dim, false, k, trips[i].endId);
    }
  }

  /** A trip from station 1 to station 2, and a station table that lists
      station 1 twice. */
  const SampleTrip: Trip := Trip("b1", 1, 2, 0, 600, 10.0, 2.5)
  const StationA: StationInfo := StationInfo(1, "A", 48.85, 2.35)
  const StationABis: StationInfo := StationInfo(1, "A bis", 48.86, 2.36)
  const StationB: StationInfo := StationInfo(2, "B", 48.87, 2.37)
  const DuplicatedDim: seq<StationInfo> := [StationA, StationABis, StationB]

  /** A station id listed twice duplicates every trip that starts there. */
  lemma DuplicateIdDuplicatesTrips()
    ensures Enrich([SampleTrip], DuplicatedDim)
            == [Enriched(SampleTrip, Some(StationA), Some(StationB)), Enriched(SampleTrip, Some(StationABis), Some(StationB))]
  {
    StartMergeDuplicates();
    EndMergeOfDuplicates();
  }

  /** Station 1 matches two rows of the table, station 2 one. */
  lemma DuplicatedMatches()
    ensures Filter(DuplicatedDim, HasStationId(1)) == [StationA, StationABis]
    ensures Filter(DuplicatedDim, HasStationId(2)) == [StationB]
  {
    var dim, d2, d1 := DuplicatedDim, [StationA, StationABis], [StationA];
    assert dim[..2] == d2 && d2[..1] == d1 && d1[..0] == [];
    var at1, at2 := HasStationId(1), HasStationId(2);
    assert Filter(d1, at1) == [StationA];
    assert Filter(d2, at1) == [StationA, StationABis];
    assert Filter(d1, at2) == [];
    assert Filter(d2, at2) == [];
  }

  /** The start merge turns the trip into two rows. */
  lemma StartMergeDuplicates()
    ensures MergeOn(Bare([SampleTrip]), DuplicatedDim, true)
            == [Enriched(SampleTrip, Some(StationA), None), Enriched(SampleTrip, Some(StationABis), None)]
  {
    DuplicatedMatches();
    var bare := Bare([SampleTrip]);
    assert bare == [Enriched(SampleTrip, None, None)] && bare[..0] == [];
    assert KeyOf(bare[0], true) == 1 && MergeOn(bare[..0], DuplicatedDim, true) == [];
    assert MergeOn(bare, DuplicatedDim, true) == Attach(bare[0], [StationA, StationABis], true);
  }

  /** The end merge then fills station 2 into both rows. */
  lemma EndMergeOfDuplicates()
    ensures MergeOn([Enriched(SampleTrip, Some(StationA), None), Enriched(SampleTrip, Some(StationABis), None)],
                    DuplicatedDim, false)
            == [Enriched(SampleTrip, Some(StationA), Some(StationB)), Enriched(SampleTrip, Some(StationABis), Some(StationB))]
  {
    DuplicatedMatches();
    var f0, f1 := Enriched(SampleTrip, Some(StationA), None), Enriched(SampleTrip, Some(StationABis), None);
    var first := [f0, f1];
    assert first[..1] == [f0] && first[..1][..0] == [];
    assert KeyOf(f0, false) == 2 && KeyOf(f1, false) == 2;
    assert MergeOn(first[..1], DuplicatedDim, false) == Attach(f0, [StationB], false);
    assert MergeOn(first, DuplicatedDim, false) == Attach(f0, [StationB], false) + Attach(f1, [StationB], false);
  }

  // ---------------------------------------------------------------------
  // Most-used bike and longest trip (TopVelib.py, lines 95-101)

  function BikeIds(rows: seq<Enriched>): (ids: seq<string>)
    ensures |ids| == |rows|
    ensures forall i :: 0 <= i < |rows| ==> ids[i] == rows[i].trip.bikeId
  {
    seq(|rows|, i requires 0 <= i < |rows| => rows[i].trip.bikeId)
  }

  /** `trips_per_bike.sort_values("nb_trips", ascending=False).iloc[0]` over
      the merged rows. */
  function TopBike(rows: seq<Enriched>): (r: Result<(string, nat)>)
    ensures r.Err? <==> rows == []
    ensures r.Err? ==> r.error == IndexError
    ensures r.Ok? ==> r.value.0 in BikeIds(rows) && r.value.1 == Count(BikeIds(rows), r.value.0)
    ensures r.Ok? ==> forall b :: b in BikeIds(rows) ==> Count(BikeIds(rows), b) <= r.value.1
  {
    GenericStats.TopBike(BikeIds(rows))
  }

  /** With one station row per id the merges change no count, so the most
      used bike is the one of the raw trips. */
  lemma TopBikeOfRawTrips(trips: seq<Trip>, dim: seq<StationInfo>)
    requires UniqueIds(dim)
    ensures TopBike(Enrich(trips, dim)) == GenericStats.TopBike(RawBikeIds(trips))
  {
    EnrichIsLookup(trips, dim);
    assert BikeIds(Enrich(trips, dim)) == RawBikeIds(trips);
  }

  function RawBikeIds(trips: seq<Trip>): (ids: seq<string>)
    ensures |ids| == |trips|
    ensures forall i :: 0 <= i < |trips| ==> ids[i] == trips[i].bikeId
  {
    seq(|trips|, i requires 0 <= i < |trips| => trips[i].bikeId)
  }

  /** A duplicated station id makes the page report two trips for a bike
      that made one. */
  lemma DuplicateIdInflatesTopBike()
    ensures TopBike(Enrich([SampleTrip], DuplicatedDim)) == Ok(("b1", 2))
    ensures GenericStats.TopBike(RawBikeIds([SampleTrip])) == Ok(("b1", 1))
  {
    DuplicateIdDuplicatesTrips();
    var ids := BikeIds(Enrich([SampleTrip], DuplicatedDim));
    assert ids == ["b1", "b1"];
    assert ids[..1] == ["b1"] && ids[..1][..0] == [];
    assert Count(ids, "b1") == 2;
    var raw := RawBikeIds([SampleTrip]);
    assert raw == ["b1"] && raw[..0] == [];
    assert Count(raw, "b1") == 1;
  }

  function DistanceRank(r: Enriched): real {
    r.trip.distanceKm
  }

  /** `df_trips.sort_values("distance_km", ascending=False).iloc[0]`. */
  function LongestTrip(rows: seq<Enriched>): (r: Result<Enriched>)
    ensures r.Err? <==> rows == []
    ensures r.Err? ==> r.error == IndexError
    ensures r.Ok? ==> r.value in rows && forall o :: o in rows ==> o.trip.distanceKm <= r.value.trip.distanceKm
  {
    TopRow(rows, DistanceRank)
  }

  // ---------------------------------------------------------------------
  // Map of the longest trip (TopVelib.py, lines 142-145)

  /** A point of `map_data`; a missing coordinate is NaN. */
  datatype MapPoint = MapPoint(lat: Option<real>, lon: Option<real>, station: string)

  function LatOf(info: Option<StationInfo>): Option<real> {
    if info.Some? then Some(info.value.lat) else None
  }

  function LonOf(info: Option<StationInfo>): Option<real> {
    if info.Some? then Some(info.value.lon) else None
  }

  function MapData(r: Enriched): (points: seq<MapPoint>)
    ensures |points| == 2
  {
    [MapPoint(LatOf(r.start), LonOf(r.start), "Départ"), MapPoint(LatOf(r.end), LonOf(r.end), "Arrivée")]
  }

  /** The map of the longest trip (one station row per id): its departure
      point has the coordinates of the station with the trip's start id and
      its arrival point those of the end id, and a point has coordinates
      exactly when the station table knows that id. The trip is a longest
      one among the loaded trips. */
  lemma LongestTripMap(trips: seq<Trip>, dim: seq<StationInfo>)
    requires UniqueIds(dim) && trips != []
    ensures LongestTrip(Enrich(trips, dim)).Ok?
    ensures var r := LongestTrip(Enrich(trips, dim)).value;
            r.trip in trips && (forall t :: t in trips ==> t.distanceKm <= r.trip.distanceKm)
            && MapData(r)[0] == MapPoint(LatOf(Lookup(dim, r.trip.startId)), LonOf(Lookup(dim, r.trip.startId)), "Départ")
            && MapData(r)[1] == MapPoint(LatOf(Lookup(dim, r.trip.endId)), LonOf(Lookup(dim, r.trip.endId)), "Arrivée")
            && (MapData(r)[0].lat.Some? <==> exists s :: s in dim && s.id == r.trip.startId)
  {
    var rows := Enrich(trips, dim);
    EnrichIsLookup(trips, dim);
    var r := LongestTrip(rows).value;
    var k :| 0 <= k < |rows| && rows[k] == r;
    assert r.trip == trips[k];
    forall t | t in trips ensures t.distanceKm <= r.trip.distanceKm {
      var j :| 0 <= j < |trips| && trips[j] == t;
      assert rows[j] in rows;
    }
  }
}
