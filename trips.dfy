/** The trip dashboard ("Generic stats" page): the period filter, per-bike
    counts and the top bike, the longest trip, station activity combined by
    an outer join, the most and least active stations, the duration bins,
    short trips and the busiest station pairs. Trips are the rows returned
    by the trips query. */
module GenericStats {
  import opened Results
  import opened Seqs
  import opened Sorting
  import opened Clock

  /** A row of the trips table (the columns the modelled code reads).
      Times are whole seconds since the epoch, in UTC. */
  datatype Trip = Trip(
    bikeId: string,
    startId: int,
    startName: string,
    endId: int,
    endName: string,
    startTime: int,
    durationMin: real)

  // ---------------------------------------------------------------------
  // Period (Generic_stats.py, lines 66-83)

  const Horizons: map<string, nat> :=
    map["Jour N-1" := 1, "1 semaine" := 7, "2 semaines" := 14, "3 semaines" := 21, "4 semaines" := 30]

  /** "4 semaines" is 30 days, not 28. */
  lemma HorizonValues()
    ensures HorizonDays(Horizons, Some("Jour N-1")) == Ok(1)
    ensures HorizonDays(Horizons, Some("1 semaine")) == Ok(7)
    ensures HorizonDays(Horizons, Some("2 semaines")) == Ok(14)
    ensures HorizonDays(Horizons, Some("3 semaines")) == Ok(21)
    ensures HorizonDays(Horizons, Some("4 semaines")) == Ok(30)
  {
  }

  function StartsFrom(start: int): Trip -> bool {
    (t: Trip) => t.startTime >= start
  }

  /** `df[df["start_time"] >= start_date]`, in row order. */
  function KeepSince(trips: seq<Trip>, start: int): (kept: seq<Trip>)
    ensures forall t :: t in kept <==> t in trips && t.startTime >= start
  {
    Filter(trips, StartsFrom(start))
  }

  /** A longer period keeps every trip a shorter one keeps. */
  lemma LongerPeriodKeepsMore(trips: seq<Trip>, now: int, shorter: nat, longer: nat)
    requires shorter <= longer
    ensures forall t :: t in KeepSince(trips, WindowStart(now, shorter)) ==> t in KeepSince(trips, WindowStart(now, longer))
    ensures |KeepSince(trips, WindowStart(now, shorter))| <= |KeepSince(trips, WindowStart(now, longer))|
  {
    WindowStartAntitone(now, shorter, longer);
    FilterImplies(trips, StartsFrom(WindowStart(now, shorter)), StartsFrom(WindowStart(now, longer)));
  }

  // ---------------------------------------------------------------------
  // Bikes (Generic_stats.py, lines 95-108)

  function BikeIds(trips: seq<Trip>): (ids: seq<string>)
    ensures |ids| == |trips|
    ensures forall i :: 0 <= i < |trips| ==> ids[i] == trips[i].bikeId
  {
    if trips == [] then [] else BikeIds(trips[..|trips| - 1]) + [trips[|trips| - 1].bikeId]
  }

  /** `groupby("bike_id").size()`: one row per bike, in increasing id
      order, with its number of trips. */
  function BikeCounts(ids: seq<string>): (counts: seq<(string, nat)>)
    ensures |counts| == |Distinct(ids)|
    ensures forall b :: b in ids <==> exists i :: 0 <= i < |counts| && counts[i].0 == b
    ensures forall i :: 0 <= i < |counts| ==> counts[i].1 == Count(ids, counts[i].0) > 0
  {
    var keys := SortedUnique(ids);
    var counts := Tally(ids, keys);
    TallyRows(ids, keys);
    counts
  }

  /** The per-bike counts add up to the number of trips kept. */
  lemma BikeCountsTotal(ids: seq<string>)
    ensures TallyTotal(BikeCounts(ids)) == |ids|
  {
    TallyCoversRows(ids, SortedUnique(ids));
  }

  function CountRank(p: (string, nat)): real {
    p.1 as real
  }

  /** `bike_counts.iloc[0]` after the descending sort: a most-used bike, or
      `IndexError` when no trip was kept. */
  function TopBike(ids: seq<string>): (r: Result<(string, nat)>)
    ensures r.Err? <==> ids == []
    ensures r.Err? ==> r.error == IndexError
    ensures r.Ok? ==> r.value.0 in ids && r.value.1 == Count(ids, r.value.0)
    ensures r.Ok? ==> forall b :: b in ids ==> Count(ids, b) <= r.value.1
  {
    var counts := BikeCounts(ids);
    TopOfCounts(ids);
    TopRow(counts, CountRank)
  }

  /** The top row of the per-bike counts is a bike of the trips, with its
      count, and no bike has more trips. */
  lemma TopOfCounts(ids: seq<string>)
    ensures TopRow(BikeCounts(ids), CountRank).Err? <==> ids == []
    ensures TopRow(BikeCounts(ids), CountRank).Ok? ==>
              var top := TopRow(BikeCounts(ids), CountRank).value;
              top.0 in ids && top.1 == Count(ids, top.0) && forall b :: b in ids ==> Count(ids, b) <= top.1
  {
    var counts := BikeCounts(ids);
    var r := TopRow(counts, CountRank);
    if ids != [] {
      assert ids[0] in ids;
    }
    if r.Ok? {
      var top := r.value;
      var k :| 0 <= k < |counts| && counts[k] == top;
      assert top.0 in ids;
      forall b | b in ids ensures Count(ids, b) <= top.1 {
        var i :| 0 <= i < |counts| && counts[i].0 == b;
        assert counts[i] in counts;
        assert CountRank(counts[i]) <= CountRank(top);
      }
    }
  }

  function DurationRank(t: Trip): real {
    t.durationMin
  }

  /** `df.sort_values("duration_min", ascending=False).iloc[0]`. */
  function LongestTrip(trips: seq<Trip>): (r: Result<Trip>)
    ensures r.Err? <==> trips == []
    ensures r.Err? ==> r.error == IndexError
    ensures r.Ok? ==> r.value in trips && forall t :: t in trips ==> t.durationMin <= r.value.durationMin
  {
    TopRow(trips, DurationRank)
  }

  // ---------------------------------------------------------------------
  // Station activity (Generic_stats.py, lines 118-141)

  /** A row of `station_out` or `station_in`: a station id, the station name
      found with it, and the number of trips. */
  datatype Side = Side(id: int, name: string, count: nat)

  function OutKeys(trips: seq<Trip>): (keys: seq<(int, string)>)
    ensures |keys| == |trips|
    ensures forall i :: 0 <= i < |trips| ==> keys[i] == (trips[i].startId, trips[i].startName)
  {
    if trips == [] then []
    else
      var t := trips[|trips| - 1];
      OutKeys(trips[..|trips| - 1]) + [(t.startId, t.startName)]
  }

  function InKeys(trips: seq<Trip>): (keys: seq<(int, string)>)
    ensures |keys| == |trips|
    ensures forall i :: 0 <= i < |trips| ==> keys[i] == (trips[i].endId, trips[i].endName)
  {
    if trips == [] then []
    else
      var t := trips[|trips| - 1];
      InKeys(trips[..|trips| - 1]) + [(t.endId, t.endName)]
  }

  /** `groupby([id, name]).size()`: one row per (id, name) pair present,
      with its number of trips. */
  function Groups(keys: seq<(int, string)>): (g: seq<Side>)
    ensures forall s :: s in g <==> (s.id, s.name) in keys && s.count == Count(keys, (s.id, s.name))
    ensures |g| == |Distinct(keys)|
    ensures forall i, j :: 0 <= i < j < |g| ==> (g[i].id, g[i].name) != (g[j].id, g[j].name)
  {
    var d := Distinct(keys);
    var g := seq(|d|, i requires 0 <= i < |d| => Side(d[i].0, d[i].1, Count(keys, d[i])));
    GroupsMembers(keys, d, g);
    g
  }

  lemma GroupsMembers(keys: seq<(int, string)>, d: seq<(int, string)>, g: seq<Side>)
    requires forall k :: k in d <==> k in keys
    requires |g| == |d| && forall i :: 0 <= i < |d| ==> g[i] == Side(d[i].0, d[i].1, Count(keys, d[i]))
    ensures forall s :: s in g <==> (s.id, s.name) in keys && s.count == Count(keys, (s.id, s.name))
  {
    forall s | s in g ensures (s.id, s.name) in keys && s.count == Count(keys, (s.id, s.name)) {
      var i :| 0 <= i < |g| && g[i] == s;
      assert d[i] in d;
    }
    forall s: Side | (s.id, s.name) in keys && s.count == Count(keys, (s.id, s.name)) ensures s in g {
      var i :| 0 <= i < |d| && d[i] == (s.id, s.name);
      assert g[i] == s;
    }
  }

  /** A row of the outer merge after `fillna(0)`: the outgoing side, the
      incoming side, or both when their ids match. */
  datatype ActivityRow = ActivityRow(out: Option<Side>, inn: Option<Side>)

  function NbOut(r: ActivityRow): nat {
    if r.out.Some? then r.out.value.count else 0
  }

  function NbIn(r: ActivityRow): nat {
    if r.inn.Some? then r.inn.value.count else 0
  }

  /** `stations["total_activity"]` */
  function TotalActivity(r: ActivityRow): nat {
    NbOut(r) + NbIn(r)
  }

  /** The station id of a row. */
  function RowId(r: ActivityRow): int {
    if r.out.Some? then r.out.value.id else if r.inn.Some? then r.inn.value.id else 0
  }

  /** `start_station_name` as displayed: for a station that only appears
      as a destination `fillna(0)` leaves 0 there, shown here as `None`. */
  function ShownName(r: ActivityRow): Option<string> {
    if r.out.Some? then Some(r.out.value.name) else None
  }

  function HasId(id: int): Side -> bool {
    (s: Side) => s.id == id
  }

  function Paired(o: Side, matches: seq<Side>): (rows: seq<ActivityRow>)
    ensures |rows| == |matches|
    ensures forall i :: 0 <= i < |matches| ==> rows[i] == ActivityRow(Some(o), Some(matches[i]))
  {
    seq(|matches|, i requires 0 <= i < |matches| => ActivityRow(Some(o), Some(matches[i])))
  }

  /** The rows an outgoing group produces: one per incoming group with the
      same id, or one with an empty incoming side. */
  function MatchesOf(o: Side, ins: seq<Side>): seq<ActivityRow> {
    var matches := Filter(ins, HasId(o.id));
    if matches == [] then [ActivityRow(Some(o), None)] else Paired(o, matches)
  }

  function LeftPart(outs: seq<Side>, ins: seq<Side>): seq<ActivityRow> {
    if outs == [] then [] else LeftPart(outs[..|outs| - 1], ins) + MatchesOf(outs[|outs| - 1], ins)
  }

  function NoIdIn(outs: seq<Side>): Side -> bool {
    (s: Side) => !exists o :: o in outs && o.id == s.id
  }

  function Unmatched(ins: seq<Side>): (rows: seq<ActivityRow>)
    ensures |rows| == |ins|
    ensures forall i :: 0 <= i < |ins| ==> rows[i] == ActivityRow(None, Some(ins[i]))
  {
    seq(|ins|, i requires 0 <= i < |ins| => ActivityRow(None, Some(ins[i])))
  }

  /** `station_out.merge(station_in, left_on=..., right_on=..., how="outer")`
      on the station id. Row order is not modelled. */
  function OuterJoin(outs: seq<Side>, ins: seq<Side>): seq<ActivityRow> {
    LeftPart(outs, ins) + Unmatched(Filter(ins, NoIdIn(outs)))
  }

  lemma {:induction false} LeftPartRows(outs: seq<Side>, ins: seq<Side>, r: ActivityRow)
    requires r in LeftPart(outs, ins)
    ensures r.out.Some? && r.out.value in outs
    ensures r.inn.Some? ==> r.inn.value in ins && r.inn.value.id == r.out.value.id
    ensures r.inn.None? ==> forall i :: i in ins ==> i.id != r.out.value.id
  {
    var n := |outs| - 1;
    if r in LeftPart(outs[..n], ins) {
      LeftPartRows(outs[..n], ins, r);
    } else {
      var o := outs[n];
      var matches := Filter(ins, HasId(o.id));
      if matches != [] {
        var k :| 0 <= k < |matches| && Paired(o, matches)[k] == r;
        assert matches[k] in matches;
      } else {
        forall i | i in ins ensures i.id != o.id {
          assert HasId(o.id)(i) ==> i in matches;
        }
      }
    }
  }

  lemma {:induction false} LeftPartHas(outs: seq<Side>, ins: seq<Side>, j: nat, r: ActivityRow)
    requires j < |outs| && r in MatchesOf(outs[j], ins)
    ensures r in LeftPart(outs, ins)
  {
    var n := |outs| - 1;
    if j < n {
      assert outs[..n][j] == outs[j];
      LeftPartHas(outs[..n], ins, j, r);
    }
  }

  /** What the merge keeps: every group of either side has a row; a row
      pairs two groups only when their ids match, and leaves a side empty
      only when the other frame has no group with that id. */
  lemma OuterJoinRows(outs: seq<Side>, ins: seq<Side>)
    ensures forall o :: o in outs ==> exists r :: r in OuterJoin(outs, ins) && r.out == Some(o)
    ensures forall i :: i in ins ==> exists r :: r in OuterJoin(outs, ins) && r.inn == Some(i)
    ensures forall r :: r in OuterJoin(outs, ins) ==> r.out.Some? || r.inn.Some?
    ensures forall r :: r in OuterJoin(outs, ins) && r.out.Some? && r.inn.Some? ==> r.out.value.id == r.inn.value.id
    ensures forall r :: r in OuterJoin(outs, ins) && r.out.None? ==> forall o :: o in outs ==> o.id != r.inn.value.id
    ensures forall r :: r in OuterJoin(outs, ins) && r.inn.None? ==> forall i :: i in ins ==> i.id != r.out.value.id
  {
    forall r | r in OuterJoin(outs, ins)
      ensures r.out.Some? || r.inn.Some?
      ensures r.out.Some? && r.inn.Some? ==> r.out.value.id == r.inn.value.id
      ensures r.out.None? ==> forall o :: o in outs ==> o.id != r.inn.value.id
      ensures r.inn.None? ==> forall i :: i in ins ==> i.id != r.out.value.id
    {
      JoinRow(outs, ins, r);
    }
    forall o | o in outs ensures exists r :: r in OuterJoin(outs, ins) && r.out == Some(o) {
      OutGroupRow(outs, ins, o);
    }
    forall i | i in ins ensures exists r :: r in OuterJoin(outs, ins) && r.inn == Some(i) {
      InGroupRow(outs, ins, i);
    }
  }

  /** What one row of the merge holds. */
  lemma JoinRow(outs: seq<Side>, ins: seq<Side>, r: ActivityRow)
    requires r in OuterJoin(outs, ins)
    ensures r.out.Some? ==> r.out.value in outs && (r.inn.Some? ==> r.inn.value in ins)
    ensures r.out.None? ==> r.inn.Some? && r.inn.value in ins
    ensures r.out.Some? && r.inn.Some? ==> r.out.value.id == r.inn.value.id
    ensures r.out.None? ==> forall o :: o in outs ==> o.id != r.inn.value.id
    ensures r.inn.None? ==> forall i :: i in ins ==> i.id != r.out.value.id
  {
    var right := Unmatched(Filter(ins, NoIdIn(outs)));
    if r in LeftPart(outs, ins) {
      LeftPartRows(outs, ins, r);
    } else {
      assert r in right;
      var k :| 0 <= k < |right| && right[k] == r;
      assert Filter(ins, NoIdIn(outs))[k] in Filter(ins, NoIdIn(outs));
    }
  }

  lemma OutGroupRow(outs: seq<Side>, ins: seq<Side>, o: Side)
    requires o in outs
    ensures exists r :: r in OuterJoin(outs, ins) && r.out == Some(o)
  {
    var j :| 0 <= j < |outs| && outs[j] == o;
    var matches := Filter(ins, HasId(o.id));
    var r := if matches == [] then ActivityRow(Some(o), None) else ActivityRow(Some(o), Some(matches[0]));
    assert r in MatchesOf(o, ins) by {
      if matches != [] { assert Paired(o, matches)[0] == r; }
    }
    LeftPartHas(outs, ins, j, r);
  }

  lemma InGroupRow(outs: seq<Side>, ins: seq<Side>, i: Side)
    requires i in ins
    ensures exists r :: r in OuterJoin(outs, ins) && r.inn == Some(i)
  {
    if exists o :: o in outs && o.id == i.id {
      var o :| o in outs && o.id == i.id;
      var j :| 0 <= j < |outs| && outs[j] == o;
      var matches := Filter(ins, HasId(o.id));
      assert i in matches;
      var k :| 0 <= k < |matches| && matches[k] == i;
      var r := ActivityRow(Some(o), Some(i));
      assert Paired(o, matches)[k] == r;
      LeftPartHas(outs, ins, j, r);
    } else {
      var rest := Filter(ins, NoIdIn(outs));
      assert i in rest;
      var k :| 0 <= k < |rest| && rest[k] == i;
      assert Unmatched(rest)[k] == ActivityRow(None, Some(i));
    }
  }

  /** The station activity table. */
  function Activity(trips: seq<Trip>): seq<ActivityRow> {
    OuterJoin(Groups(OutKeys(trips)), Groups(InKeys(trips)))
  }

  function StartsAt(id: int): Trip -> bool {
    (t: Trip) => t.startId == id
  }

  function EndsAt(id: int): Trip -> bool {
    (t: Trip) => t.endId == id
  }

  /** Every trip leaving station `id` carries the same station name. */
  ghost predicate OneStartName(trips: seq<Trip>, id: int) {
    forall t, u :: t in trips && u in trips && t.startId == id && u.startId == id ==> t.startName == u.startName
  }

  ghost predicate OneEndName(trips: seq<Trip>, id: int) {
    forall t, u :: t in trips && u in trips && t.endId == id && u.endId == id ==> t.endName == u.endName
  }

  lemma {:induction false} OutCountIsStarts(trips: seq<Trip>, id: int, name: string)
    requires forall i :: 0 <= i < |trips| && trips[i].startId == id ==> trips[i].startName == name
    ensures Count(OutKeys(trips), (id, name)) == |Filter(trips, StartsAt(id))|
  {
    if trips != [] {
      var n := |trips| - 1;
      var t, front := trips[n], trips[..n];
      OutCountIsStarts(front, id, name);
      var keys, before := OutKeys(front), Filter(front, StartsAt(id));
      assert OutKeys(trips) == keys + [(t.startId, t.startName)];
      CountSnoc(keys, (t.startId, t.startName), (id, name));
      assert Filter(trips, StartsAt(id)) == if t.startId == id then before + [t] else before;
    }
  }

  lemma {:induction false} InCountIsEnds(trips: seq<Trip>, id: int, name: string)
    requires forall i :: 0 <= i < |trips| && trips[i].endId == id ==> trips[i].endName == name
    ensures Count(InKeys(trips), (id, name)) == |Filter(trips, EndsAt(id))|
  {
    if trips != [] {
      var n := |trips| - 1;
      var t, front := trips[n], trips[..n];
      InCountIsEnds(front, id, name);
      var keys, before := InKeys(front), Filter(front, EndsAt(id));
      assert InKeys(trips) == keys + [(t.endId, t.endName)];
      CountSnoc(keys, (t.endId, t.endName), (id, name));
      assert Filter(trips, EndsAt(id)) == if t.endId == id then before + [t] else before;
    }
  }

  /** The incoming side of a station's row counts its arrivals, or is empty
      when no trip ends there. */
  lemma IncomingSide(trips: seq<Trip>, id: int, r: ActivityRow)
    requires OneEndName(trips, id)
    requires r in Activity(trips) && r.out.Some? && r.out.value.id == id
    ensures NbIn(r) == |Filter(trips, EndsAt(id))|
  {
    JoinRow(Groups(OutKeys(trips)), Groups(InKeys(trips)), r);
    if r.inn.Some? {
      MatchedIncoming(trips, id, r.inn.value);
    } else {
      NoIncomingGroup(trips, id);
    }
  }

  /** The incoming group of a station counts all its arrivals. */
  lemma MatchedIncoming(trips: seq<Trip>, id: int, i: Side)
    requires OneEndName(trips, id)
    requires i in Groups(InKeys(trips)) && i.id == id
    ensures i.count == |Filter(trips, EndsAt(id))|
  {
    var keys := InKeys(trips);
    assert (id, i.name) in keys;
    var j :| 0 <= j < |keys| && keys[j] == (id, i.name);
    forall k | 0 <= k < |trips| && trips[k].endId == id ensures trips[k].endName == i.name {
      assert trips[j] in trips && trips[k] in trips;
    }
    InCountIsEnds(trips, id, i.name);
  }

  /** A station without an incoming group has no arrivals. */
  lemma NoIncomingGroup(trips: seq<Trip>, id: int)
    requires forall i :: i in Groups(InKeys(trips)) ==> i.id != id
    ensures Filter(trips, EndsAt(id)) == []
  {
    var keys := InKeys(trips);
    forall u | u in trips ensures !EndsAt(id)(u) {
      var j :| 0 <= j < |trips| && trips[j] == u;
      var k := keys[j];
      assert Side(k.0, k.1, Count(keys, k)) in Groups(keys);
    }
    FilterNone(trips, EndsAt(id));
  }

  /** A station some trip leaves from. */
  lemma LeavingStation(trips: seq<Trip>, id: int, t: Trip)
    requires t in trips && t.startId == id
    requires OneStartName(trips, id) && OneEndName(trips, id)
    ensures exists r :: r in Activity(trips) && RowId(r) == id
                      && NbOut(r) == |Filter(trips, StartsAt(id))| && NbIn(r) == |Filter(trips, EndsAt(id))|
  {
    var outs, ins := Groups(OutKeys(trips)), Groups(InKeys(trips));
    var j :| 0 <= j < |trips| && trips[j] == t;
    assert OutKeys(trips)[j] == (id, t.startName);
    OutCountIsStarts(trips, id, t.startName);
    var o := Side(id, t.startName, Count(OutKeys(trips), (id, t.startName)));
    assert o in outs;
    OutGroupRow(outs, ins, o);
    var r :| r in OuterJoin(outs, ins) && r.out == Some(o);
    assert r in Activity(trips);
    IncomingSide(trips, id, r);
    assert RowId(r) == id && NbOut(r) == |Filter(trips, StartsAt(id))|;
  }

  lemma NoOutGroup(trips: seq<Trip>, id: int)
    requires forall u :: u in trips ==> u.startId != id
    ensures forall o :: o in Groups(OutKeys(trips)) ==> o.id != id
  {
    var keys := OutKeys(trips);
    forall o | o in Groups(keys) ensures o.id != id {
      var k :| 0 <= k < |keys| && keys[k] == (o.id, o.name);
      assert trips[k] in trips;
    }
  }

  /** A station trips only arrive at. */
  lemma ArrivalOnlyStation(trips: seq<Trip>, id: int, t: Trip)
    requires t in trips && t.endId == id
    requires forall u :: u in trips ==> u.startId != id
    requires OneEndName(trips, id)
    ensures exists r :: r in Activity(trips) && RowId(r) == id
                      && NbOut(r) == |Filter(trips, StartsAt(id))| && NbIn(r) == |Filter(trips, EndsAt(id))|
  {
    var outs, ins := Groups(OutKeys(trips)), Groups(InKeys(trips));
    var j :| 0 <= j < |trips| && trips[j] == t;
    assert InKeys(trips)[j] == (id, t.endName);
    InCountIsEnds(trips, id, t.endName);
    var i := Side(id, t.endName, Count(InKeys(trips), (id, t.endName)));
    assert i in ins;
    InGroupRow(outs, ins, i);
    var r :| r in OuterJoin(outs, ins) && r.inn == Some(i);
    NoOutGroup(trips, id);
    JoinRow(outs, ins, r);
    assert r in Activity(trips) && r.out.None?;
    FilterNone(trips, StartsAt(id));
    assert RowId(r) == id && NbIn(r) == |Filter(trips, EndsAt(id))|;
  }

  /** Every station that some trip leaves from or arrives at has a row whose
      outgoing and incoming counts are its numbers of departures and
      arrivals, the missing side counted as 0. This holds when each station
      id comes with a single name on each side; otherwise the groups are per
      (id, name) pair. */
  lemma ActivityCountsTrips(trips: seq<Trip>, id: int)
    requires exists t :: t in trips && (t.startId == id || t.endId == id)
    requires OneStartName(trips, id) && OneEndName(trips, id)
    ensures exists r :: r in Activity(trips) && RowId(r) == id
                      && NbOut(r) == |Filter(trips, StartsAt(id))| && NbIn(r) == |Filter(trips, EndsAt(id))|
  {
    if exists t :: t in trips && t.startId == id {
      var t :| t in trips && t.startId == id;
      LeavingStation(trips, id, t);
    } else {
      var t :| t in trips && t.endId == id;
      ArrivalOnlyStation(trips, id, t);
    }
  }

  // ---------------------------------------------------------------------
  // Most and least active stations (Generic_stats.py, lines 145-159)

  function ActivityRank(r: ActivityRow): real {
    TotalActivity(r) as real
  }

  function NegActivityRank(r: ActivityRow): real {
    -(TotalActivity(r) as real)
  }

  /** `sort_values("total_activity", ascending=False).head(10)` */
  function MostActive(rows: seq<ActivityRow>): (top: seq<ActivityRow>)
    ensures |top| == if |rows| < 10 then |rows| else 10
    ensures multiset(top) <= multiset(rows)
    ensures forall i, j :: 0 <= i < j < |top| ==> TotalActivity(top[i]) >= TotalActivity(top[j])
    ensures forall i, r :: 0 <= i < |top| && r in multiset(rows) - multiset(top) ==> TotalActivity(r) <= TotalActivity(top[i])
  {
    SmallestBy(rows, 10, NegActivityRank)
  }

  /** `sort_values("total_activity").head(10)` */
  function LeastActive(rows: seq<ActivityRow>): (bottom: seq<ActivityRow>)
    ensures |bottom| == if |rows| < 10 then |rows| else 10
    ensures multiset(bottom) <= multiset(rows)
    ensures forall i, j :: 0 <= i < j < |bottom| ==> TotalActivity(bottom[i]) <= TotalActivity(bottom[j])
    ensures forall i, r :: 0 <= i < |bottom| && r in multiset(rows) - multiset(bottom) ==> TotalActivity(bottom[i]) <= TotalActivity(r)
  {
    SmallestBy(rows, 10, ActivityRank)
  }

  // ---------------------------------------------------------------------
  // Duration bins and short trips (Generic_stats.py, lines 227-233 and 257)

  const Edges: seq<real> := [0.0, 5.0, 15.0, 30.0, 1000.0]
  const BinLabels: seq<string> := ["<5 min", "5–15 min", "15–30 min", ">30 min"]

  /** `pd.cut(duration, bins=[0, 5, 15, 30, 1000])`: the index of the
      right-closed interval holding the duration, or `None` (NaN) outside
      (0, 1000]. */
  function Bin(d: real): (b: Option<nat>)
    ensures b.Some? ==> b.value < 4 && Edges[b.value] < d <= Edges[b.value + 1]
    ensures b.None? <==> d <= 0.0 || d > 1000.0
  {
    if d <= 0.0 then None
    else if d <= 5.0 then Some(0)
    else if d <= 15.0 then Some(1)
    else if d <= 30.0 then Some(2)
    else if d <= 1000.0 then Some(3)
    else None
  }

  function BinsOf(trips: seq<Trip>): (bins: seq<Option<nat>>)
    ensures |bins| == |trips|
    ensures forall i :: 0 <= i < |trips| ==> bins[i] == Bin(trips[i].durationMin)
  {
    if trips == [] then [] else BinsOf(trips[..|trips| - 1]) + [Bin(trips[|trips| - 1].durationMin)]
  }


  /** `value_counts().sort_index()`: the four labels in order, each with its
      number of trips (0 for an empty bin). */
  function DurationDistribution(trips: seq<Trip>): (dist: seq<(string, nat)>)
    ensures |dist| == 4
    ensures forall k :: 0 <= k < 4 ==> dist[k] == (BinLabels[k], Count(BinsOf(trips), Some(k)))
  {
    var bins := BinsOf(trips);
    [(BinLabels[0], Count(bins, Some(0))), (BinLabels[1], Count(bins, Some(1))),
     (BinLabels[2], Count(bins, Some(2))), (BinLabels[3], Count(bins, Some(3)))]
  }

  /** The four bins and the out-of-range durations together hold every
      trip exactly once. */
  lemma BinsPartitionTrips(trips: seq<Trip>)
    ensures TallyTotal(DurationDistribution(trips)) + Count(BinsOf(trips), None) == |trips|
  {
    BinCountsCover(BinsOf(trips));
    TallyTotalOfFour(DurationDistribution(trips));
  }

  lemma {:induction false} BinCountsCover(bins: seq<Option<nat>>)
    requires forall i :: 0 <= i < |bins| ==> bins[i].None? || bins[i].value < 4
    ensures Count(bins, Some(0)) + Count(bins, Some(1)) + Count(bins, Some(2)) + Count(bins, Some(3))
            + Count(bins, None) == |bins|
  {
    if bins != [] {
      var n := |bins| - 1;
      var front, b := bins[..n], bins[n];
      BinCountsCover(front);
      assert bins == front + [b];
      CountSnoc(front, b, Some(0));
      CountSnoc(front, b, Some(1));
      CountSnoc(front, b, Some(2));
      CountSnoc(front, b, Some(3));
      CountSnoc(front, b, None);
    }
  }


  lemma TallyTotalOfFour<T>(t: seq<(T, nat)>)
    requires |t| == 4
    ensures TallyTotal(t) == t[0].1 + t[1].1 + t[2].1 + t[3].1
  {
    var t3, t2, t1 := t[..3], t[..2], t[..1];
    assert t3[..2] == t2 && t2[..1] == t1 && t1[..0] == [];
    assert TallyTotal(t1) == t[0].1;
    assert TallyTotal(t2) == TallyTotal(t1) + t[1].1;
    assert TallyTotal(t3) == TallyTotal(t2) + t[2].1;
  }

  /** `duration_min < 5` */
  predicate IsShort(t: Trip) {
    t.durationMin < 5.0
  }

  function ShortTrips(trips: seq<Trip>): (short: seq<Trip>)
    ensures forall t :: t in short <==> t in trips && t.durationMin < 5.0
  {
    Filter(trips, IsShort)
  }

  /** Short trips of positive duration are in the "<5 min" bin, and that
      bin holds no other trips than the short ones and those of exactly
      five minutes. */
  lemma ShortTripsAndFirstBin(t: Trip)
    ensures IsShort(t) && t.durationMin > 0.0 ==> Bin(t.durationMin) == Some(0)
    ensures Bin(t.durationMin) == Some(0) ==> IsShort(t) || t.durationMin == 5.0
    ensures Bin(5.0) == Some(0) && !IsShort(t.(durationMin := 5.0))
  {
  }

  // ---------------------------------------------------------------------
  // Station pairs (Generic_stats.py, lines 271-278)

  function PairKeys(trips: seq<Trip>): (keys: seq<(string, string)>)
    ensures |keys| == |trips|
    ensures forall i :: 0 <= i < |trips| ==> keys[i] == (trips[i].startName, trips[i].endName)
  {
    if trips == [] then []
    else
      var t := trips[|trips| - 1];
      PairKeys(trips[..|trips| - 1]) + [(t.startName, t.endName)]
  }

  /** `groupby(["start_station_name", "end_station_name"]).size()` */
  function PairCounts(trips: seq<Trip>): (counts: seq<((string, string), nat)>)
    ensures |counts| == |Distinct(PairKeys(trips))|
    ensures forall i :: 0 <= i < |counts| ==> counts[i].1 == Count(PairKeys(trips), counts[i].0) > 0
    ensures forall k :: k in PairKeys(trips) <==> exists i :: 0 <= i < |counts| && counts[i].0 == k
  {
    var keys := PairKeys(trips);
    var counts := Tally(keys, Distinct(keys));
    TallyRows(keys, Distinct(keys));
    counts
  }

  lemma PairCountsTotal(trips: seq<Trip>)
    ensures TallyTotal(PairCounts(trips)) == |trips|
  {
    TallyCoversRows(PairKeys(trips), Distinct(PairKeys(trips)));
  }

  function NegPairRank(p: ((string, string), nat)): real {
    -(p.1 as real)
  }

  /** `station_pairs.head(10)` after the descending sort. */
  function TopPairs(counts: seq<((string, string), nat)>): (top: seq<((string, string), nat)>)
    ensures |top| == if |counts| < 10 then |counts| else 10
    ensures multiset(top) <= multiset(counts)
    ensures forall i, j :: 0 <= i < j < |top| ==> top[i].1 >= top[j].1
    ensures forall i, p :: 0 <= i < |top| && p in multiset(counts) - multiset(top) ==> p.1 <= top[i].1
  {
    SmallestBy(counts, 10, NegPairRank)
  }
}
