# Vélibstat dashboard logic in Dafny

Vélibstat is a set of Streamlit pages about the Vélib' Métropole bike-share
network. Most of each page is I/O or rendering: it fetches the GBFS feeds
`station_status.json` and `station_information.json`, queries BigQuery, and draws
metrics, maps and charts. This project models the deterministic logic in
between, page by page, and proves what that logic promises.

- **Home** (`Home.py`): the positional `extract_bike_types`, which gives `None`
  for a missing count and raises on a one-element list. Also the seven
  network-wide indicators.
- **Departements & Villes** (`pages/Ville.py`):
  - the two insertion-ordered region indexes built from `communes.json`;
  - the first-match `find_location` lookup;
  - the unlocated-station report;
  - that page's own `extract_bike_types`;
  - the city sort key built from the digits of a name;
  - the city selector, the per-tab figures and the per-department `groupby`.
- **Station** (`pages/Station.py`):
  - the summing `extract_bike_types`, written as a loop;
  - the station picker and the selection filter;
  - the indicators and the free-docks clamp;
  - the period pills and the history request.
- **Generic stats** (`pages/Generic_stats.py`):
  - the period filter;
  - per-bike counts, the top bike and the longest trip;
  - station activity: outgoing and incoming counts combined by an outer merge;
  - the most and least active stations;
  - duration bins and short trips;
  - the busiest station pairs.
- **Top vélos** (`pages/TopVelib.py`):
  - the rolling query window;
  - the two left merges with the station dimension table;
  - the most-used bike;
  - the longest trip by distance and its two-point map.

## Representation

- **Shared modules.**
  - `Results`: Python's exceptions become values. `Result` carries `IndexError`,
    `KeyError`, `TypeError` or `AttributeError`.
  - `Seqs`: `groupby(...).size()`, `unique()`, `nunique()` and column sums, as
    functions on sequences.
  - `Sorting`: `sorted`, `sort_values(...).head(n)` and `.iloc[0]`.
  - `Clock`: times are whole seconds since the epoch, in UTC.
  - `Gbfs`: the `num_bikes_available_types` cell.
- **DataFrames.** A DataFrame is a sequence of row datatypes holding only the
  columns the code reads. A missing value (NaN / `None`) is an `Option`.
- **Dicts filled in a loop.** The region dicts are built by
  `setdefault(...).append` loops. They are `OrderedIndex` values: the keys in
  insertion order, plus a map to polygon lists. The builders are methods with
  loops, each proved equal to a specification function (`Grouped` of the
  added pairs).
- **Loops and the rest.** These are methods with loops:
  - `find_location`'s early-`break` scans (`FindFirst`);
  - the per-station `apply` of `find_location` (`LocateAll`);
  - the Station page's accumulating `extract_bike_types`.

  `SetDefaultAppend` and `FindLocation` are loop-free methods. Everything else
  is functions.
- **Geometry.** Polygon construction (`shapely.geometry.shape`) and point
  containment (`Polygon.contains`) are function parameters. Polygons and
  contours are opaque types.

## Edge behaviour of the code

- **Exceptions that stop the region load.** The department loop skips a
  malformed commune with a warning in most cases, but two exceptions escape
  it and stop the whole load.
  - A truthy `departement` that is not an object (a string, a number, a
    list) has no `.get`. The call is outside the `try` (`pages/Ville.py:43`),
    so it raises `AttributeError`.
  - The `except` handler formats `commune['nom']` with a subscript
    (`pages/Ville.py:50`). A commune without `nom` whose contour fails to build
    therefore raises `KeyError` from the handler.

  `BuildDepartmentIndex` returns the exception of the first commune that
  raises.
- **Coordinates are not checked.** `find_location` (`pages/Ville.py:107-124`)
  does not check that a point's coordinates are finite. `FindLocation` takes
  any point and returns whatever the containment predicate says.
- **Department object without a code.** A `departement` object without a
  `code` member is filed under the key `None` (`pages/Ville.py:43,48`). A hit on
  that key then cannot be told apart from no match (`CodeOf`).
- **One-element bike-type list on the home page.** `extract_bike_types` reads
  `x[1]` whenever the first element is a dict (`Home.py:41`), so a list with a
  single object raises `IndexError`. This is an error result, not a
  precondition.

## Model

| member | source | states |
|---|---|---|
| `Results.ApplyAll` | Home.py:45 | `Series.apply` of a function that may raise: it succeeds exactly when every cell succeeds, and then holds one result per cell, in order; otherwise it raises an error one of the cells raises. |
| `Sorting.SortedUnique` | pages/Station.py:50 | `sorted(unique())` over strings: the same set of names, strictly increasing under Python's code-point order, no duplicates, as many as there are distinct names. |
| `Sorting.SortByStable` | pages/Ville.py:170-173 | `sorted(..., key=...)` is stable: elements with equal keys keep their input order. |
| `Sorting.SmallestBy` | pages/Generic_stats.py:156-157 | `sort_values(key).head(n)`: min(n, length) rows taken from the input, in key order, and no row left out has a smaller key than a kept one. |
| `Sorting.TopRow` | pages/Generic_stats.py:103 | `sort_values(key, ascending=False).iloc[0]`: `IndexError` exactly when there are no rows, and otherwise a row whose key is at least every row's key. |
| `Seqs.Distinct` | pages/Ville.py:168 | `Series.unique()`: each value of the column once, in order of first occurrence, and no other. |
| `Seqs.Tally` | pages/Generic_stats.py:95-98 | `groupby(...).size()` over given keys: one row per key, in key order, holding the key's number of occurrences. |
| `Seqs.TallyCoversRows` | pages/Generic_stats.py:95-98 | When the keys are distinct and cover every row, the sizes add up to the number of rows. |
| `Sorting.SortBy` | pages/Ville.py:170-173 | `sorted(..., key=...)`: a permutation of the input, in non-decreasing key order. |
| `Sorting.SortStrings` | pages/Station.py:50 | `sorted` over strings: a permutation of the input, in code-point order. |
| `Clock.MidnightUtc` | pages/Generic_stats.py:80-81 | `Timestamp.now(tz=utc).normalize()`: the midnight that starts the current UTC day. |
| `Clock.WindowStart` | pages/Generic_stats.py:80-82 | `today - timedelta(days)` with `today` the current UTC midnight: a midnight, at most one day before `now - days` days. |
| `Clock.WindowStartAntitone` | pages/Generic_stats.py:82 | A longer period starts no later than a shorter one. |
| `Clock.HorizonDays` | pages/Station.py:95 | `horizon_map[periode_label]`: the day count of a known pill, and `KeyError` when the pill is deselected (`None`) or unknown. |
| `Clock.PeriodStart` | pages/Station.py:95-99 | The window start of the selected pill, or the `KeyError` of the lookup. |
| `RegionIndex.FlattenAppend` | pages/Ville.py:29-33 | Flattening the top-level entries (a list iterated element by element, anything else as a one-element list) distributes over concatenation of the file. |
| `RegionIndex.Grouped` | pages/Ville.py:48 | The dict that `setdefault(key, []).append(poly)` builds: each key once, and exactly the keys that hold a list. |
| `RegionIndex.GroupedSnoc` | pages/Ville.py:48 | One `setdefault(...).append`: a new key goes at the end of the key order and gets `[poly]`; an existing key keeps its place and gets `poly` appended. |
| `RegionIndex.GroupedKeyOrder` | pages/Ville.py:48 | The keys of the dict are in order of first occurrence in the file. |
| `RegionIndex.GroupSize` | pages/Ville.py:48 | A key's list holds as many polygons as there were successful entries for that key. |
| `RegionIndex.PolysForAbsent` | pages/Ville.py:48 | A key never filed has no polygons. |
| `RegionIndex.GroupedTotal` | pages/Ville.py:48 | The lists together hold every polygon built, none lost or duplicated. |
| `RegionIndex.KeysOfLength` | pages/Ville.py:48 | One key per filed polygon. |
| `RegionIndex.SizesAreCounts` | pages/Ville.py:48 | Summing list sizes over any keys gives the number of filings under those keys. |
| `RegionIndex.AddedAppend` | pages/Ville.py:29-50 | What is filed, and what is warned about, for two runs of records concatenated is the concatenation of each run's. |
| `RegionIndex.SetDefaultAppend` | pages/Ville.py:48 | `setdefault(key, []).append(poly)` on the dict built so far gives the dict of the pairs with the new one added. |
| `RegionIndex.BuildDepartmentIndex` | pages/Ville.py:28-50 | The department loop. Non-dicts warn and are skipped. A missing, null or falsy `departement` warns with the commune name (`Inconnu` if absent) and is skipped. A built polygon is filed under `departement.get("code")`, possibly `None`. A failed contour warns. The load ends with the exception of the first commune that raises: `AttributeError` for a truthy non-object `departement`, or the handler's `KeyError` for a commune without `nom`. |
| `RegionIndex.DepartmentStepEffect` | pages/Ville.py:34-50 | One commune raises exactly when its `departement` is truthy and either not an object (`AttributeError`, from `.get` before the `try`) or its contour fails and it has no `nom` (`KeyError`). A filed polygon comes from a non-empty department object and the built contour, under that object's `code`. |
| `RegionIndex.FirstCrash` | pages/Ville.py:28-50 | No exception exactly when no commune raises. Otherwise the exception is that of the earliest commune that raises. |
| `RegionIndex.FirstCrashAppend` | pages/Ville.py:28-50 | Two batches of communes raise what the first batch raises, and otherwise what the second raises. |
| `RegionIndex.FileDepartmentItems` | pages/Ville.py:33-50 | The inner loop over one entry's items continues the state of the items already seen. |
| `RegionIndex.FileDepartmentItem` | pages/Ville.py:34-50 | One commune: the state after it is the specification applied to the items seen plus this one. |
| `RegionIndex.BuildCommuneIndex` | pages/Ville.py:53-69 | The commune loop. Non-dicts and communes with a missing, null or empty `nom` are skipped silently. A built polygon is filed under the name, so communes sharing a name share one list. A failed contour warns. |
| `RegionIndex.FileCommuneItems` | pages/Ville.py:57-69 | The inner loop over one entry's items continues the state of the items already seen. |
| `RegionIndex.FileCommuneItem` | pages/Ville.py:57-69 | One commune: the state after it is the specification applied to the items seen plus this one. |
| `RegionIndex.CrashPersists` | pages/Ville.py:43-50 | Once the department load has raised, later records neither undo nor change the exception. |
| `RegionIndex.FlattenSnoc` | pages/Ville.py:29-33 | One more top-level entry contributes exactly its own items. |
| `RegionIndex.StepsSnoc` | pages/Ville.py:33-50 | One more commune adds at most its own filing or warning to the department index, and raises its own exception only if nothing raised before. |
| `RegionIndex.CommuneStepsSnoc` | pages/Ville.py:57-69 | One more commune adds at most its own filing or warning to the commune index. |
| `RegionIndex.SkippedItemIsHarmless` | pages/Ville.py:34-41 | A commune that is skipped with a warning changes nothing else in the department index: the same filings, the same exception if any, and one warning more. |
| `RegionIndex.SkippedStepIsHarmless` | pages/Ville.py:34-50 | The same, for any skipped step. |
| `RegionIndex.CrashedSkip` | pages/Ville.py:43-50 | Removing a step that does not raise does not change whether the load raises, nor which exception it raises. |
| `RegionIndex.AnyContains` | pages/Ville.py:113 | `any(p.contains(point) for p in polys)` holds exactly when some polygon of the list contains the point. |
| `RegionIndex.FirstHitFrom` | pages/Ville.py:112-115 | Scanning from a key position, it returns no key exactly when no later key's list contains the point. Otherwise it returns the first such key. |
| `RegionIndex.FirstHitIsEarliest` | pages/Ville.py:112-115 | A key that contains the point guarantees a hit, and the hit comes no later in insertion order: later matching keys never win. |
| `RegionIndex.FindFirst` | pages/Ville.py:112-115 | The loop with `break` returns exactly the first matching key in insertion order, or `None`. |
| `RegionIndex.CodeOf` | pages/Ville.py:111-115 | The reported code is missing exactly when no department matched, or when the match is the key `None`. A match on a key `Some(c)` reports `c`. |
| `RegionIndex.FindLocation` | pages/Ville.py:107-124 | The department code and the commune name are two independent first-match searches, one per index. |
| `RegionIndex.LocateAll` | pages/Ville.py:127-131 | `df.apply(find_location)` gives one (code, commune) pair per station, in row order, each the lookup of that station's point. |
| `Ville.ExtractBikeTypes` | pages/Ville.py:80-86 | (0, 0) for a non-list, an empty list or a non-dict first element. With a single element the e-bike count is 0. `AttributeError` exactly when the first element is a dict and the second is not. Otherwise, with a dict first element, the mechanical count is its `mechanical` member or 0, and with a dict second element the e-bike count is its `ebike` member or 0. |
| `Ville.UnlocatedPartition` | pages/Ville.py:134 | The unlocated stations are exactly those whose department or commune is missing. Together with the located ones they make up all the rows. |
| `Ville.UnlocatedWarning` | pages/Ville.py:136-137 | The warning is shown exactly when some station is unlocated, and it reports their number. |
| `Ville.MetricsOf` | pages/Ville.py:189-200 | The tab figures: the station count is the number of rows, and no more stations are in service than there are. |
| `Ville.CityKey` | pages/Ville.py:172 | The sort key is 0 for a name without digits. |
| `Ville.Decimal` | pages/Ville.py:172 | A decimal numeral is a non-empty string of ASCII digits. |
| `Ville.DigitsValueOfDecimal` | pages/Ville.py:172 | `int` of a numeral gives back its number. |
| `Ville.FilterDigitsOfDecimal` | pages/Ville.py:172 | `filter(str.isdigit, ...)` keeps a numeral whole. |
| `Ville.NumberedNameKey` | pages/Ville.py:172 | A name made of a digit-free prefix, a number and a digit-free suffix has that number as its key. |
| `Ville.NoDigitsFilter` | pages/Ville.py:172 | A name without digits keeps no characters under the digit filter. |
| `Ville.SecondBeforeTenth` | pages/Ville.py:170-173 | Example: the key puts "Paris 2e" before "Paris 10e" (2 < 10). The general property is `Ville.NumberedNameKey`. |
| `Ville.TenBeforeTwo` | pages/Ville.py:170-173 | Example: plain string order puts "Paris 10e" before "Paris 2e", which is why the page sorts by the key. |
| `Ville.KnownCities` | pages/Ville.py:168 | The city names of the rows, missing ones left out. |
| `Ville.CityOptions` | pages/Ville.py:168-174 | "Toutes les villes" first, then each city of the department once, ordered by the digit key. `TypeError` exactly when a station of the department has no city, because the key function is applied to NaN. |
| `Ville.CityOptionsStable` | pages/Ville.py:170-173 | Cities with equal keys keep their first-occurrence order (`unique()` order). |
| `Ville.TabStations` | pages/Ville.py:182-184 | The tab keeps exactly the stations of the department, and also of the selected city unless the sentinel is selected. |
| `Ville.WorkingIsSum` | pages/Ville.py:195 | The number of stations with `is_installed == 1` is the column sum of a 0/1 indicator. |
| `Ville.MetricsOfSplit` | pages/Ville.py:191-199 | Splitting the stations by a predicate and its negation splits each of the six figures into two parts that add up to it. |
| `Ville.CityTabSplitsDepartment` | pages/Ville.py:182-199 | For any department and commune, the commune tab's figures plus those of the department's other stations equal the sentinel tab's figures, figure by figure. |
| `Ville.Tab` | pages/Ville.py:189-202 | Figures exactly when some station is kept, computed over the kept stations. Otherwise the warning names the selected city, or the department heading under the sentinel. |
| `Ville.OptionsSelectStations` | pages/Ville.py:174-184 | Every city the selector offers shows figures: no offered choice leads to the empty-data warning, and the sentinel does not either when the department has stations. |
| `Ville.KnownCodes` | pages/Ville.py:145 | The department codes of the rows, missing ones left out. |
| `Ville.SortedCodes` | pages/Ville.py:145 | The `groupby` keys: each code present once, in increasing order. |
| `Ville.DepartmentMetrics` | pages/Ville.py:145-152 | One group per code in key order. Each group's figures are those of exactly the stations with that code. |
| `Ville.DepartmentMetricsTotal` | pages/Ville.py:145-152 | The group sizes add up to the number of located stations: `groupby` drops the rows without a code and counts every other row once. |
| `Ville.SortedStrictNoDup` | pages/Ville.py:145 | Strictly increasing keys repeat none. |
| `Ville.TotalIsSumCounts` | pages/Ville.py:145-146 | The sum of the group sizes is the sum of the per-code counts. |
| `Ville.GroupSizeIsCount` | pages/Ville.py:146 | A group has as many stations as its code occurs. |
| `Ville.KnownCodesLength` | pages/Ville.py:145 | One code per located station. |
| `StationPage.ExtractBikeTypes` | pages/Station.py:22-30 | The loop's totals are the sums of `mechanical` and `ebike` (default 0) over the elements, non-dicts counting 0, and 0 for a non-list. |
| `StationPage.NonObjectsIgnored` | pages/Station.py:27 | Non-dict elements contribute nothing: the totals equal those over the dict elements alone. |
| `StationPage.SumOfZero` | pages/Station.py:27 | Helper: elements that each contribute 0 leave a total of 0. |
| `StationPage.TotalsNonNegative` | pages/Station.py:25-29 | With non-negative counts both totals are non-negative. |
| `StationPage.TotalsOrderIndependent` | pages/Station.py:26-29 | The totals do not depend on the order of the elements. |
| `StationPage.AgreesWithVilleOnUsualShape` | pages/Station.py:22-30 | On the usual two-element feed shape this page and the Departements & Villes page extract the same counts. |
| `StationPage.DiffersFromVilleOnThirdElement` | pages/Station.py:22-30 | A count in a third element is summed here and ignored by the positional extraction. |
| `StationPage.FreeDocks` | pages/Station.py:66 | Never negative. It is capacity minus the bikes when that is not negative, and 0 otherwise. |
| `StationPage.Names` | pages/Station.py:50 | The station names of the rows. |
| `StationPage.PickerList` | pages/Station.py:50 | "Toutes les stations" first, then every station name once, in strictly increasing order: one option more than there are distinct names. |
| `StationPage.Select` | pages/Station.py:53-56 | The sentinel keeps every row. A name keeps exactly the rows with that name. |
| `StationPage.IndicatorsOf` | pages/Station.py:63-66 | The totals are sums over the selected rows, and the free docks are the clamp of those totals. |
| `StationPage.SelectionSplitsTotals` | pages/Station.py:53-65 | A station's totals plus those of all other stations give the totals shown under the sentinel. |
| `StationPage.HorizonValues` | pages/Station.py:92-95 | "Jour N-1" is 1 day, "7 derniers jours" 7, and a deselected pill raises `KeyError`. |
| `StationPage.HistoryRequest` | pages/Station.py:122-126 | No history request under the sentinel. Otherwise `stationCode_info` of the first selected row, with the period's days, and `IndexError` exactly when no row has the selected name. |
| `StationPage.PickedStationHasHistory` | pages/Station.py:122-126 | Every option the picker of line 50 offers avoids the `IndexError`, and a history is requested exactly for a real station. |
| `Home.ExtractBikeTypes` | Home.py:37-43 | (None, None) for a non-list, an empty list or a non-dict first element. `IndexError` exactly for a one-element list with a dict. `AttributeError` exactly when the second element is not a dict. Otherwise the counts come from `x[0]["mechanical"]` and `x[1]["ebike"]`: each is present exactly when the member is, and then equals it. No other error is raised. |
| `Home.ComparedWithVille` | Home.py:37-43 | Where this extraction succeeds, the Departements & Villes one gives the same counts with 0 for `None`. A one-element list that raises here gives 0 e-bikes there. Both fail on the same inputs with `AttributeError`. |
| `Home.SumPresentAppend` | Home.py:50-53 | Column sums that skip missing values distribute over concatenation. |
| `Home.MissingContributesNothing` | Home.py:51-52 | A missing count contributes nothing to its column's sum. |
| `Home.Ids` | Home.py:54 | The `station_id` column. |
| `Home.Column` | Home.py:45-46 | The extracted mechanical or e-bike column, one entry per row. |
| `Home.HomeIndicators` | Home.py:45-55 | The page fails exactly when some cell's extraction fails. Otherwise: distinct station ids; distinct ids among `is_installed == 1`; capacity (line 67), docks and bikes as column sums; mechanical and e-bike totals as sums of the extracted columns with `None` skipped. |
| `Home.InServiceAtMostTotal` | Home.py:54-55 | No more stations are in service than there are stations. |
| `Home.StationsAreRowsWhenIdsUnique` | Home.py:54 | With unique ids the station count is the number of rows. |
| `GenericStats.HorizonValues` | pages/Generic_stats.py:66-72 | The pills are 1, 7, 14, 21 and 30 days: "4 semaines" is 30, not 28. |
| `GenericStats.KeepSince` | pages/Generic_stats.py:83 | Exactly the trips starting at or after the window start are kept. |
| `GenericStats.LongerPeriodKeepsMore` | pages/Generic_stats.py:80-83 | A longer period keeps every trip a shorter one keeps, so at least as many. |
| `GenericStats.BikeIds` | pages/Generic_stats.py:96 | The `bike_id` column. |
| `GenericStats.BikeCounts` | pages/Generic_stats.py:95-100 | One row per distinct bike, so "Nombre de vélos" is the number of distinct bikes. Each row holds that bike's number of trips, which is positive. |
| `GenericStats.BikeCountsTotal` | pages/Generic_stats.py:95-98 | The per-bike counts add up to the number of kept trips. |
| `GenericStats.TopBike` | pages/Generic_stats.py:102 | `IndexError` exactly when no trip is kept. Otherwise a bike of the trips with its trip count, at least every bike's count. |
| `GenericStats.LongestTrip` | pages/Generic_stats.py:103 | `IndexError` exactly when no trip is kept. Otherwise a kept trip whose duration is at least every trip's. |
| `GenericStats.OutKeys` | pages/Generic_stats.py:119 | The (start id, start name) of each trip, in order. |
| `GenericStats.InKeys` | pages/Generic_stats.py:125 | The (end id, end name) of each trip, in order. |
| `GenericStats.Groups` | pages/Generic_stats.py:118-128 | One row per (id, name) pair present, with its number of trips: no two rows share a pair, and there are as many rows as distinct pairs. |
| `GenericStats.GroupsMembers` | pages/Generic_stats.py:118-128 | The rows built from the distinct pairs are exactly the pairs with their counts. |
| `GenericStats.Paired` | pages/Generic_stats.py:130-137 | A left row merged with its matching right rows gives one row per match. |
| `GenericStats.Unmatched` | pages/Generic_stats.py:130-137 | Right rows without a match each get one row with an empty left side. |
| `GenericStats.OuterJoinRows` | pages/Generic_stats.py:130-139 | The outer merge on the station id loses no group of either side. A row pairs two groups only when their ids are equal. A side is empty only when the other frame has no group with that id. |
| `GenericStats.JoinRow` | pages/Generic_stats.py:130-139 | Each merged row comes from the groups and obeys those rules. |
| `GenericStats.OutGroupRow` | pages/Generic_stats.py:130-137 | Every outgoing group has a row. |
| `GenericStats.InGroupRow` | pages/Generic_stats.py:130-137 | Every incoming group has a row. |
| `GenericStats.LeftPartRows` | pages/Generic_stats.py:130-137 | The rows of the left part carry an outgoing group and, if any, a matching incoming one. |
| `GenericStats.LeftPartHas` | pages/Generic_stats.py:130-137 | The left part holds every row produced for each outgoing group. |
| `GenericStats.OutCountIsStarts` | pages/Generic_stats.py:118-122 | With one name per start id, the outgoing count of a station is its number of departures. |
| `GenericStats.InCountIsEnds` | pages/Generic_stats.py:124-128 | With one name per end id, the incoming count of a station is its number of arrivals. |
| `GenericStats.IncomingSide` | pages/Generic_stats.py:130-141 | A departure station's `nb_in` is its number of arrivals, 0 after `fillna` when it has none. |
| `GenericStats.NoOutGroup` | pages/Generic_stats.py:118-122 | A station no trip leaves from has no outgoing group. |
| `GenericStats.LeavingStation` | pages/Generic_stats.py:118-141 | A station some trip leaves from has a row with its departures and arrivals. |
| `GenericStats.ArrivalOnlyStation` | pages/Generic_stats.py:124-141 | A station trips only arrive at has a row with `nb_out` 0 and its arrivals. |
| `GenericStats.ActivityCountsTrips` | pages/Generic_stats.py:118-141 | Every station some trip starts or ends at has a row. Its `nb_out` and `nb_in` are its numbers of departures and arrivals (0 for a missing side), so `total_activity` is their sum. Needs one name per station id. |
| `GenericStats.MostActive` | pages/Generic_stats.py:147-149 | At most 10 rows, drawn from the table, by non-increasing `total_activity`. No row left out is more active than a kept one. |
| `GenericStats.LeastActive` | pages/Generic_stats.py:155-157 | At most 10 rows, drawn from the table, by non-decreasing `total_activity`. No row left out is less active than a kept one. |
| `GenericStats.Bin` | pages/Generic_stats.py:227-231 | The right-closed bins (0,5], (5,15], (15,30], (30,1000]. Durations outside (0,1000] fall in no bin. |
| `GenericStats.BinsOf` | pages/Generic_stats.py:227-231 | The bin of each trip, in order. |
| `GenericStats.DurationDistribution` | pages/Generic_stats.py:233 | The four labels in order, each with its number of trips, 0 for an empty bin. |
| `GenericStats.BinsPartitionTrips` | pages/Generic_stats.py:227-233 | The four bins and the out-of-range durations together count every trip exactly once. |
| `GenericStats.BinCountsCover` | pages/Generic_stats.py:227-233 | Per-bin counts plus the out-of-range count make up all trips. |
| `GenericStats.TallyTotalOfFour` | pages/Generic_stats.py:233 | Helper: the total of a four-row count table is the sum of its rows. |
| `GenericStats.ShortTrips` | pages/Generic_stats.py:257 | Exactly the trips shorter than 5 minutes, strictly. |
| `GenericStats.ShortTripsAndFirstBin` | pages/Generic_stats.py:229-230 | A short trip (the filter of line 257) of positive duration is in the "<5 min" bin. That bin holds only short trips and those of exactly 5 minutes, and a 5-minute trip is in it without being short. |
| `GenericStats.PairKeys` | pages/Generic_stats.py:272 | The (start name, end name) of each trip, in order. |
| `GenericStats.PairCounts` | pages/Generic_stats.py:271-274 | One row per distinct name pair, each with its positive number of trips. |
| `GenericStats.PairCountsTotal` | pages/Generic_stats.py:271-274 | The pair counts add up to the number of kept trips. |
| `GenericStats.TopPairs` | pages/Generic_stats.py:275-278 | At most 10 pairs, drawn from the counts, in non-increasing count order. No pair left out has a larger count than a kept one. |
| `TopVelib.HorizonValues` | pages/TopVelib.py:32-39 | "Jour N-1" is 1 day, "7 jours" 7 and "14 jours" 14. A deselected pill raises `KeyError`. |
| `TopVelib.LoadTrips` | pages/TopVelib.py:56 | The query returns exactly the trips starting at or after `now` minus that many days. |
| `TopVelib.RollingWindowStartsLater` | pages/TopVelib.py:56 | This rolling window starts at or after the midnight-based window of the trip statistics page, and less than a day later. |
| `TopVelib.Put` | pages/TopVelib.py:74-90 | A merge fills its own station columns and leaves the trip and the other side's columns alone. |
| `TopVelib.Attach` | pages/TopVelib.py:74-81 | One left row gives one row per matching station row, or a single row when none matches. |
| `TopVelib.MergeOn` | pages/TopVelib.py:74-90 | A left merge never has fewer rows than its left side. |
| `TopVelib.Bare` | pages/TopVelib.py:68 | The trips before any merge, station columns empty. |
| `TopVelib.AttachRows` | pages/TopVelib.py:74-81 | Each row produced for a left row carries that row, and a station row with the joined id or empty columns when the table has none. |
| `TopVelib.MergeRowsMatch` | pages/TopVelib.py:74-90 | Every merged row comes from a left row. Its station columns come from a station row with the joined id, and are empty only when the table has no such row. |
| `TopVelib.MergeKeepsRows` | pages/TopVelib.py:74-90 | A left merge drops no trip. |
| `TopVelib.Lookup` | pages/TopVelib.py:74-90 | The station row found for an id has that id, and there is none only when the table lacks the id. |
| `TopVelib.UniqueIdsMatchOnce` | pages/TopVelib.py:74-90 | With unique station ids, at most one station row matches an id. |
| `TopVelib.MergeIsLookup` | pages/TopVelib.py:74-90 | With unique station ids, a left merge is a lookup: one row per left row, in order, with the looked-up station. |
| `TopVelib.EnrichIsLookup` | pages/TopVelib.py:74-90 | With unique station ids, both merges give exactly one row per trip, in order, with the start and end stations looked up. |
| `TopVelib.MergedCountIsLength` | pages/TopVelib.py:74-81 | A left merge has, for each left row, as many rows as the station table has rows with its id, or one row when it has none. |
| `TopVelib.DuplicateIdGrowsMerge` | pages/TopVelib.py:74-81 | For any left rows and station table: a row whose id the table lists at least twice makes the left merge longer than its left side. |
| `TopVelib.DuplicateIdAddsRows` | pages/TopVelib.py:74-90 | For any trips and station table: if some trip's start or end id is listed at least twice, the two merges give more rows than there are trips. |
| `TopVelib.DuplicateIdDuplicatesTrips` | pages/TopVelib.py:74-81 | Example of `TopVelib.DuplicateIdAddsRows`: with station 1 listed twice, one trip from 1 to 2 becomes two rows. |
| `TopVelib.BikeIds` | pages/TopVelib.py:95 | The `bike_id` column of the merged rows. |
| `TopVelib.RawBikeIds` | pages/TopVelib.py:95 | The `bike_id` column of the trips. |
| `TopVelib.TopBike` | pages/TopVelib.py:95-96 | `IndexError` exactly when there are no rows. Otherwise a bike of the rows with its row count, at least every bike's count. |
| `TopVelib.TopBikeOfRawTrips` | pages/TopVelib.py:74-96 | With unique station ids the top bike and its count are those of the raw trips. |
| `TopVelib.DuplicateIdInflatesTopBike` | pages/TopVelib.py:74-96 | Example: the same table makes the page report 2 trips for a bike that made 1. |
| `TopVelib.LongestTrip` | pages/TopVelib.py:101 | `IndexError` exactly when there are no rows. Otherwise a row whose `distance_km` is at least every row's. |
| `TopVelib.MapData` | pages/TopVelib.py:142-145 | Exactly two points. |
| `TopVelib.LongestTripMap` | pages/TopVelib.py:142-145 | After the merges of lines 74-101, with unique station ids and some trips: the longest trip is a loaded trip at least as long as every trip. "Départ" has the coordinates of the station with its start id, and "Arrivée" those of its end id. A point has coordinates exactly when the table knows the id. |

## Left out

- HTTP fetches of the GBFS feeds, BigQuery clients, SQL text and credentials:
  I/O. Rows arrive as parameters, already parsed, and the status/information
  `merge` of the Departements & Villes and Station pages is taken as done.
- The trip statistics query itself keeps only trips from the last 30 rolling
  days (`pages/Generic_stats.py:54`). Under "4 semaines", `GenericStats.KeepSince`
  therefore keeps every loaded row. Trips between midnight 30 days ago and 30
  days before now never reach the page, although the window starts at that
  midnight.
- Everything drawn through `st.*` (metrics, maps, charts, tabs, HTML sections,
  sidebars) and the `st.cache_data` time-to-live memoisation: rendering and
  framework plumbing. Warnings become a returned list.
- The read of `communes.json`: the parsed list of records is the input.
- `shapely` geometry (`shape`, `Polygon.contains`): kept abstract, as
  parameters.
- Means, medians, speeds, distance sums and `prop_short_trips`: floating-point
  statistics.
- Daily trip and distance series, the hourly profile and the electric/mechanical
  split (`pages/Generic_stats.py:166-214,222-225`): floating-point sums and
  date/hour extraction from timestamps.
- `datetime.fromtimestamp` and time zones: times are whole seconds since the
  epoch, in UTC. The current time is a parameter.
- The row chosen among ties by `sort_values(...).iloc[0]` and `.head(n)`: the
  default pandas sort is not stable. The top-row and top-n members only promise
  a row with the best key.
- `Sorting.SmallestBy`: breaks ties in input order, which the pandas sort does
  not promise. Only the key-order properties are claimed.
- Row order of the outer merge (`pages/Generic_stats.py:130-139`):
  `GenericStats.OuterJoin` lists matched and left-only rows first, then
  right-only rows. Only the set of rows and their contents are claimed.
- Float NaN in the integer columns and the `is_installed` column type: a missing
  count is `None`, and numeric columns are integers.
- `Home.HomeIndicators`: the `drop(columns=...)` calls raise `KeyError` when a
  feed lacks one of the dropped columns. This is not modelled; the columns are
  assumed present.
- `Ville.IsDigit`: accepts ASCII digits only. Python's `str.isdigit` also
  accepts other Unicode digits.
- `Ville.MetricsOf`: its own contract only states the row count and the
  in-service bound. `Ville.DepartmentMetrics` and `Ville.Tab` only equate their
  figures to `MetricsOf`. No contract restates the in-service count and the four
  sums as column sums. What is proved about them is additivity:
  `Ville.MetricsOfSplit` and `Ville.CityTabSplitsDepartment`.
- `GenericStats.ActivityCountsTrips`: proved only when each station id comes
  with a single name on each side. Otherwise pandas groups per (id, name) and
  the merge multiplies rows.
- `TopVelib.MapData`: its own contract only fixes the number of points. The
  coordinates are stated for the longest trip by `TopVelib.LongestTripMap`.
- The `start_date` of `pages/Station.py:97-99` is computed but unused by the
  history query, which applies its own rolling window in SQL. The query itself
  is not modelled beyond its arguments.
