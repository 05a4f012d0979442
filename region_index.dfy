/** The region index of the "Departements & Villes" page: two
    insertion-ordered dictionaries from a department code, and from a
    commune name, to the list of polygons of the communes filed under it,
    built from the parsed `communes.json`; and the first-match lookup that
    resolves a station's coordinates against both.

    GeoJSON parsing (`shape`) and point-in-polygon (`Polygon.contains`) are
    computational geometry inside a library; both are parameters here. */
module RegionIndex {
  import opened Results
  import opened Seqs

  /** A GeoJSON geometry as found under the `contour` key. */
  type Contour
  /** A geometry built from a contour. */
  type Polygon

  datatype Point = Point(lon: real, lat: real)

  /** The `nom` member of a commune object: absent, JSON null, or a string. */
  datatype Name = Absent | Null | Text(text: string)

  /** The `departement` member of a commune when present and not null: an
      object of string members, or any other JSON value, which Python finds
      truthy (a non-empty string, a non-zero number) or not. */
  datatype Departement = DeptObject(fields: map<string, string>) | DeptOther(truthy: bool)

  /** A commune object of `communes.json`; `departement` is `None` when the
      member is absent or null. */
  datatype Commune = Commune(
    nom: Name,
    departement: Option<Departement>,
    contour: Option<Contour>)

  /** An element of a top-level entry: a commune object or any other value. */
  datatype Item = CommuneObject(commune: Commune) | NotAnObject

  /** A top-level entry of the file: a list (iterated element by element) or
      a single value (treated as a one-element list). */
  datatype Entry = ListEntry(items: seq<Item>) | SingleEntry(item: Item)

  /** A diagnostic shown by `st.warning` during the load. */
  datatype Warning =
    | InvalidEntry                // not a dict
    | NoDepartment(name: string)  // missing or empty `departement`
    | PolygonError(name: string)  // the contour could not be built

  /** A Python dict from keys to polygon lists: its keys in insertion order
      and its contents. */
  datatype OrderedIndex<K> = OrderedIndex(keys: seq<K>, groups: map<K, seq<Polygon>>)

  /** What a dict is: each key once, and exactly the keys that hold a list. */
  ghost predicate Valid<K(!new)>(idx: OrderedIndex<K>) {
    NoDup(idx.keys) && forall k :: k in idx.groups <==> k in idx.keys
  }

  // ---------------------------------------------------------------------
  // Reading the file

  function ItemsOf(e: Entry): seq<Item> {
    match e
    case ListEntry(items) => items
    case SingleEntry(item) => [item]
  }

  /** All items of the file, one nesting level flattened, in file order. */
  function Flatten(data: seq<Entry>): seq<Item> {
    if data == [] then [] else Flatten(data[..|data| - 1]) + ItemsOf(data[|data| - 1])
  }

  lemma {:induction false} FlattenAppend(a: seq<Entry>, b: seq<Entry>)
    ensures Flatten(a + b) == Flatten(a) + Flatten(b)
  {
    if b == [] {
      assert a + b == a;
    } else {
      assert (a + b)[..|a + b| - 1] == a + b[..|b| - 1];
      FlattenAppend(a, b[..|b| - 1]);
    }
  }

  /** Python truthiness of the `nom` member. */
  predicate NameIsSet(n: Name) {
    n.Text? && n.text != ""
  }

  /** How `commune.get('nom', 'Inconnu')` prints. */
  function NameOrUnknown(n: Name): string {
    match n
    case Absent => "Inconnu"
    case Null => "None"
    case Text(s) => s
  }

  /** Python truthiness of the `departement` member: present, not null, and
      a non-empty object or a truthy other value. */
  predicate DepartmentIsSet(d: Option<Departement>) {
    d.Some? &&
    match d.value
    case DeptObject(fields) => fields != map[]
    case DeptOther(truthy) => truthy
  }

  /** `departement.get("code")`: a department object without a code gives
      `None`, which then serves as a dict key like any other. */
  function DepartmentCode(d: map<string, string>): Option<string> {
    if "code" in d then Some(d["code"]) else None
  }

  /** `shape(commune["contour"])` inside the `try`: a missing contour raises
      `KeyError`, which is caught exactly like a contour that fails to parse. */
  function BuildPolygon(contour: Option<Contour>, shape: Contour -> Option<Polygon>): Option<Polygon> {
    match contour
    case None => None
    case Some(c) => shape(c)
  }

  // ---------------------------------------------------------------------
  // What each item contributes

  /** The effect of one item on an index being built. */
  datatype Step<K> =
    | Add(key: K, poly: Polygon)  // `setdefault(key, []).append(poly)`
    | Warn(warning: Warning)      // skipped with a diagnostic
    | Ignore                      // skipped silently
    | Crash(error: PyError)       // an exception escapes the loop

  /** One item of the department loop. Two exceptions escape it: a truthy
      `departement` that is not an object has no `.get`, which is called
      before the `try`, so it raises `AttributeError`; and the `except`
      handler formats `commune['nom']` with a subscript, so a commune whose
      contour fails and that has no `nom` member at all raises `KeyError`
      out of the handler. */
  function DepartmentStep(it: Item, shape: Contour -> Option<Polygon>): Step<Option<string>> {
    match it
    case NotAnObject => Warn(InvalidEntry)
    case CommuneObject(c) =>
      if !DepartmentIsSet(c.departement) then Warn(NoDepartment(NameOrUnknown(c.nom)))
      else
        match c.departement.value
        case DeptOther(_) => Crash(AttributeError)
        case DeptObject(fields) =>
          match BuildPolygon(c.contour, shape)
          case Some(p) => Add(DepartmentCode(fields), p)
          case None => if c.nom.Absent? then Crash(KeyError) else Warn(PolygonError(NameOrUnknown(c.nom)))
  }

  /** Which communes stop the department load, with which exception, and
      where a filed polygon comes from. */
  lemma DepartmentStepEffect(it: Item, shape: Contour -> Option<Polygon>)
    ensures var s := DepartmentStep(it, shape);
            s.Crash? <==>
              it.CommuneObject? && DepartmentIsSet(it.commune.departement) &&
              (it.commune.departement.value.DeptOther? ||
               (BuildPolygon(it.commune.contour, shape).None? && it.commune.nom.Absent?))
    ensures var s := DepartmentStep(it, shape);
            s.Crash? ==> s.error == if it.commune.departement.value.DeptOther? then AttributeError else KeyError
    ensures var s := DepartmentStep(it, shape);
            s.Add? ==> it.CommuneObject? && it.commune.departement.Some? && it.commune.departement.value.DeptObject?
                       && it.commune.departement.value.fields != map[]
                       && BuildPolygon(it.commune.contour, shape) == Some(s.poly)
                       && s.key == DepartmentCode(it.commune.departement.value.fields)
  {
  }

  /** One item of the commune loop: non-dicts and communes without a usable
      `nom` are skipped without a diagnostic. */
  function CommuneStep(it: Item, shape: Contour -> Option<Polygon>): Step<string> {
    match it
    case NotAnObject => Ignore
    case CommuneObject(c) =>
      if !NameIsSet(c.nom) then Ignore
      else
        match BuildPolygon(c.contour, shape)
        case Some(p) => Add(c.nom.text, p)
        case None => Warn(PolygonError(c.nom.text))
  }

  function DepartmentSteps(items: seq<Item>, shape: Contour -> Option<Polygon>): seq<Step<Option<string>>> {
    seq(|items|, k requires 0 <= k < |items| => DepartmentStep(items[k], shape))
  }

  function CommuneSteps(items: seq<Item>, shape: Contour -> Option<Polygon>): seq<Step<string>> {
    seq(|items|, k requires 0 <= k < |items| => CommuneStep(items[k], shape))
  }

  /** The (key, polygon) pairs appended, in order. */
  function Added<K>(steps: seq<Step<K>>): seq<(K, Polygon)> {
    if steps == [] then []
    else
      var last := steps[|steps| - 1];
      Added(steps[..|steps| - 1]) + (if last.Add? then [(last.key, last.poly)] else [])
  }

  /** The diagnostics shown, in order. */
  function Warnings<K>(steps: seq<Step<K>>): seq<Warning> {
    if steps == [] then []
    else
      var last := steps[|steps| - 1];
      Warnings(steps[..|steps| - 1]) + (if last.Warn? then [last.warning] else [])
  }

  /** The exception of the first step that raises, if any: the loop stops
      there, so it is the one that escapes. */
  function FirstCrash<K>(steps: seq<Step<K>>): (e: Option<PyError>)
    ensures e.None? <==> forall k :: 0 <= k < |steps| ==> !steps[k].Crash?
    ensures e.Some? ==> exists k :: 0 <= k < |steps| && steps[k] == Crash(e.value)
                                    && forall l :: 0 <= l < k ==> !steps[l].Crash?
  {
    if steps == [] then None
    else if steps[0].Crash? then Some(steps[0].error)
    else FirstCrash(steps[1..])
  }

  predicate Crashed<K>(steps: seq<Step<K>>) {
    FirstCrash(steps).Some?
  }

  /** Running two batches of steps raises what the first batch raises, and
      otherwise what the second raises. */
  lemma {:induction false} FirstCrashAppend<K>(sa: seq<Step<K>>, sb: seq<Step<K>>)
    ensures FirstCrash(sa + sb) == if Crashed(sa) then FirstCrash(sa) else FirstCrash(sb)
  {
    if sa == [] {
      assert sa + sb == sb;
    } else {
      assert (sa + sb)[0] == sa[0];
      assert (sa + sb)[1..] == sa[1..] + sb;
      FirstCrashAppend(sa[1..], sb);
    }
  }

  /** A single step raises exactly its own exception. */
  lemma FirstCrashOne<K>(w: Step<K>)
    ensures FirstCrash([w]) == if w.Crash? then Some(w.error) else None
  {
    assert [w][1..] == [];
  }

  lemma {:induction false} AddedAppend<K>(a: seq<Step<K>>, b: seq<Step<K>>)
    ensures Added(a + b) == Added(a) + Added(b)
    ensures Warnings(a + b) == Warnings(a) + Warnings(b)
  {
    if b == [] {
      assert a + b == a;
    } else {
      assert (a + b)[..|a + b| - 1] == a + b[..|b| - 1];
      AddedAppend(a, b[..|b| - 1]);
    }
  }

  // ---------------------------------------------------------------------
  // The index, defined independently of the loop that builds it

  function KeysOf<K>(pairs: seq<(K, Polygon)>): seq<K> {
    if pairs == [] then [] else KeysOf(pairs[..|pairs| - 1]) + [pairs[|pairs| - 1].0]
  }

  /** The polygons filed under `k`, in the order they were appended. */
  function PolysFor<K(==)>(pairs: seq<(K, Polygon)>, k: K): seq<Polygon> {
    if pairs == [] then []
    else
      var last := pairs[|pairs| - 1];
      PolysFor(pairs[..|pairs| - 1], k) + (if last.0 == k then [last.1] else [])
  }

  /** Grouping of the pairs: every key once, in order of first occurrence,
      with all of its polygons in order. */
  function Grouped<K(==,!new)>(pairs: seq<(K, Polygon)>): (idx: OrderedIndex<K>)
    ensures Valid(idx)
  {
    var keys := KeysOf(pairs);
    OrderedIndex(Distinct(keys), map k | k in keys :: PolysFor(pairs, k))
  }

  /** Appending one pair to the input is one `setdefault(key, []).append(p)`
      on the index. */
  lemma GroupedSnoc<K(!new)>(pairs: seq<(K, Polygon)>, k: K, p: Polygon)
    ensures Grouped(pairs + [(k, p)]).keys
         == if k in Grouped(pairs).groups then Grouped(pairs).keys else Grouped(pairs).keys + [k]
    ensures Grouped(pairs + [(k, p)]).groups
         == Grouped(pairs).groups[k := (if k in Grouped(pairs).groups then Grouped(pairs).groups[k] else []) + [p]]
  {
    var pairs' := pairs + [(k, p)];
    assert pairs'[..|pairs'| - 1] == pairs;
    var keys, keys' := KeysOf(pairs), KeysOf(pairs');
    assert keys' == keys + [k];
    var g, g' := Grouped(pairs), Grouped(pairs');
    var target := g.groups[k := (if k in g.groups then g.groups[k] else []) + [p]];
    assert g'.groups.Keys == target.Keys;
    forall x | x in target ensures g'.groups[x] == target[x] {
      assert PolysFor(pairs', x) == PolysFor(pairs, x) + (if x == k then [p] else []);
      if x == k && k !in keys {
        PolysForAbsent(pairs, k);
      }
    }
  }

  lemma {:induction false} PolysForAbsent<K>(pairs: seq<(K, Polygon)>, k: K)
    requires k !in KeysOf(pairs)
    ensures PolysFor(pairs, k) == []
  {
    if pairs != [] {
      PolysForAbsent(pairs[..|pairs| - 1], k);
    }
  }

  /** Keys come in order of first occurrence in the file. */
  lemma GroupedKeyOrder<K(!new)>(pairs: seq<(K, Polygon)>, i: nat, j: nat)
    requires i < j < |Grouped(pairs).keys|
    ensures FirstIndex(KeysOf(pairs), Grouped(pairs).keys[i]) < FirstIndex(KeysOf(pairs), Grouped(pairs).keys[j])
  {
    DistinctFirstOccurrence(KeysOf(pairs), i, j);
  }

  /** A key's list holds one polygon per pair filed under it: communes that
      share a name (or a department code) are merged, nothing is lost. */
  lemma {:induction false} GroupSize<K(!new)>(pairs: seq<(K, Polygon)>, k: K)
    ensures |PolysFor(pairs, k)| == Count(KeysOf(pairs), k)
  {
    if pairs != [] {
      GroupSize(pairs[..|pairs| - 1], k);
    }
  }

  /** The number of polygons filed under the keys `ks`. */
  function PolygonCount<K>(groups: map<K, seq<Polygon>>, ks: seq<K>): nat {
    if ks == [] then 0
    else
      var k := ks[|ks| - 1];
      PolygonCount(groups, ks[..|ks| - 1]) + (if k in groups then |groups[k]| else 0)
  }

  /** The lists of the index together hold exactly as many polygons as were
      built. */
  lemma GroupedTotal<K(!new)>(pairs: seq<(K, Polygon)>)
    ensures PolygonCount(Grouped(pairs).groups, Grouped(pairs).keys) == |pairs|
  {
    var g := Grouped(pairs);
    KeysOfLength(pairs);
    SumOfCounts(g.keys, KeysOf(pairs));
    SizesAreCounts(pairs, g.keys);
  }

  lemma {:induction false} KeysOfLength<K>(pairs: seq<(K, Polygon)>)
    ensures |KeysOf(pairs)| == |pairs|
  {
    if pairs != [] { KeysOfLength(pairs[..|pairs| - 1]); }
  }

  lemma {:induction false} SizesAreCounts<K(!new)>(pairs: seq<(K, Polygon)>, ks: seq<K>)
    ensures PolygonCount(Grouped(pairs).groups, ks) == SumCounts(ks, KeysOf(pairs))
  {
    if ks != [] {
      var k := ks[|ks| - 1];
      SizesAreCounts(pairs, ks[..|ks| - 1]);
      GroupSize(pairs, k);
      if k !in KeysOf(pairs) {
        assert Count(KeysOf(pairs), k) == 0;
      }
    }
  }

  // ---------------------------------------------------------------------
  // Building the two indexes (Ville.py, lines 28-69)

  /** One `setdefault(key, []).append(p)` on an index that groups `pairs`
      gives the grouping of `pairs` followed by `(key, p)`. */
  method SetDefaultAppend<K(==,!new)>(idx: OrderedIndex<K>, key: K, p: Polygon, ghost pairs: seq<(K, Polygon)>)
    returns (idx': OrderedIndex<K>)
    requires idx == Grouped(pairs)
    ensures idx' == Grouped(pairs + [(key, p)])
  {
    GroupedSnoc(pairs, key, p);
    var g' := Grouped(pairs + [(key, p)]);
    if key in idx.groups {
      idx' := OrderedIndex(idx.keys, idx.groups[key := idx.groups[key] + [p]]);
    } else {
      assert [] + [p] == [p];
      idx' := OrderedIndex(idx.keys + [key], idx.groups[key := [p]]);
    }
    assert idx'.keys == g'.keys && idx'.groups == g'.groups;
  }

  /** What the department load has produced after `items`: the exception
      of the first item that raised, otherwise the index of the polygons
      built and the diagnostics shown. */
  ghost function DepartmentOutcome(items: seq<Item>, shape: Contour -> Option<Polygon>)
    : Result<(OrderedIndex<Option<string>>, seq<Warning>)>
  {
    var steps := DepartmentSteps(items, shape);
    match FirstCrash(steps)
    case Some(e) => Err(e)
    case None => Ok((Grouped(Added(steps)), Warnings(steps)))
  }

  /** The department loop. A diagnostic is recorded for every skipped item
      and the load carries on; the result is the grouping of the polygons
      that were built, keyed by department code (`None` included). The only
      ways out are the `AttributeError` of a department that is not an object
      and the `KeyError` of the `except` handler, whichever comes first. */
  method BuildDepartmentIndex(data: seq<Entry>, shape: Contour -> Option<Polygon>)
    returns (r: Result<(OrderedIndex<Option<string>>, seq<Warning>)>)
    ensures var steps := DepartmentSteps(Flatten(data), shape);
            r == match FirstCrash(steps)
                 case Some(e) => Err(e)
                 case None => Ok((Grouped(Added(steps)), Warnings(steps)))
  {
    var idx: OrderedIndex<Option<string>> := OrderedIndex([], map[]);
    var warnings: seq<Warning> := [];
    NothingLoaded(data, shape);
    for i := 0 to |data|
      invariant DepartmentOutcome(Flatten(data[..i]), shape) == Ok((idx, warnings))
    {
      FlattenSnoc(data, i);
      var step := FileDepartmentItems(idx, warnings, ItemsOf(data[i]), shape, Flatten(data[..i]));
      if step.Err? {
        CrashedData(data, i, shape);
        return step;
      }
      idx, warnings := step.value.0, step.value.1;
    }
    assert data[..|data|] == data;
    r := Ok((idx, warnings));
  }

  /** Before the first entry the index and the diagnostics are empty. */
  lemma NothingLoaded(data: seq<Entry>, shape: Contour -> Option<Polygon>)
    ensures DepartmentOutcome(Flatten(data[..0]), shape) == Ok((OrderedIndex([], map[]), []))
  {
    assert data[..0] == [];
    var steps := DepartmentSteps(Flatten(data[..0]), shape);
    assert steps == [];
    assert Grouped(Added(steps)).groups == map[];
  }

  /** Once the entries up to `i` have raised, the whole load raises. */
  lemma CrashedData(data: seq<Entry>, i: nat, shape: Contour -> Option<Polygon>)
    requires i < |data|
    requires Crashed(DepartmentSteps(Flatten(data[..i + 1]), shape))
    ensures FirstCrash(DepartmentSteps(Flatten(data), shape)) == FirstCrash(DepartmentSteps(Flatten(data[..i + 1]), shape))
  {
    var a, b := data[..i + 1], data[i + 1..];
    assert a + b == data;
    FlattenAppend(a, b);
    CrashPersists(Flatten(a), Flatten(b), shape);
  }

  /** The inner loop of the department load, over the items of one entry. */
  method FileDepartmentItems(idx: OrderedIndex<Option<string>>, warnings: seq<Warning>, items: seq<Item>,
                             shape: Contour -> Option<Polygon>, ghost seen: seq<Item>)
    returns (r: Result<(OrderedIndex<Option<string>>, seq<Warning>)>)
    requires DepartmentOutcome(seen, shape) == Ok((idx, warnings))
    ensures r == DepartmentOutcome(seen + items, shape)
  {
    var index, shown := idx, warnings;
    ghost var done := seen;
    assert seen + items[..0] == seen;
    for j := 0 to |items|
      invariant done == seen + items[..j]
      invariant DepartmentOutcome(done, shape) == Ok((index, shown))
    {
      var next := FileDepartmentItem(index, shown, items[j], shape, done);
      ItemsSnoc(seen, items, j);
      if next.Err? {
        CrashedRest(seen, items, j, shape);
        return next;
      }
      index, shown := next.value.0, next.value.1;
      done := done + [items[j]];
    }
    assert items[..|items|] == items;
    r := Ok((index, shown));
  }

  lemma ItemsSnoc(seen: seq<Item>, items: seq<Item>, j: nat)
    requires j < |items|
    ensures seen + items[..j + 1] == (seen + items[..j]) + [items[j]]
  {
    assert items[..j + 1] == items[..j] + [items[j]];
  }

  /** Once the items up to `j` have raised, the whole entry raises. */
  lemma CrashedRest(seen: seq<Item>, items: seq<Item>, j: nat, shape: Contour -> Option<Polygon>)
    requires j < |items|
    requires DepartmentOutcome(seen + items[..j + 1], shape).Err?
    ensures DepartmentOutcome(seen + items, shape) == DepartmentOutcome(seen + items[..j + 1], shape)
  {
    var pre, rest := seen + items[..j + 1], items[j + 1..];
    assert seen + items == pre + rest by {
      assert items == items[..j + 1] + rest;
    }
    OutcomeOfCrash(pre, shape);
    CrashPersists(pre, rest, shape);
    OutcomeOfCrash(pre + rest, shape);
  }

  /** A load that raised produces nothing but the exception. */
  lemma OutcomeOfCrash(items: seq<Item>, shape: Contour -> Option<Polygon>)
    ensures DepartmentOutcome(items, shape).Err? <==> Crashed(DepartmentSteps(items, shape))
    ensures Crashed(DepartmentSteps(items, shape)) ==>
              DepartmentOutcome(items, shape) == Err(FirstCrash(DepartmentSteps(items, shape)).value)
  {
  }

  /** One pass of the department loop body, on one item. */
  method FileDepartmentItem(idx: OrderedIndex<Option<string>>, warnings: seq<Warning>, it: Item,
                            shape: Contour -> Option<Polygon>, ghost seen: seq<Item>)
    returns (r: Result<(OrderedIndex<Option<string>>, seq<Warning>)>)
    requires DepartmentOutcome(seen, shape) == Ok((idx, warnings))
    ensures r == DepartmentOutcome(seen + [it], shape)
  {
    StepsSnoc(seen, it, shape);
    match DepartmentStep(it, shape) {
      case Add(code, p) =>
        var idx' := SetDefaultAppend(idx, code, p, Added(DepartmentSteps(seen, shape)));
        r := Ok((idx', warnings));
      case Warn(w) =>
        r := Ok((idx, warnings + [w]));
      case Ignore =>
        r := Ok((idx, warnings));
      case Crash(e) =>
        r := Err(e);
    }
  }

  /** The commune loop: the same grouping, keyed by commune name. It has no
      way to fail. */
  method BuildCommuneIndex(data: seq<Entry>, shape: Contour -> Option<Polygon>)
    returns (idx: OrderedIndex<string>, warnings: seq<Warning>)
    ensures var steps := CommuneSteps(Flatten(data), shape);
            idx == Grouped(Added(steps)) && warnings == Warnings(steps)
  {
    idx := OrderedIndex([], map[]);
    warnings := [];
    for i := 0 to |data|
      invariant idx == Grouped(Added(CommuneSteps(Flatten(data[..i]), shape)))
      invariant warnings == Warnings(CommuneSteps(Flatten(data[..i]), shape))
    {
      FlattenSnoc(data, i);
      idx, warnings := FileCommuneItems(idx, warnings, ItemsOf(data[i]), shape, Flatten(data[..i]));
    }
    assert data[..|data|] == data;
  }

  /** The inner loop of the commune load, over the items of one entry. */
  method FileCommuneItems(idx: OrderedIndex<string>, warnings: seq<Warning>, items: seq<Item>,
                          shape: Contour -> Option<Polygon>, ghost seen: seq<Item>)
    returns (idx': OrderedIndex<string>, warnings': seq<Warning>)
    requires idx == Grouped(Added(CommuneSteps(seen, shape)))
    requires warnings == Warnings(CommuneSteps(seen, shape))
    ensures idx' == Grouped(Added(CommuneSteps(seen + items, shape)))
    ensures warnings' == Warnings(CommuneSteps(seen + items, shape))
  {
    idx', warnings' := idx, warnings;
    assert seen + items[..0] == seen;
    for j := 0 to |items|
      invariant idx' == Grouped(Added(CommuneSteps(seen + items[..j], shape)))
      invariant warnings' == Warnings(CommuneSteps(seen + items[..j], shape))
    {
      assert seen + items[..j + 1] == (seen + items[..j]) + [items[j]] by {
        assert items[..j + 1] == items[..j] + [items[j]];
      }
      idx', warnings' := FileCommuneItem(idx', warnings', items[j], shape, seen + items[..j]);
    }
    assert items[..|items|] == items;
  }

  /** One pass of the commune loop body, on one item. */
  method FileCommuneItem(idx: OrderedIndex<string>, warnings: seq<Warning>, it: Item,
                         shape: Contour -> Option<Polygon>, ghost seen: seq<Item>)
    returns (idx': OrderedIndex<string>, warnings': seq<Warning>)
    requires idx == Grouped(Added(CommuneSteps(seen, shape)))
    requires warnings == Warnings(CommuneSteps(seen, shape))
    ensures idx' == Grouped(Added(CommuneSteps(seen + [it], shape)))
    ensures warnings' == Warnings(CommuneSteps(seen + [it], shape))
  {
    CommuneStepsSnoc(seen, it, shape);
    idx', warnings' := idx, warnings;
    match CommuneStep(it, shape) {
      case Add(name, p) =>
        idx' := SetDefaultAppend(idx, name, p, Added(CommuneSteps(seen, shape)));
      case Warn(w) =>
        warnings' := warnings + [w];
      case Ignore =>
      case Crash(_) =>
    }
  }

  lemma CrashPersists(a: seq<Item>, b: seq<Item>, shape: Contour -> Option<Polygon>)
    requires Crashed(DepartmentSteps(a, shape))
    ensures FirstCrash(DepartmentSteps(a + b, shape)) == FirstCrash(DepartmentSteps(a, shape))
  {
    assert DepartmentSteps(a + b, shape) == DepartmentSteps(a, shape) + DepartmentSteps(b, shape);
    FirstCrashAppend(DepartmentSteps(a, shape), DepartmentSteps(b, shape));
  }

  lemma FlattenSnoc(data: seq<Entry>, i: nat)
    requires i < |data|
    ensures Flatten(data[..i + 1]) == Flatten(data[..i]) + ItemsOf(data[i])
  {
    assert data[..i + 1][..i] == data[..i];
  }

  lemma StepsSnoc(items: seq<Item>, it: Item, shape: Contour -> Option<Polygon>)
    ensures DepartmentSteps(items + [it], shape) == DepartmentSteps(items, shape) + [DepartmentStep(it, shape)]
    ensures var s := DepartmentStep(it, shape);
            (Added(DepartmentSteps(items + [it], shape))
             == if s.Add? then Added(DepartmentSteps(items, shape)) + [(s.key, s.poly)] else Added(DepartmentSteps(items, shape)))
    ensures var s := DepartmentStep(it, shape);
            (Warnings(DepartmentSteps(items + [it], shape))
             == if s.Warn? then Warnings(DepartmentSteps(items, shape)) + [s.warning] else Warnings(DepartmentSteps(items, shape)))
    ensures var s := DepartmentStep(it, shape);
            (FirstCrash(DepartmentSteps(items + [it], shape))
             == if Crashed(DepartmentSteps(items, shape)) then FirstCrash(DepartmentSteps(items, shape))
                else if s.Crash? then Some(s.error) else None)
  {
    var s, s' := DepartmentSteps(items, shape), DepartmentSteps(items + [it], shape);
    assert s' == s + [DepartmentStep(it, shape)];
    assert s'[..|s'| - 1] == s;
    FirstCrashAppend(s, [DepartmentStep(it, shape)]);
    FirstCrashOne(DepartmentStep(it, shape));
  }

  lemma CommuneStepsSnoc(items: seq<Item>, it: Item, shape: Contour -> Option<Polygon>)
    ensures CommuneSteps(items + [it], shape) == CommuneSteps(items, shape) + [CommuneStep(it, shape)]
    ensures var s := CommuneStep(it, shape);
            (Added(CommuneSteps(items + [it], shape))
             == if s.Add? then Added(CommuneSteps(items, shape)) + [(s.key, s.poly)] else Added(CommuneSteps(items, shape)))
    ensures var s := CommuneStep(it, shape);
            (Warnings(CommuneSteps(items + [it], shape))
             == if s.Warn? then Warnings(CommuneSteps(items, shape)) + [s.warning] else Warnings(CommuneSteps(items, shape)))
  {
    var s, s' := CommuneSteps(items, shape), CommuneSteps(items + [it], shape);
    assert s' == s + [CommuneStep(it, shape)];
    assert s'[..|s'| - 1] == s;
  }

  /** A skipped item (a non-dict, a commune without a department, a contour
      that fails to build) changes nothing but the diagnostics: the rest of
      the file is indexed exactly as if it were not there. */
  lemma SkippedItemIsHarmless(a: seq<Item>, bad: Item, b: seq<Item>, shape: Contour -> Option<Polygon>)
    requires DepartmentStep(bad, shape).Warn?
    ensures Added(DepartmentSteps(a + [bad] + b, shape)) == Added(DepartmentSteps(a + b, shape))
    ensures FirstCrash(DepartmentSteps(a + [bad] + b, shape)) == FirstCrash(DepartmentSteps(a + b, shape))
    ensures |Warnings(DepartmentSteps(a + [bad] + b, shape))| == |Warnings(DepartmentSteps(a + b, shape))| + 1
  {
    var sa, sb := DepartmentSteps(a, shape), DepartmentSteps(b, shape);
    var w := DepartmentStep(bad, shape);
    assert DepartmentSteps(a + [bad] + b, shape) == sa + [w] + sb;
    assert DepartmentSteps(a + b, shape) == sa + sb;
    SkippedStepIsHarmless(sa, w, sb);
  }

  lemma SkippedStepIsHarmless<K>(sa: seq<Step<K>>, w: Step<K>, sb: seq<Step<K>>)
    requires w.Warn?
    ensures Added(sa + [w] + sb) == Added(sa + sb)
    ensures FirstCrash(sa + [w] + sb) == FirstCrash(sa + sb)
    ensures |Warnings(sa + [w] + sb)| == |Warnings(sa + sb)| + 1
  {
    AddedAppend(sa + [w], sb);
    AddedAppend(sa, [w]);
    AddedAppend(sa, sb);
    assert [w][..0] == [];
    CrashedSkip(sa, w, sb);
  }

  lemma CrashedSkip<K>(sa: seq<Step<K>>, w: Step<K>, sb: seq<Step<K>>)
    requires !w.Crash?
    ensures FirstCrash(sa + [w] + sb) == FirstCrash(sa + sb)
  {
    FirstCrashAppend(sa + [w], sb);
    FirstCrashAppend(sa, [w]);
    FirstCrashAppend(sa, sb);
    FirstCrashOne(w);
  }

  // ---------------------------------------------------------------------
  // The lookup (Ville.py, lines 107-124)

  /** `any(p.contains(point) for p in polys)` */
  function AnyContains(polys: seq<Polygon>, pt: Point, contains: (Polygon, Point) -> bool): (b: bool)
    ensures b <==> exists m :: 0 <= m < |polys| && contains(polys[m], pt)
  {
    if polys == [] then false
    else AnyContains(polys[..|polys| - 1], pt, contains) || contains(polys[|polys| - 1], pt)
  }

  /** The key at position `i` of the index has a polygon containing `pt`. */
  predicate HitAt<K>(idx: OrderedIndex<K>, i: int, pt: Point, contains: (Polygon, Point) -> bool) {
    0 <= i < |idx.keys| && idx.keys[i] in idx.groups && AnyContains(idx.groups[idx.keys[i]], pt, contains)
  }

  /** The first key, from position `i` on in iteration order, with a
      polygon that contains the point. */
  function FirstHitFrom<K>(idx: OrderedIndex<K>, i: nat, pt: Point, contains: (Polygon, Point) -> bool): (r: Option<K>)
    requires i <= |idx.keys|
    ensures r.None? <==> forall j :: i <= j < |idx.keys| ==> !HitAt(idx, j, pt, contains)
    ensures r.Some? ==> exists j :: i <= j < |idx.keys| && idx.keys[j] == r.value && HitAt(idx, j, pt, contains)
                                  && forall l :: i <= l < j ==> !HitAt(idx, l, pt, contains)
    decreases |idx.keys| - i
  {
    if i == |idx.keys| then None
    else if HitAt(idx, i, pt, contains) then Some(idx.keys[i])
    else FirstHitFrom(idx, i + 1, pt, contains)
  }

  function FirstHit<K>(idx: OrderedIndex<K>, pt: Point, contains: (Polygon, Point) -> bool): Option<K> {
    FirstHitFrom(idx, 0, pt, contains)
  }

  /** Later matching keys never win: in a well-formed index the key found is
      the one of the earliest matching position. */
  lemma FirstHitIsEarliest<K(!new)>(idx: OrderedIndex<K>, pt: Point, contains: (Polygon, Point) -> bool, j: nat)
    requires Valid(idx) && HitAt(idx, j, pt, contains)
    ensures FirstHit(idx, pt, contains).Some?
    ensures FirstIndex(idx.keys, FirstHit(idx, pt, contains).value) <= j
  {
    var r := FirstHit(idx, pt, contains);
    var i :| 0 <= i < |idx.keys| && idx.keys[i] == r.value && HitAt(idx, i, pt, contains)
             && forall l :: 0 <= l < i ==> !HitAt(idx, l, pt, contains);
    assert idx.keys[i] !in idx.keys[..i];
    FirstIndexUnique(idx.keys, r.value, i);
  }

  /** The loop over `dict.items()` with its early `break`. */
  method FindFirst<K>(idx: OrderedIndex<K>, pt: Point, contains: (Polygon, Point) -> bool) returns (r: Option<K>)
    ensures r == FirstHit(idx, pt, contains)
  {
    r := None;
    var i := 0;
    while i < |idx.keys|
      invariant 0 <= i <= |idx.keys|
      invariant forall l :: 0 <= l < i ==> !HitAt(idx, l, pt, contains)
      invariant FirstHitFrom(idx, i, pt, contains) == FirstHit(idx, pt, contains)
    {
      var k := idx.keys[i];
      if k in idx.groups && AnyContains(idx.groups[k], pt, contains) {
        r := Some(k);
        return;
      }
      i := i + 1;
    }
  }

  /** The department code of a department lookup. A match on the `None` key
      gives `None`, exactly like no match at all. */
  function CodeOf(hit: Option<Option<string>>): (code: Option<string>)
    ensures code.None? <==> hit.None? || hit == Some(None)
    ensures hit.Some? && hit.value.Some? ==> code == hit.value
  {
    match hit
    case Some(Some(c)) => Some(c)
    case _ => None
  }

  /** `find_location(lon, lat)`: the two lookups run one after the other and
      neither looks at the other's index or result, so a point may be
      resolved at one level and not at the other. */
  method FindLocation(departments: OrderedIndex<Option<string>>, communes: OrderedIndex<string>,
                      pt: Point, contains: (Polygon, Point) -> bool)
    returns (code: Option<string>, commune: Option<string>)
    ensures code == CodeOf(FirstHit(departments, pt, contains))
    ensures commune == FirstHit(communes, pt, contains)
  {
    var hit := FindFirst(departments, pt, contains);
    code := CodeOf(hit);
    commune := FindFirst(communes, pt, contains);
  }

  /** `df.apply(lambda r: find_location(r["lon"], r["lat"]), axis=1)`: one
      result per station, in order. */
  method LocateAll(points: seq<Point>, departments: OrderedIndex<Option<string>>,
                   communes: OrderedIndex<string>, contains: (Polygon, Point) -> bool)
    returns (located: seq<(Option<string>, Option<string>)>)
    ensures |located| == |points|
    ensures forall i :: 0 <= i < |points| ==>
              located[i] == (CodeOf(FirstHit(departments, points[i], contains)), FirstHit(communes, points[i], contains))
  {
    located := [];
    for i := 0 to |points|
      invariant |located| == i
      invariant forall l :: 0 <= l < i ==>
                  located[l] == (CodeOf(FirstHit(departments, points[l], contains)), FirstHit(communes, points[l], contains))
    {
      var code, commune := FindLocation(departments, communes, points[i], contains);
      located := located + [(code, commune)];
    }
  }
}
