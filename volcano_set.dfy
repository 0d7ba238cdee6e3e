/** A collection of volcanoes (`VolcanoSet` in volcanoes/core/volcano_set.py): indexing, the
    order-preserving filters, the distance sort and the summary aggregates. A comprehension whose
    condition raises for some record (a text field that is `None`, a numeric field left as `''`)
    raises the first such exception; the model returns it as `Err`. */
module VolcanoSets {
  import opened Wrappers
  import opened Errors
  import opened Values
  import Text
  import Seqs
  import Ordering
  import Aggregates
  import opened Volcanoes

  /** The comprehension condition `ok(v.<field>.lower())`; a field that is not a string has no
      `lower` (AttributeError). */
  function TextTest(read: Volcano -> Value, field: string, ok: string -> bool): Seqs.Test<Volcano> {
    (v: Volcano) => match LowerOf(read(v), field) case Ok(t) => Ok(ok(t)) case Err(e) => Err(e)
  }

  /** The records a `TextTest` keeps when it does not raise. */
  function TextHolds(read: Volcano -> Value, ok: string -> bool): Volcano -> bool {
    (v: Volcano) => read(v).Str? && ok(Text.Lower(read(v).s))
  }

  /** `[v for v in vs if ok(v.<field>.lower())]`. */
  function FilterText(vs: seq<Volcano>, read: Volcano -> Value, field: string, ok: string -> bool)
    : (r: Result<seq<Volcano>, Error>)
    ensures r.Ok? <==> forall v :: v in vs ==> read(v).Str?
    ensures r.Ok? ==> r.value == Seqs.Filter(vs, TextHolds(read, ok))
    ensures r.Err? ==> r.error == AttributeError(field)
  {
    var test := TextTest(read, field, ok);
    Seqs.FilterCongruent(vs, Seqs.Passes(test), TextHolds(read, ok));
    Seqs.FilterTry(vs, test)
  }

  /** The elevation condition of `filter_by_elevation_range`: an unknown elevation is skipped, and
      a `''` elevation cannot be compared with a number (TypeError). */
  function ElevationTest(minElev: real, maxElev: real): Seqs.Test<Volcano> {
    (v: Volcano) => if v.Elevation().Null? then Ok(false)
         else match NumberOf(v.Elevation())
           case Some(x) => Ok(minElev <= x <= maxElev)
           case None => Err(TypeError("Elevation"))
  }

  /** A known elevation within the inclusive bounds. */
  function ElevationWithin(minElev: real, maxElev: real): Volcano -> bool {
    (v: Volcano) => NumberOf(v.Elevation()).Some? && minElev <= NumberOf(v.Elevation()).value <= maxElev
  }

  /** An elevation the comparisons reject: neither `None` nor a number. */
  predicate BadElevation(v: Volcano) {
    !v.Elevation().Null? && NumberOf(v.Elevation()).None?
  }

  /** The sort key of `sort_by_distance`; it is only consulted once every distance is known not to
      raise. */
  function DistanceKey(dist: DistanceFn, lat: real, lon: real): Volcano -> Ordering.Extended {
    (v: Volcano) => match v.DistanceTo(dist, lat, lon) case Ok(d) => d case Err(_) => Ordering.Infinity
  }

  /** `v.distance_to(lat, lon) <= radius_km`; the radius is a float, possibly `inf`. */
  function RadiusTest(dist: DistanceFn, lat: real, lon: real, radius: Ordering.Extended): Seqs.Test<Volcano> {
    (v: Volcano) => match v.DistanceTo(dist, lat, lon) case Ok(d) => Ok(Ordering.Le(d, radius)) case Err(e) => Err(e)
  }

  function WithinRadiusOf(dist: DistanceFn, lat: real, lon: real, radius: Ordering.Extended): Volcano -> bool {
    (v: Volcano) => v.DistanceTo(dist, lat, lon).Ok? && Ordering.Le(v.DistanceTo(dist, lat, lon).value, radius)
  }

  /** Field readers, passed where a comprehension reads one attribute of every record. */
  function ReadCountry(v: Volcano): Value { v.Country() }
  function ReadType(v: Volcano): Value { v.VolcanoType() }
  function ReadLat(v: Volcano): Value { v.Lat() }
  function ReadLon(v: Volcano): Value { v.Lon() }
  function ReadElevation(v: Volcano): Value { v.Elevation() }

  /** `read(v) is not None`. */
  function IsKnown(read: Volcano -> Value): Volcano -> bool {
    (v: Volcano) => !read(v).Null?
  }

  /** `[read(v) for v in vs if read(v) is not None]`: no `None` survives, every value is read from
      a record of `vs`, and every known value is listed (`KnownValuesAppend` gives the order). */
  function KnownValues(vs: seq<Volcano>, read: Volcano -> Value): (r: seq<Value>)
    ensures |r| <= |vs|
    ensures forall i :: 0 <= i < |r| ==> !r[i].Null?
    ensures forall i :: 0 <= i < |r| ==> exists v :: v in vs && r[i] == read(v)
    ensures forall v :: v in vs && !read(v).Null? ==> read(v) in r
  {
    var kept := Seqs.Filter(vs, IsKnown(read));
    Seqs.FilterMembers(vs, IsKnown(read));
    var r := Seqs.Map(kept, read);
    assert forall i :: 0 <= i < |r| ==> kept[i] in kept;
    assert forall v :: v in vs && !read(v).Null? ==> read(v) in r by {
      forall v | v in vs && !read(v).Null? ensures read(v) in r {
        assert IsKnown(read)(v);
        var j :| 0 <= j < |kept| && kept[j] == v;
        assert r[j] == read(v);
      }
    }
    r
  }

  /** `[read(v) for v in vs if ...]` goes through the records one at a time: the list for `a + b`
      is the list for `a` followed by the list for `b`, and one record contributes its value exactly
      when it is known. Together these fix the order and the repetitions of the list. */
  lemma KnownValuesAppend(a: seq<Volcano>, b: seq<Volcano>, read: Volcano -> Value)
    ensures KnownValues(a + b, read) == KnownValues(a, read) + KnownValues(b, read)
    ensures KnownValues([], read) == []
    ensures forall v :: KnownValues([v], read) == if read(v).Null? then [] else [read(v)]
  {
    Seqs.FilterAppend(a, b, IsKnown(read));
    Seqs.MapAppend(Seqs.Filter(a, IsKnown(read)), Seqs.Filter(b, IsKnown(read)), read);
    forall v ensures KnownValues([v], read) == if read(v).Null? then [] else [read(v)] {
      assert [v][1..] == [];
    }
  }

  /** The number in an elevation, or the TypeError `sum`/`max` raise on a `''`. */
  function AsNumber(v: Value): (r: Result<real, Error>)
    ensures r.Ok? <==> NumberOf(v).Some?
    ensures r.Ok? ==> r.value == NumberOf(v).value
    ensures r.Err? ==> r.error == TypeError("Elevation")
  {
    match NumberOf(v) case Some(x) => Ok(x) case None => Err(TypeError("Elevation"))
  }

  /** The dictionary `summary_stats` returns. */
  datatype Stats = Stats(
    totalVolcanoes: nat,
    countries: nat,
    volcanoTypes: nat,
    avgElevation: Option<real>,
    maxElevation: Option<real>,
    minElevation: Option<real>)

  /** The known elevations as numbers; a `''` among them makes `sum` raise. */
  function ElevationNumbers(vs: seq<Volcano>, elevation: Volcano -> Value): (r: Result<seq<real>, Error>)
    ensures r.Err? ==> r.error == TypeError("Elevation")
  {
    Seqs.MapTry(KnownValues(vs, elevation), AsNumber)
  }

  /** `ElevationNumbers` succeeds exactly when every known elevation is a number, and then holds
      the number of every known elevation and nothing else; it is empty exactly when no elevation
      is known. */
  lemma ElevationNumbersSpec(vs: seq<Volcano>, elevation: Volcano -> Value)
    ensures ElevationNumbers(vs, elevation).Ok? <==>
      forall v :: v in vs ==> elevation(v).Null? || NumberOf(elevation(v)).Some?
    ensures ElevationNumbers(vs, elevation).Ok? ==> var xs := ElevationNumbers(vs, elevation).value;
      && (xs == [] <==> forall v :: v in vs ==> elevation(v).Null?)
      && (forall v :: v in vs && !elevation(v).Null? ==> NumberOf(elevation(v)).value in xs)
      && (forall x :: x in xs ==> exists v :: v in vs && NumberOf(elevation(v)) == Some(x))
  {
    var known := KnownValues(vs, elevation);
    var r := ElevationNumbers(vs, elevation);
    if r.Ok? {
      var xs := r.value;
      forall v | v in vs && !elevation(v).Null? ensures NumberOf(elevation(v)).value in xs {
        var j :| 0 <= j < |known| && known[j] == elevation(v);
        assert AsNumber(known[j]) == Ok(xs[j]);
      }
      forall x | x in xs ensures exists v :: v in vs && NumberOf(elevation(v)) == Some(x) {
        var j :| 0 <= j < |xs| && xs[j] == x;
        assert AsNumber(known[j]) == Ok(x);
        var v :| v in vs && known[j] == elevation(v);
      }
      if xs != [] {
        assert known[0] in known;
      }
    } else {
      var k :| k in known && AsNumber(k) == Err(r.error);
      var j :| 0 <= j < |known| && known[j] == k;
      var v :| v in vs && known[j] == elevation(v);
      assert !elevation(v).Null? && NumberOf(elevation(v)).None?;
    }
  }

  /** `summary_stats` over a list of records, the elevation of each read by `elevation`:
      `len(set(...))` of countries and of types, and the average, maximum and minimum of the known
      elevations (`None` when there are none). A known elevation left as `''` makes `sum` raise. */
  function Summary(vs: seq<Volcano>, elevation: Volcano -> Value): (r: Result<Stats, Error>)
    ensures r.Ok? <==> ElevationNumbers(vs, elevation).Ok?
    ensures r.Err? ==> r.error == TypeError("Elevation")
    ensures r.Ok? ==> r.value.totalVolcanoes == |vs|
  {
    var xs :- ElevationNumbers(vs, elevation);
    Ok(Stats(|vs|,
      |Seqs.Distinct(Seqs.Map(vs, ReadCountry))|,
      |Seqs.Distinct(Seqs.Map(vs, ReadType))|,
      if xs == [] then None else Some(Aggregates.Mean(xs)),
      if xs == [] then None else Some(Aggregates.Max(xs)),
      if xs == [] then None else Some(Aggregates.Min(xs))))
  }

  /** What `summary_stats` promises: it raises only on a `''` elevation; the total is the length;
      there are at most as many distinct countries and types as records (and at least one when there
      are records); the average, maximum and minimum are `None` exactly when no elevation is known,
      and otherwise the minimum and maximum bound every known elevation and the average. */
  lemma SummaryProperties(vs: seq<Volcano>, elevation: Volcano -> Value)
    ensures Summary(vs, elevation).Ok? <==>
      forall v :: v in vs ==> elevation(v).Null? || NumberOf(elevation(v)).Some?
    ensures Summary(vs, elevation).Ok? ==> Summary(vs, elevation).value.totalVolcanoes == |vs|
    ensures Summary(vs, elevation).Ok? && vs != [] ==>
      1 <= Summary(vs, elevation).value.countries <= |vs| && 1 <= Summary(vs, elevation).value.volcanoTypes <= |vs|
    ensures Summary(vs, elevation).Ok? ==> var st := Summary(vs, elevation).value;
      && (st.avgElevation.None? <==> forall v :: v in vs ==> elevation(v).Null?)
      && st.maxElevation.None? == st.avgElevation.None?
      && st.minElevation.None? == st.avgElevation.None?
    ensures Summary(vs, elevation).Ok? && Summary(vs, elevation).value.avgElevation.Some? ==>
      var st := Summary(vs, elevation).value;
      && st.minElevation.value <= st.avgElevation.value <= st.maxElevation.value
    ensures Summary(vs, elevation).Ok? && Summary(vs, elevation).value.maxElevation.Some? ==>
      var st := Summary(vs, elevation).value;
      forall v :: v in vs && !elevation(v).Null? ==>
        st.minElevation.value <= NumberOf(elevation(v)).value <= st.maxElevation.value
  {
    Seqs.DistinctBounds(Seqs.Map(vs, ReadCountry));
    Seqs.DistinctBounds(Seqs.Map(vs, ReadType));
    ElevationNumbersSpec(vs, elevation);
    var r := ElevationNumbers(vs, elevation);
    if r.Ok? && r.value != [] {
      var xs := r.value;
      Aggregates.MeanBetween(xs);
      forall v | v in vs && !elevation(v).Null?
        ensures Aggregates.Min(xs) <= NumberOf(elevation(v)).value <= Aggregates.Max(xs)
      {
        var j :| 0 <= j < |xs| && xs[j] == NumberOf(elevation(v)).value;
      }
    }
  }

  /** `[v for v in vs if v.elevation is not None and min_elev <= v.elevation <= max_elev]`. */
  function ElevationRange(vs: seq<Volcano>, minElev: real, maxElev: real): (r: Result<seq<Volcano>, Error>)
    ensures r.Ok? <==> forall v :: v in vs ==> !BadElevation(v)
    ensures r.Ok? ==> r.value == Seqs.Filter(vs, ElevationWithin(minElev, maxElev))
    ensures r.Err? ==> r.error == TypeError("Elevation")
  {
    var test := ElevationTest(minElev, maxElev);
    Seqs.FilterCongruent(vs, Seqs.Passes(test), ElevationWithin(minElev, maxElev));
    assert forall v :: test(v).Ok? <==> !BadElevation(v);
    assert forall v :: test(v).Err? ==> test(v).error == TypeError("Elevation");
    Seqs.FilterTry(vs, test)
  }

  datatype VolcanoSet = VolcanoSet(volcanoes: seq<Volcano>) {
    /** `len(s)`. */
    function Len(): nat { |volcanoes| }

    /** `s[index]` for an int index: negative indices count from the end, and an index outside the
        list raises IndexError. */
    function At(index: int): (r: Result<Volcano, Error>)
      ensures r.Ok? <==> -(Len() as int) <= index < Len()
      ensures r.Err? ==> r.error == IndexError
      ensures r.Ok? && index >= 0 ==> r.value == volcanoes[index]
      ensures r.Ok? && index < 0 ==> r.value == volcanoes[Len() as int + index]
    {
      Seqs.Index(volcanoes, index)
    }

    /** `s[start:stop:step]`: a new set holding exactly the list slice `volcanoes[start:stop:step]`;
        a zero step raises ValueError. */
    function Slice(start: Option<int>, stop: Option<int>, step: Option<int>): (r: Result<VolcanoSet, Error>)
      ensures r.Err? <==> step == Some(0)
      ensures r.Err? ==> r.error == ValueError("slice step cannot be zero")
      ensures r.Ok? ==> r.value.volcanoes == Seqs.Slice(volcanoes, start, stop, step).value
      ensures step.None? ==> r == Ok(VolcanoSet(Seqs.Run(volcanoes, start, stop)))
      ensures start.None? && stop.None? && step.None? ==> r == Ok(this)
    {
      Seqs.SliceUnitStep(volcanoes, start, stop, None);
      Seqs.SliceWhole(volcanoes);
      match Seqs.Slice(volcanoes, start, stop, step)
      case Ok(xs) => Ok(VolcanoSet(xs))
      case Err(e) => Err(e)
    }

    /** `filter_by_country(country)`: the records whose country equals `country` ignoring case. */
    function FilterByCountry(country: string): (r: Result<VolcanoSet, Error>)
      ensures r.Ok? <==> forall v :: v in volcanoes ==> v.Country().Str?
      ensures r.Ok? ==> r.value.volcanoes == Seqs.Filter(volcanoes,
        TextHolds(ReadCountry, (c: string) => c == Text.Lower(country)))
      ensures r.Err? ==> r.error == AttributeError("Country")
    {
      var vs :- FilterText(volcanoes, ReadCountry, "Country", (c: string) => c == Text.Lower(country));
      Ok(VolcanoSet(vs))
    }

    /** `filter_by_type(volcano_type)`: the records whose type contains `volcano_type` ignoring case. */
    function FilterByType(volcanoType: string): (r: Result<VolcanoSet, Error>)
      ensures r.Ok? <==> forall v :: v in volcanoes ==> v.VolcanoType().Str?
      ensures r.Ok? ==> r.value.volcanoes == Seqs.Filter(volcanoes,
        TextHolds(ReadType, (t: string) => Seqs.Contains(t, Text.Lower(volcanoType))))
      ensures r.Err? ==> r.error == AttributeError("VolcanoType")
    {
      var vs :- FilterText(volcanoes, ReadType, "VolcanoType", (t: string) => Seqs.Contains(t, Text.Lower(volcanoType)));
      Ok(VolcanoSet(vs))
    }

    /** `filter_by_elevation_range(min_elev, max_elev)`: a loop appending every record whose known
        elevation lies in the inclusive range; unknown elevations are skipped. */
    method FilterByElevationRange(minElev: real, maxElev: real) returns (r: Result<VolcanoSet, Error>)
      ensures r.Ok? == ElevationRange(volcanoes, minElev, maxElev).Ok?
      ensures r.Ok? ==> r.value.volcanoes == ElevationRange(volcanoes, minElev, maxElev).value
      ensures r.Err? ==> r.error == ElevationRange(volcanoes, minElev, maxElev).error
    {
      var test := ElevationTest(minElev, maxElev);
      var filtered: seq<Volcano> := [];
      var i := 0;
      while i < |volcanoes|
        invariant 0 <= i <= |volcanoes|
        invariant Seqs.FilterTry(volcanoes[..i], test) == Ok(filtered)
      {
        var v := volcanoes[i];
        Seqs.FilterTrySnoc(volcanoes[..i], v, test);
        assert volcanoes[..i + 1] == volcanoes[..i] + [v];
        var elev := v.Elevation();
        if !elev.Null? {
          match NumberOf(elev)
          case None =>
            assert v in volcanoes && BadElevation(v);
            return Err(TypeError("Elevation"));
          case Some(x) =>
            if minElev <= x <= maxElev {
              filtered := filtered + [v];
            }
        }
        i := i + 1;
      }
      assert volcanoes[..i] == volcanoes;
      return Ok(VolcanoSet(filtered));
    }

    /** `sort_by_distance(lat, lon)`: Python's stable `sorted` keyed on the distance, where a record
        without coordinates is at `+inf`. Every key is computed before sorting, so one key that
        raises makes the whole call raise. */
    function SortByDistance(dist: DistanceFn, lat: real, lon: real): (r: Result<VolcanoSet, Error>)
      ensures r.Ok? <==> forall v :: v in volcanoes ==> v.DistanceTo(dist, lat, lon).Ok?
      ensures r.Ok? ==> multiset(r.value.volcanoes) == multiset(volcanoes)
      ensures r.Ok? ==> Ordering.SortedBy(r.value.volcanoes, DistanceKey(dist, lat, lon))
      ensures r.Ok? ==> forall k ::
        Seqs.Filter(r.value.volcanoes, Ordering.HasKey(DistanceKey(dist, lat, lon), k))
        == Seqs.Filter(volcanoes, Ordering.HasKey(DistanceKey(dist, lat, lon), k))
      ensures r.Err? ==> exists v :: v in volcanoes && v.DistanceTo(dist, lat, lon) == Err(r.error)
    {
      match Seqs.MapTry(volcanoes, (v: Volcano) => v.DistanceTo(dist, lat, lon))
      case Err(e) => Err(e)
      case Ok(_) =>
        var key := DistanceKey(dist, lat, lon);
        assert forall k :: (Seqs.Filter(Ordering.SortBy(volcanoes, key), Ordering.HasKey(key, k))
          == Seqs.Filter(volcanoes, Ordering.HasKey(key, k))) by {
          forall k ensures Seqs.Filter(Ordering.SortBy(volcanoes, key), Ordering.HasKey(key, k))
            == Seqs.Filter(volcanoes, Ordering.HasKey(key, k)) {
            Ordering.SortStable(volcanoes, key, k);
          }
        }
        Ok(VolcanoSet(Ordering.SortBy(volcanoes, key)))
    }

    /** `within_radius(lat, lon, radius_km)`: the records at distance at most `radius_km`, in order. */
    function WithinRadius(dist: DistanceFn, lat: real, lon: real, radius: Ordering.Extended): (r: Result<VolcanoSet, Error>)
      ensures r.Ok? <==> forall v :: v in volcanoes ==> v.DistanceTo(dist, lat, lon).Ok?
      ensures r.Ok? ==> r.value.volcanoes == Seqs.Filter(volcanoes, WithinRadiusOf(dist, lat, lon, radius))
      ensures r.Err? ==> exists v :: v in volcanoes && v.DistanceTo(dist, lat, lon) == Err(r.error)
    {
      var test := RadiusTest(dist, lat, lon, radius);
      Seqs.FilterCongruent(volcanoes, Seqs.Passes(test), WithinRadiusOf(dist, lat, lon, radius));
      var vs :- Seqs.FilterTry(volcanoes, test);
      Ok(VolcanoSet(vs))
    }

    /** `get_lats()`: the latitudes that are not `None`; every known latitude appears and nothing else. */
    function GetLats(): (r: seq<Value>)
      ensures |r| <= Len()
      ensures forall i :: 0 <= i < |r| ==> !r[i].Null?
      ensures forall v :: v in volcanoes && !v.Lat().Null? ==> v.Lat() in r
      ensures forall i :: 0 <= i < |r| ==> exists v :: v in volcanoes && r[i] == v.Lat()
    {
      KnownValues(volcanoes, ReadLat)
    }

    /** `get_lons()`: the longitudes that are not `None`; every known longitude appears and nothing else. */
    function GetLons(): (r: seq<Value>)
      ensures |r| <= Len()
      ensures forall i :: 0 <= i < |r| ==> !r[i].Null?
      ensures forall v :: v in volcanoes && !v.Lon().Null? ==> v.Lon() in r
      ensures forall i :: 0 <= i < |r| ==> exists v :: v in volcanoes && r[i] == v.Lon()
    {
      KnownValues(volcanoes, ReadLon)
    }

    /** `get_elevs()`: the elevations (in metres) that are not `None`; every known elevation appears
        and nothing else. */
    function GetElevs(): (r: seq<Value>)
      ensures |r| <= Len()
      ensures forall i :: 0 <= i < |r| ==> !r[i].Null?
      ensures forall v :: v in volcanoes && !v.Elevation().Null? ==> v.Elevation() in r
      ensures forall i :: 0 <= i < |r| ==> exists v :: v in volcanoes && r[i] == v.Elevation()
    {
      KnownValues(volcanoes, ReadElevation)
    }

    /** `summary_stats()`, reading elevations through `get_elevation()` (metres). */
    function SummaryStats(): Result<Stats, Error> {
      Summary(volcanoes, ReadElevation)
    }
  }

  /** `get_lats()`, `get_lons()` and `get_elevs()` list the known values in the order of the set,
      each as often as it occurs: the lists of a concatenation are the concatenated lists, and a
      single record contributes its known value. */
  lemma CoordinateListsInOrder(s: VolcanoSet, t: VolcanoSet, v: Volcano)
    ensures VolcanoSet(s.volcanoes + t.volcanoes).GetLats() == s.GetLats() + t.GetLats()
    ensures VolcanoSet(s.volcanoes + t.volcanoes).GetLons() == s.GetLons() + t.GetLons()
    ensures VolcanoSet(s.volcanoes + t.volcanoes).GetElevs() == s.GetElevs() + t.GetElevs()
    ensures VolcanoSet([v]).GetLats() == if v.Lat().Null? then [] else [v.Lat()]
    ensures VolcanoSet([v]).GetLons() == if v.Lon().Null? then [] else [v.Lon()]
    ensures VolcanoSet([v]).GetElevs() == if v.Elevation().Null? then [] else [v.Elevation()]
  {
    KnownValuesAppend(s.volcanoes, t.volcanoes, ReadLat);
    KnownValuesAppend(s.volcanoes, t.volcanoes, ReadLon);
    KnownValuesAppend(s.volcanoes, t.volcanoes, ReadElevation);
  }

  /** Sorting by distance puts every record without coordinates after every record with a finite
      distance. */
  lemma UnlocatedLast(s: VolcanoSet, dist: DistanceFn, lat: real, lon: real, i: int, j: int)
    requires s.SortByDistance(dist, lat, lon).Ok?
    requires 0 <= i < s.Len() && 0 <= j < s.Len()
    requires var sorted := s.SortByDistance(dist, lat, lon).value.volcanoes;
      && (sorted[i].Lat().Null? || sorted[i].Lon().Null?)
      && sorted[j].DistanceTo(dist, lat, lon).Ok? && sorted[j].DistanceTo(dist, lat, lon).value.Finite?
    ensures j < i
  {
    var sorted := s.SortByDistance(dist, lat, lon).value.volcanoes;
    var key := DistanceKey(dist, lat, lon);
    assert key(sorted[i]) == Ordering.Infinity;
    assert key(sorted[j]).Finite?;
    assert i < j ==> Ordering.Le(key(sorted[i]), key(sorted[j]));
  }

  /** For a finite radius, a record without coordinates is never within it. */
  lemma WithinRadiusExcludesUnlocated(s: VolcanoSet, dist: DistanceFn, lat: real, lon: real, radius: real)
    requires s.WithinRadius(dist, lat, lon, Ordering.Finite(radius)).Ok?
    ensures forall v :: v in s.WithinRadius(dist, lat, lon, Ordering.Finite(radius)).value.volcanoes ==>
      v in s.volcanoes && !v.Lat().Null? && !v.Lon().Null?
  {
    Seqs.FilterMembers(s.volcanoes, WithinRadiusOf(dist, lat, lon, Ordering.Finite(radius)));
  }

  /** `filter_by_country` keeps exactly the records whose lower-cased country equals the
      lower-cased argument. */
  lemma CountryMembership(s: VolcanoSet, country: string)
    ensures s.FilterByCountry(country).Ok? ==> forall v :: v in s.FilterByCountry(country).value.volcanoes <==>
      v in s.volcanoes && Text.Lower(v.Country().s) == Text.Lower(country)
  {
    Seqs.FilterMembers(s.volcanoes, TextHolds(ReadCountry, (c: string) => c == Text.Lower(country)));
  }

  /** `filter_by_type` keeps exactly the records whose lower-cased type contains the lower-cased
      argument. */
  lemma TypeMembership(s: VolcanoSet, volcanoType: string)
    ensures s.FilterByType(volcanoType).Ok? ==> forall v :: v in s.FilterByType(volcanoType).value.volcanoes <==>
      v in s.volcanoes && Seqs.Contains(Text.Lower(v.VolcanoType().s), Text.Lower(volcanoType))
  {
    Seqs.FilterMembers(s.volcanoes, TextHolds(ReadType, (t: string) => Seqs.Contains(t, Text.Lower(volcanoType))));
  }

  /** `filter_by_elevation_range` keeps exactly the records whose known elevation lies in the
      inclusive range. */
  lemma ElevationMembership(s: VolcanoSet, minElev: real, maxElev: real)
    ensures ElevationRange(s.volcanoes, minElev, maxElev).Ok? ==> forall v ::
      v in ElevationRange(s.volcanoes, minElev, maxElev).value <==>
      v in s.volcanoes && !v.Elevation().Null? && minElev <= NumberOf(v.Elevation()).value <= maxElev
  {
    Seqs.FilterMembers(s.volcanoes, ElevationWithin(minElev, maxElev));
  }

  /** `len`, indexing and slicing agree with the backing list: `s[i]` and `s[i - len]` are the
      i-th record, `s[i:i+1]` holds just it, `s[:i]` and `s[i:]` split the records there, and
      `s[::-1]` lists them backwards. */
  lemma IndexingAgrees(s: VolcanoSet, i: int)
    requires 0 <= i < s.Len()
    ensures s.At(i) == Ok(s.volcanoes[i]) && s.At(i - s.Len()) == Ok(s.volcanoes[i])
    ensures s.Slice(Some(i), Some(i + 1), None) == Ok(VolcanoSet([s.volcanoes[i]]))
    ensures s.Slice(None, Some(i), None) == Ok(VolcanoSet(s.volcanoes[..i]))
    ensures s.Slice(Some(i), None, None) == Ok(VolcanoSet(s.volcanoes[i..]))
    ensures s.At(s.Len()) == Err(IndexError)
    ensures var r := s.Slice(None, None, Some(-1));
      r.Ok? && r.value.Len() == s.Len() && r.value.volcanoes[i] == s.volcanoes[s.Len() - 1 - i]
  {
    var n := s.Len();
    assert Seqs.SliceStart(Some(i), n, 1) == i && Seqs.SliceStart(None, n, 1) == 0;
    assert Seqs.SliceStop(Some(i + 1), n, 1) == i + 1 && Seqs.SliceStop(Some(i), n, 1) == i;
    assert Seqs.SliceStop(None, n, 1) == n;
    assert s.volcanoes[i..i + 1] == [s.volcanoes[i]];
    assert s.volcanoes[0..i] == s.volcanoes[..i] && s.volcanoes[i..n] == s.volcanoes[i..];
    Seqs.SliceReverses(s.volcanoes);
  }
}
