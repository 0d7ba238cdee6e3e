/** The query pipeline of `GVP.filter_volcanoes` in volcanoes/core/gvp.py, step by step: substring
    filters on four text fields, an id filter, an elevation window, and the optional distance
    filter and sort. Each filter keeps the order of its input, only the sort reorders, and the
    first exception raised by any step escapes. */
module Queries {
  import opened Wrappers
  import opened Errors
  import opened Values
  import Text
  import Seqs
  import Ordering
  import opened Volcanoes
  import opened VolcanoSets

  /** The keyword arguments of `filter_volcanoes`; `None` for an argument not given. */
  datatype Criteria = Criteria(
    country: Option<string>,
    name: Option<string>,
    id: Option<int>,
    volcanoType: Option<string>,
    geologicEpoch: Option<string>,
    latitude: Option<real>,
    longitude: Option<real>,
    radius: Option<Ordering.Extended>,
    minElevation: Option<real>,
    maxElevation: Option<real>)

  const NoCriteria := Criteria(None, None, None, None, None, None, None, None, None, None)

  function ReadName(v: Volcano): Value { v.Name() }
  function ReadEpoch(v: Volcano): Value { v.GeologicEpoch() }

  /** `if text:` for an optional string argument. */
  predicate Given(text: Option<string>) {
    text.Some? && text.value != ""
  }

  /** A record meets a text criterion: `text.lower() in v.<field>.lower()`. */
  predicate TextMatch(text: Option<string>, read: Volcano -> Value, v: Volcano) {
    Given(text) ==> read(v).Str? && Seqs.Contains(Text.Lower(read(v).s), Text.Lower(text.value))
  }

  function TextKeep(text: Option<string>, read: Volcano -> Value): Volcano -> bool {
    (v: Volcano) => TextMatch(text, read, v)
  }

  /** `filtered = [v for v in filtered if text.lower() in v.<field>.lower()]` when `text` is given:
      the records that match, in their order and with their repetitions. */
  function TextStep(vs: seq<Volcano>, text: Option<string>, read: Volcano -> Value, field: string)
    : (r: Result<seq<Volcano>, Error>)
    ensures r.Ok? <==> !Given(text) || forall v :: v in vs ==> read(v).Str?
    ensures r.Err? ==> r.error == AttributeError(field)
    ensures r.Ok? ==> r.value == Seqs.Filter(vs, TextKeep(text, read))
    ensures r.Ok? ==> multiset(r.value) <= multiset(vs)
    ensures r.Ok? ==> forall v :: v in r.value <==> v in vs && TextMatch(text, read, v)
  {
    Seqs.FilterMembers(vs, TextKeep(text, read));
    Seqs.FilterMultiset(vs, TextKeep(text, read));
    if Given(text) then
      var ok := (t: string) => Seqs.Contains(t, Text.Lower(text.value));
      Seqs.FilterCongruent(vs, TextHolds(read, ok), TextKeep(text, read));
      FilterText(vs, read, field, ok)
    else
      Seqs.FilterAll(vs, TextKeep(text, read));
      Ok(vs)
  }

  /** `v.id == id` with Python's numeric equality; `''` and `None` never equal an int. */
  function HasId(id: int): Volcano -> bool {
    (v: Volcano) => NumberOf(v.Id()) == Some(id as real)
  }

  function IdKeep(id: Option<int>): Volcano -> bool {
    (v: Volcano) => id.Some? ==> NumberOf(v.Id()) == Some(id.value as real)
  }

  /** `filtered = [v for v in filtered if v.id == id]` when `id` is given. */
  function IdStep(vs: seq<Volcano>, id: Option<int>): (r: seq<Volcano>)
    ensures r == Seqs.Filter(vs, IdKeep(id))
    ensures multiset(r) <= multiset(vs)
    ensures forall v :: v in r <==> v in vs && (id.Some? ==> NumberOf(v.Id()) == Some(id.value as real))
  {
    Seqs.FilterMembers(vs, IdKeep(id));
    Seqs.FilterMultiset(vs, IdKeep(id));
    if id.Some? then
      Seqs.FilterCongruent(vs, HasId(id.value), IdKeep(id));
      Seqs.Filter(vs, HasId(id.value))
    else
      Seqs.FilterAll(vs, IdKeep(id));
      vs
  }

  /** A known numeric elevation within the bounds that are given. */
  predicate InBounds(v: Volcano, lo: Option<real>, hi: Option<real>) {
    && NumberOf(v.Elevation()).Some?
    && (lo.Some? ==> lo.value <= NumberOf(v.Elevation()).value)
    && (hi.Some? ==> NumberOf(v.Elevation()).value <= hi.value)
  }

  /** One turn of the elevation loop: an unknown elevation is skipped, a number is kept when it
      passes both given bounds, and a `''` elevation cannot be compared (TypeError). */
  function BoundsTest(lo: Option<real>, hi: Option<real>): Seqs.Test<Volcano> {
    (v: Volcano) =>
      if v.Elevation().Null? then Ok(false)
      else match NumberOf(v.Elevation())
        case Some(x) => Ok((lo.None? || lo.value <= x) && (hi.None? || x <= hi.value))
        case None => Err(TypeError("Elevation"))
  }

  function BoundsKeep(lo: Option<real>, hi: Option<real>): Volcano -> bool {
    (v: Volcano) => (lo.Some? || hi.Some?) ==> InBounds(v, lo, hi)
  }

  /** The elevation window, applied only when a bound is given. */
  function ElevationStep(vs: seq<Volcano>, lo: Option<real>, hi: Option<real>): (r: Result<seq<Volcano>, Error>)
    ensures r.Ok? <==> (lo.None? && hi.None?) || forall v :: v in vs ==> !BadElevation(v)
    ensures r.Err? ==> r.error == TypeError("Elevation")
    ensures r.Ok? ==> r.value == Seqs.Filter(vs, BoundsKeep(lo, hi))
    ensures r.Ok? ==> multiset(r.value) <= multiset(vs)
    ensures r.Ok? ==> forall v :: v in r.value <==> v in vs && ((lo.Some? || hi.Some?) ==> InBounds(v, lo, hi))
  {
    Seqs.FilterMembers(vs, BoundsKeep(lo, hi));
    Seqs.FilterMultiset(vs, BoundsKeep(lo, hi));
    if lo.None? && hi.None? then
      Seqs.FilterAll(vs, BoundsKeep(lo, hi));
      Ok(vs)
    else
      var test := BoundsTest(lo, hi);
      assert forall v :: test(v).Ok? <==> !BadElevation(v);
      assert forall v :: test(v).Err? ==> test(v).error == TypeError("Elevation");
      assert forall v :: test(v) == Ok(true) <==> InBounds(v, lo, hi);
      Seqs.FilterCongruent(vs, Seqs.Passes(test), BoundsKeep(lo, hi));
      Seqs.FilterTry(vs, test)
  }

  /** With a bound given, the elevation window is the bounds test applied record by record. */
  lemma ElevationStepTry(vs: seq<Volcano>, lo: Option<real>, hi: Option<real>)
    requires lo.Some? || hi.Some?
    ensures ElevationStep(vs, lo, hi) == Seqs.FilterTry(vs, BoundsTest(lo, hi))
  {
  }

  /** Both coordinates of the query point are given. */
  predicate Located(c: Criteria) {
    c.latitude.Some? && c.longitude.Some?
  }

  /** The distance step: when both coordinates are given, `within_radius` (when a radius is given)
      and then `sort_by_distance`. */
  function DistanceStep(vs: seq<Volcano>, c: Criteria, dist: DistanceFn): (r: Result<seq<Volcano>, Error>)
  {
    if Located(c) then
      var near :- if c.radius.Some? then VolcanoSet(vs).WithinRadius(dist, c.latitude.value, c.longitude.value, c.radius.value)
        else Ok(VolcanoSet(vs));
      var sorted :- near.SortByDistance(dist, c.latitude.value, c.longitude.value);
      Ok(sorted.volcanoes)
    else Ok(vs)
  }

  /** A record meets the distance criterion. */
  predicate Near(v: Volcano, c: Criteria, dist: DistanceFn) {
    Located(c) && c.radius.Some? ==> WithinRadiusOf(dist, c.latitude.value, c.longitude.value, c.radius.value)(v)
  }

  function NearKeep(c: Criteria, dist: DistanceFn): Volcano -> bool {
    (v: Volcano) => Near(v, c, dist)
  }

  /** The distance step raises exactly when some record's distance does; otherwise it keeps the
      records within the radius, each as often as in the input, sorted by distance when the point
      is given, and it leaves the list alone when the point is not given. */
  lemma DistanceStepSpec(vs: seq<Volcano>, c: Criteria, dist: DistanceFn)
    ensures !Located(c) ==> DistanceStep(vs, c, dist) == Ok(vs)
    ensures DistanceStep(vs, c, dist).Ok? ==>
      multiset(DistanceStep(vs, c, dist).value) == multiset(Seqs.Filter(vs, NearKeep(c, dist)))
    ensures DistanceStep(vs, c, dist).Ok? <==>
      !Located(c) || forall v :: v in vs ==> v.DistanceTo(dist, c.latitude.value, c.longitude.value).Ok?
    ensures DistanceStep(vs, c, dist).Err? ==>
      exists v :: v in vs && v.DistanceTo(dist, c.latitude.value, c.longitude.value) == Err(DistanceStep(vs, c, dist).error)
    ensures DistanceStep(vs, c, dist).Ok? ==> multiset(DistanceStep(vs, c, dist).value) <= multiset(vs)
    ensures DistanceStep(vs, c, dist).Ok? ==> forall v :: v in DistanceStep(vs, c, dist).value <==> v in vs && Near(v, c, dist)
    ensures DistanceStep(vs, c, dist).Ok? && Located(c) ==>
      Ordering.SortedBy(DistanceStep(vs, c, dist).value, DistanceKey(dist, c.latitude.value, c.longitude.value))
  {
    if Located(c) && c.radius.Some? {
      var p := WithinRadiusOf(dist, c.latitude.value, c.longitude.value, c.radius.value);
      Seqs.FilterMembers(vs, p);
      Seqs.FilterMultiset(vs, p);
      var near := VolcanoSet(vs).WithinRadius(dist, c.latitude.value, c.longitude.value, c.radius.value);
      if near.Ok? {
        Seqs.FilterCongruent(vs, p, NearKeep(c, dist));
        var s := near.value.SortByDistance(dist, c.latitude.value, c.longitude.value);
        assert s.Ok?;
        assert multiset(s.value.volcanoes) == multiset(near.value.volcanoes);
        forall v ensures v in s.value.volcanoes <==> v in near.value.volcanoes {
          assert v in s.value.volcanoes <==> v in multiset(s.value.volcanoes);
        }
      }
    } else {
      Seqs.FilterAll(vs, NearKeep(c, dist));
    }
    if Located(c) && c.radius.None? {
      var s := VolcanoSet(vs).SortByDistance(dist, c.latitude.value, c.longitude.value);
      if s.Ok? {
        forall v ensures v in s.value.volcanoes <==> v in vs {
          assert v in s.value.volcanoes <==> v in multiset(s.value.volcanoes);
        }
      }
    }
  }

  /** All of `filter_volcanoes`, in its order of steps. */
  function Query(vs: seq<Volcano>, c: Criteria, dist: DistanceFn): Result<seq<Volcano>, Error> {
    var a :- TextStep(vs, c.country, ReadCountry, "Country");
    var b :- TextStep(a, c.name, ReadName, "VolcanoName");
    var d := IdStep(b, c.id);
    var e :- TextStep(d, c.volcanoType, ReadType, "VolcanoType");
    var f :- TextStep(e, c.geologicEpoch, ReadEpoch, "GeologicEpoch");
    var g :- ElevationStep(f, c.minElevation, c.maxElevation);
    DistanceStep(g, c, dist)
  }

  /** A record meets every criterion that is given. */
  predicate Matches(v: Volcano, c: Criteria, dist: DistanceFn) {
    && TextMatch(c.country, ReadCountry, v)
    && TextMatch(c.name, ReadName, v)
    && (c.id.Some? ==> NumberOf(v.Id()) == Some(c.id.value as real))
    && TextMatch(c.volcanoType, ReadType, v)
    && TextMatch(c.geologicEpoch, ReadEpoch, v)
    && ((c.minElevation.Some? || c.maxElevation.Some?) ==> InBounds(v, c.minElevation, c.maxElevation))
    && Near(v, c, dist)
  }

  function MatchesAll(c: Criteria, dist: DistanceFn): Volcano -> bool {
    (v: Volcano) => Matches(v, c, dist)
  }

  /** When the query does not raise, it returns records of the catalogue, no more often than
      there, exactly those that meet every given criterion, and sorted by distance when a point is
      given. `QueryOrder` gives the order and multiplicity. */
  lemma QuerySpec(vs: seq<Volcano>, c: Criteria, dist: DistanceFn)
    ensures Query(vs, c, dist).Ok? ==> multiset(Query(vs, c, dist).value) <= multiset(vs)
    ensures Query(vs, c, dist).Ok? ==> forall v :: v in Query(vs, c, dist).value <==> v in vs && Matches(v, c, dist)
    ensures Query(vs, c, dist).Ok? && Located(c) ==>
      Ordering.SortedBy(Query(vs, c, dist).value, DistanceKey(dist, c.latitude.value, c.longitude.value))
  {
    var a := TextStep(vs, c.country, ReadCountry, "Country");
    if a.Ok? {
      var b := TextStep(a.value, c.name, ReadName, "VolcanoName");
      if b.Ok? {
        var d := IdStep(b.value, c.id);
        var e := TextStep(d, c.volcanoType, ReadType, "VolcanoType");
        if e.Ok? {
          var f := TextStep(e.value, c.geologicEpoch, ReadEpoch, "GeologicEpoch");
          if f.Ok? {
            var g := ElevationStep(f.value, c.minElevation, c.maxElevation);
            if g.Ok? {
              DistanceStepSpec(g.value, c, dist);
            }
          }
        }
      }
    }
  }

  /** The query keeps the records that meet every criterion, each as often as in the catalogue: in
      catalogue order when no point is given, and reordered only by the distance sort when it is. */
  lemma QueryOrder(vs: seq<Volcano>, c: Criteria, dist: DistanceFn)
    ensures Query(vs, c, dist).Ok? && !Located(c) ==> Query(vs, c, dist).value == Seqs.Filter(vs, MatchesAll(c, dist))
    ensures Query(vs, c, dist).Ok? && Located(c) ==>
      multiset(Query(vs, c, dist).value) == multiset(Seqs.Filter(vs, MatchesAll(c, dist)))
  {
    var a := TextStep(vs, c.country, ReadCountry, "Country");
    if a.Ok? {
      var b := TextStep(a.value, c.name, ReadName, "VolcanoName");
      if b.Ok? {
        var d := IdStep(b.value, c.id);
        var e := TextStep(d, c.volcanoType, ReadType, "VolcanoType");
        if e.Ok? {
          var f := TextStep(e.value, c.geologicEpoch, ReadEpoch, "GeologicEpoch");
          if f.Ok? {
            var g := ElevationStep(f.value, c.minElevation, c.maxElevation);
            if g.Ok? {
              assert Query(vs, c, dist) == DistanceStep(g.value, c, dist);
              DistanceStepSpec(g.value, c, dist);
              PipelineFilters(vs, c, g.value);
              Seqs.FilterAnd(vs, Pre(c), NearKeep(c, dist));
              PreThenNear(vs, c, dist);
            }
          }
        }
      }
    }
  }

  /** The tests of the five filtering steps before the distance step, joined in their order. */
  function Pre(c: Criteria): Volcano -> bool {
    Seqs.And(Seqs.And(Seqs.And(Seqs.And(Seqs.And(TextKeep(c.country, ReadCountry),
      TextKeep(c.name, ReadName)), IdKeep(c.id)), TextKeep(c.volcanoType, ReadType)),
      TextKeep(c.geologicEpoch, ReadEpoch)), BoundsKeep(c.minElevation, c.maxElevation))
  }

  /** The five filtering steps before the distance step together filter once by all their tests. */
  lemma PipelineFilters(vs: seq<Volcano>, c: Criteria, g: seq<Volcano>)
    requires
      var a := TextStep(vs, c.country, ReadCountry, "Country");
      && a.Ok?
      && TextStep(a.value, c.name, ReadName, "VolcanoName").Ok?
      && var d := IdStep(TextStep(a.value, c.name, ReadName, "VolcanoName").value, c.id);
      && TextStep(d, c.volcanoType, ReadType, "VolcanoType").Ok?
      && TextStep(TextStep(d, c.volcanoType, ReadType, "VolcanoType").value, c.geologicEpoch, ReadEpoch, "GeologicEpoch").Ok?
      && ElevationStep(TextStep(TextStep(d, c.volcanoType, ReadType, "VolcanoType").value, c.geologicEpoch, ReadEpoch, "GeologicEpoch").value,
                       c.minElevation, c.maxElevation) == Ok(g)
    ensures g == Seqs.Filter(vs, Pre(c))
  {
    var p1, p2, p3 := TextKeep(c.country, ReadCountry), TextKeep(c.name, ReadName), IdKeep(c.id);
    var p4, p5, p6 := TextKeep(c.volcanoType, ReadType), TextKeep(c.geologicEpoch, ReadEpoch), BoundsKeep(c.minElevation, c.maxElevation);
    Seqs.FilterAnd(vs, p1, p2);
    var q2 := Seqs.And(p1, p2);
    Seqs.FilterAnd(vs, q2, p3);
    var q3 := Seqs.And(q2, p3);
    Seqs.FilterAnd(vs, q3, p4);
    var q4 := Seqs.And(q3, p4);
    Seqs.FilterAnd(vs, q4, p5);
    var q5 := Seqs.And(q4, p5);
    Seqs.FilterAnd(vs, q5, p6);
  }

  /** The joined tests, followed by the distance test, are `Matches`; without a point the distance
      test is void. */
  lemma PreThenNear(vs: seq<Volcano>, c: Criteria, dist: DistanceFn)
    ensures Seqs.Filter(vs, Seqs.And(Pre(c), NearKeep(c, dist))) == Seqs.Filter(vs, MatchesAll(c, dist))
    ensures !Located(c) ==> Seqs.Filter(vs, Pre(c)) == Seqs.Filter(vs, MatchesAll(c, dist))
  {
    Seqs.FilterCongruent(vs, Seqs.And(Pre(c), NearKeep(c, dist)), MatchesAll(c, dist));
    if !Located(c) {
      Seqs.FilterCongruent(vs, Pre(c), MatchesAll(c, dist));
    }
  }

  /** A query that gives no criterion returns the whole catalogue unchanged. */
  lemma QueryNoCriteria(vs: seq<Volcano>, dist: DistanceFn)
    ensures Query(vs, NoCriteria, dist) == Ok(vs)
  {
  }

  /** A query by id alone never raises, and keeps the records with that id in catalogue order. */
  lemma QueryById(vs: seq<Volcano>, id: int, dist: DistanceFn)
    ensures Query(vs, NoCriteria.(id := Some(id)), dist) == Ok(Seqs.Filter(vs, HasId(id)))
  {
  }

  /** The query raises only on malformed records: when every text field it reads is a string, every
      elevation is a number or `None` and every coordinate is a number or `None`, it succeeds. */
  lemma QueryTotal(vs: seq<Volcano>, c: Criteria, dist: DistanceFn)
    requires forall v :: v in vs ==>
      v.Country().Str? && v.Name().Str? && v.VolcanoType().Str? && v.GeologicEpoch().Str?
    requires forall v :: v in vs ==> !BadElevation(v)
    requires forall v :: v in vs ==> (v.Lat().Null? || NumberOf(v.Lat()).Some?) && (v.Lon().Null? || NumberOf(v.Lon()).Some?)
    ensures Query(vs, c, dist).Ok?
  {
    var a := TextStep(vs, c.country, ReadCountry, "Country");
    var b := TextStep(a.value, c.name, ReadName, "VolcanoName");
    var d := IdStep(b.value, c.id);
    var e := TextStep(d, c.volcanoType, ReadType, "VolcanoType");
    var f := TextStep(e.value, c.geologicEpoch, ReadEpoch, "GeologicEpoch");
    var g := ElevationStep(f.value, c.minElevation, c.maxElevation);
    DistanceStepSpec(g.value, c, dist);
  }
}
