/** The catalogue facade (`GVP` in volcanoes/core/gvp.py): it loads the CSV once when built and
    answers queries over the loaded records. The file's contents, the packaged default path and the
    distance formula are parameters. */
module Gvp {
  import opened Wrappers
  import opened Errors
  import opened Values
  import Text
  import Seqs
  import Ordering
  import opened Volcanoes
  import opened VolcanoSets
  import opened Catalogue
  import opened Queries

  /** `[v.<field> for v in vs if v.<field>]` over records whose text fields are strings or `None`:
      the non-empty strings. */
  function TruthyTexts(vs: seq<Volcano>, read: Volcano -> Value): (r: seq<string>)
    ensures |r| <= |vs|
    ensures forall t :: t in r <==> t != "" && exists v :: v in vs && read(v) == Str(t)
  {
    if vs == [] then []
    else
      assert forall v :: v in vs <==> v == vs[0] || v in vs[1..];
      (if read(vs[0]).Str? && read(vs[0]).s != "" then [read(vs[0]).s] else []) + TruthyTexts(vs[1..], read)
  }

  lemma TextLessIsStrictTotal()
    ensures Ordering.StrictTotalOrder(Text.Less)
  {
    forall a ensures !Text.Less(a, a) {
      Text.LessIrreflexive(a);
    }
    forall a, b, c | Text.Less(a, b) && Text.Less(b, c) ensures Text.Less(a, c) {
      Text.LessTransitive(a, b, c);
    }
    forall a, b | a != b ensures Text.Less(a, b) || Text.Less(b, a) {
      Text.LessTotal(a, b);
    }
  }

  /** `sorted(set(v.<field> for v in vs if v.<field>))`. */
  function SortedTexts(vs: seq<Volcano>, read: Volcano -> Value): (r: seq<string>)
    ensures Ordering.StrictlyAscending(r, Text.Less)
    ensures forall t :: t in r <==> t != "" && exists v :: v in vs && read(v) == Str(t)
    ensures |r| <= |vs|
  {
    TextLessIsStrictTotal();
    var texts := TruthyTexts(vs, read);
    var r := Ordering.SortedDistinct(texts, Text.Less);
    assert Seqs.Distinct(r) == Seqs.Distinct(texts);
    assert forall i, j :: 0 <= i < j < |r| ==> r[i] != r[j] by {
      forall i, j | 0 <= i < j < |r| ensures r[i] != r[j] {
        Text.LessIrreflexive(r[i]);
      }
    }
    Seqs.DistinctCount(r);
    Seqs.DistinctBounds(texts);
    r
  }

  /** Text fields that are strings or `None`, which is how loading leaves every record; `sorted`
      then compares strings only. */
  predicate TextsLoaded(v: Volcano) {
    (v.Country().Str? || v.Country().Null?) && (v.VolcanoType().Str? || v.VolcanoType().Null?)
  }

  lemma LoadedTexts(v: Volcano)
    requires Loaded(v)
    ensures TextsLoaded(v)
  {
    assert Unlisted("Country") && Unlisted("VolcanoType");
  }

  /** The dictionary `stats` returns. */
  datatype DbStats = DbStats(totalVolcanoes: nat, countries: nat, volcanoTypes: nat, dataSource: string)

  /** The elevation loop of `filter_volcanoes`: a record with an unknown elevation is skipped, one
      below the lower or above the upper bound is passed over with `continue`, and the rest are
      appended in order. Comparing a `''` elevation with a bound raises TypeError. */
  method ElevationLoop(vs: seq<Volcano>, lo: Option<real>, hi: Option<real>) returns (r: Result<seq<Volcano>, Error>)
    requires lo.Some? || hi.Some?
    ensures r == ElevationStep(vs, lo, hi)
  {
    var test := BoundsTest(lo, hi);
    var kept: seq<Volcano> := [];
    var i := 0;
    while i < |vs|
      invariant 0 <= i <= |vs|
      invariant Seqs.FilterTry(vs[..i], test) == Ok(kept)
    {
      var v := vs[i];
      Seqs.FilterTryStep(vs, i, test, kept);
      var elev := v.Elevation();
      if !elev.Null? {
        match NumberOf(elev)
        case None =>
          ElevationRaises(vs, i, lo, hi);
          return Err(TypeError("Elevation"));
        case Some(x) =>
          if lo.Some? && x < lo.value {
          } else if hi.Some? && x > hi.value {
          } else {
            kept := kept + [v];
          }
      }
      i := i + 1;
    }
    assert vs[..i] == vs;
    ElevationStepTry(vs, lo, hi);
    return Ok(kept);
  }

  /** A `''` elevation anywhere makes the elevation window raise. */
  lemma ElevationRaises(vs: seq<Volcano>, i: nat, lo: Option<real>, hi: Option<real>)
    requires i < |vs| && (lo.Some? || hi.Some?)
    requires !vs[i].Elevation().Null? && NumberOf(vs[i].Elevation()).None?
    ensures ElevationStep(vs, lo, hi) == Err(TypeError("Elevation"))
  {
    assert vs[i] in vs && BadElevation(vs[i]);
  }

  /** Loading one more row appends its record, if the constructor accepts it. */
  lemma LoadRowsSnoc(rows: seq<CsvRow>, i: nat, syntax: NumberSyntax)
    requires i < |rows|
    ensures LoadRows(rows[..i + 1], syntax) == LoadRows(rows[..i], syntax) +
      match RowRecord(rows[i], syntax) case Ok(d) => [Volcano(d)] case Err(_) => []
  {
    assert rows[..i + 1][..i] == rows[..i];
    assert rows[..i + 1][i] == rows[i];
  }

  /** The row loop of `_load_data`: clean each row, build a `Volcano`, and skip the row when the
      constructor raises. */
  method ReadRows(rows: seq<CsvRow>, syntax: NumberSyntax) returns (loaded: seq<Volcano>)
    ensures loaded == LoadRows(rows, syntax)
  {
    loaded := [];
    var i := 0;
    while i < |rows|
      invariant 0 <= i <= |rows|
      invariant loaded == LoadRows(rows[..i], syntax)
    {
      LoadRowsSnoc(rows, i, syntax);
      var v := NewVolcano(CleanRow(rows[i].cells), syntax);
      if v.Ok? {
        loaded := loaded + [v.value];
      }
      i := i + 1;
    }
    assert rows[..i] == rows;
  }

  class GVP {
    var csvPath: string
    /** `_volcanoes`; the `volcanoes` property returns it (`[]` before loading). */
    var volcanoes: seq<Volcano>
    const syntax: NumberSyntax

    /** Every record came out of loading. */
    ghost predicate Valid()
      reads this
    {
      forall v :: v in volcanoes ==> Loaded(v)
    }

    /** `GVP(csv_path)`: the given path, or the packaged `volcanoes.csv` when none is given; then
        `_load_data` reads `file`, the contents found at that path. */
    constructor (csvPath: Option<string>, packagedPath: string, file: CsvFile, syntax: NumberSyntax)
      ensures this.csvPath == (if csvPath.Some? then csvPath.value else packagedPath)
      ensures this.syntax == syntax
      ensures volcanoes == LoadFile(file, syntax)
      ensures Valid()
    {
      this.csvPath := if csvPath.Some? then csvPath.value else packagedPath;
      this.syntax := syntax;
      volcanoes := [];
      new;
      LoadData(file);
    }

    /** `_load_data`: row by row, clean the row, build a `Volcano`, and skip the row when the
        constructor raises. A missing or unreadable file leaves the catalogue empty. */
    method LoadData(file: CsvFile)
      modifies this
      ensures volcanoes == LoadFile(file, syntax)
      ensures csvPath == old(csvPath)
      ensures Valid()
    {
      match file {
        case Missing =>
          volcanoes := [];
        case Unreadable =>
          volcanoes := [];
        case Rows(rows) =>
          volcanoes := ReadRows(rows, syntax);
          LoadRowsLoaded(rows, syntax);
      }
    }

    /** `filter_volcanoes(...)`: the comprehension filters in turn, the elevation loop, then the
        distance filter and sort. */
    method FilterVolcanoes(c: Criteria, dist: DistanceFn) returns (r: Result<VolcanoSet, Error>)
      ensures r.Ok? == Query(volcanoes, c, dist).Ok?
      ensures r.Ok? ==> r.value.volcanoes == Query(volcanoes, c, dist).value
      ensures r.Err? ==> r.error == Query(volcanoes, c, dist).error
    {
      var a :- TextStep(volcanoes, c.country, ReadCountry, "Country");
      var b :- TextStep(a, c.name, ReadName, "VolcanoName");
      var d := IdStep(b, c.id);
      var e :- TextStep(d, c.volcanoType, ReadType, "VolcanoType");
      var filtered :- TextStep(e, c.geologicEpoch, ReadEpoch, "GeologicEpoch");
      if c.minElevation.Some? || c.maxElevation.Some? {
        filtered :- ElevationLoop(filtered, c.minElevation, c.maxElevation);
      }
      var set_ := VolcanoSet(filtered);
      if Located(c) {
        if c.radius.Some? {
          set_ :- set_.WithinRadius(dist, c.latitude.value, c.longitude.value, c.radius.value);
        }
        set_ :- set_.SortByDistance(dist, c.latitude.value, c.longitude.value);
      }
      return Ok(set_);
    }

    /** `get_volcano_by_id(volcano_id)`: the first record with that id, or `None`. */
    function GetVolcanoById(id: int): (r: Option<Volcano>)
      reads this
      ensures r.Some? <==> exists v :: v in volcanoes && NumberOf(v.Id()) == Some(id as real)
      ensures r.Some? ==> exists i :: (0 <= i < |volcanoes| && volcanoes[i] == r.value
        && NumberOf(r.value.Id()) == Some(id as real)
        && forall j :: 0 <= j < i ==> NumberOf(volcanoes[j].Id()) != Some(id as real))
    {
      var found := Seqs.Filter(volcanoes, HasId(id));
      Seqs.FilterMembers(volcanoes, HasId(id));
      if |found| > 0 then
        Seqs.FilterFirst(volcanoes, HasId(id));
        Some(found[0])
      else
        assert forall v :: v in volcanoes ==> !HasId(id)(v);
        None
    }

    /** `get_countries()`: the distinct non-empty country names in ascending order. */
    function GetCountries(): (r: seq<string>)
      reads this
      requires Valid()
      ensures Ordering.StrictlyAscending(r, Text.Less)
      ensures forall t :: t in r <==> t != "" && exists v :: v in volcanoes && v.Country() == Str(t)
      ensures |r| <= |volcanoes|
    {
      SortedTexts(volcanoes, ReadCountry)
    }

    /** `get_volcano_types()`: the distinct non-empty volcano types in ascending order. */
    function GetVolcanoTypes(): (r: seq<string>)
      reads this
      requires Valid()
      ensures Ordering.StrictlyAscending(r, Text.Less)
      ensures forall t :: t in r <==> t != "" && exists v :: v in volcanoes && v.VolcanoType() == Str(t)
      ensures |r| <= |volcanoes|
    {
      SortedTexts(volcanoes, ReadType)
    }

    /** `stats()`. */
    function Stats(): (r: DbStats)
      reads this
      requires Valid()
      ensures r.totalVolcanoes == |volcanoes| && r.dataSource == csvPath
      ensures r.countries == |GetCountries()| <= r.totalVolcanoes
      ensures r.volcanoTypes == |GetVolcanoTypes()| <= r.totalVolcanoes
    {
      DbStats(|volcanoes|, |GetCountries()|, |GetVolcanoTypes()|, csvPath)
    }
  }

  /** `get_volcano_by_id` agrees with `filter_volcanoes(id=...)`: it is the first record of that
      query's result. */
  lemma ByIdIsFirstOfQuery(g: GVP, id: int, dist: DistanceFn)
    ensures Query(g.volcanoes, NoCriteria.(id := Some(id)), dist).Ok?
    ensures var q := Query(g.volcanoes, NoCriteria.(id := Some(id)), dist).value;
      g.GetVolcanoById(id) == if |q| > 0 then Some(q[0]) else None
  {
    QueryById(g.volcanoes, id, dist);
  }

  /** The `sorted` in `get_countries` compares strings only: loaded records have string or `None`
      countries and types, and `None` is dropped as falsy. */
  lemma CountriesFromLoaded(g: GVP)
    requires g.Valid()
    ensures forall v :: v in g.volcanoes ==> TextsLoaded(v)
  {
    forall v | v in g.volcanoes ensures TextsLoaded(v) {
      LoadedTexts(v);
    }
  }
}
