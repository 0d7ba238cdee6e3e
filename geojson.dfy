/** The CSV-to-GeoJSON conversion of `GVPDownloader._csv_to_geojson`
    (volcanoes/core/gvp_downloader.py): every CSV row with usable coordinates becomes a Point
    feature (section 3.1.2 of RFC 7946) whose position lists longitude before latitude (section
    3.1.1), carrying the row's other columns as properties; the features are wrapped in a
    FeatureCollection (section 3.3). */
module GeoJson {
  import opened Wrappers
  import opened Errors
  import opened Values
  import Text
  import Seqs
  import opened Json
  import opened Catalogue

  /** `row.get(key)` on a `csv.DictReader` row: the last cell with that header name (`None` when the
      column is absent; a cell missing at the end of a short line holds `None`). */
  function Cell(cells: seq<(string, Option<string>)>, key: string): (r: Option<Option<string>>)
    ensures r.Some? <==> exists i :: 0 <= i < |cells| && cells[i].0 == key
    ensures r.Some? ==> exists i :: 0 <= i < |cells| && cells[i] == (key, r.value)
  {
    if cells == [] then None
    else
      var init := cells[..|cells| - 1];
      assert forall i :: 0 <= i < |init| ==> init[i] == cells[i];
      if cells[|cells| - 1].0 == key then Some(cells[|cells| - 1].1) else Cell(init, key)
  }

  /** `float(value)`: `Ok(None)` is the ValueError that makes the loop skip the row; `float(None)`
      is a TypeError, which the loop does not catch. */
  function FloatOf(value: Option<string>, syntax: NumberSyntax): (r: Result<Option<real>, Error>)
    ensures r.Err? <==> value.None?
    ensures r.Err? ==> r.error == TypeError("float")
    ensures value.Some? ==> r == Ok(syntax.parseFloat(value.value))
  {
    match value
    case None => Err(TypeError("float"))
    case Some(s) => Ok(syntax.parseFloat(s))
  }

  /** `float(row.get(upper, row.get(lower, 0)))`: the capitalised column wins, then the lower-case
      one, and a row with neither is at 0. */
  function Coordinate(cells: seq<(string, Option<string>)>, upper: string, lower: string, syntax: NumberSyntax)
    : (r: Result<Option<real>, Error>)
    ensures Cell(cells, upper).Some? ==> r == FloatOf(Cell(cells, upper).value, syntax)
    ensures Cell(cells, upper).None? && Cell(cells, lower).Some? ==> r == FloatOf(Cell(cells, lower).value, syntax)
    ensures Cell(cells, upper).None? && Cell(cells, lower).None? ==> r == Ok(Some(0.0))
  {
    match Cell(cells, upper)
    case Some(v) => FloatOf(v, syntax)
    case None => match Cell(cells, lower) case Some(v) => FloatOf(v, syntax) case None => Ok(Some(0.0))
  }

  /** `key.lower() in ['latitude', 'longitude', 'lat', 'lon']`. */
  predicate Excluded(key: string) {
    Text.Lower(key) in ["latitude", "longitude", "lat", "lon"]
  }

  /** The value stored for a property: text with a `.` is tried as a float and any other text as
      an int, and text that does not parse (and `None`) is kept as it is. */
  function Convert(value: Option<string>, syntax: NumberSyntax): (r: Json)
    ensures value.None? ==> r == JNull
    ensures value.Some? && '.' in value.value ==>
      r == if syntax.parseFloat(value.value).Some? then JNum(syntax.parseFloat(value.value).value) else JStr(value.value)
    ensures value.Some? && '.' !in value.value ==>
      r == if syntax.parseInt(value.value).Some? then JInt(syntax.parseInt(value.value).value) else JStr(value.value)
  {
    match value
    case None => JNull
    case Some(s) =>
      if '.' in s then (match syntax.parseFloat(s) case Some(x) => JNum(x) case None => JStr(s))
      else (match syntax.parseInt(s) case Some(n) => JInt(n) case None => JStr(s))
  }

  /** `feature['properties']` after the loop over the row's cells: every column that is not a
      coordinate, converted. */
  function Properties(cells: seq<(string, Option<string>)>, syntax: NumberSyntax): seq<(string, Json)> {
    if cells == [] then []
    else
      var last := cells[|cells| - 1];
      var props := Properties(cells[..|cells| - 1], syntax);
      if Excluded(last.0) then props else Put(props, last.0, Convert(last.1, syntax))
  }

  /** The property loop, assigning `feature['properties'][key]` cell by cell. */
  method RowProperties(cells: seq<(string, Option<string>)>, syntax: NumberSyntax) returns (props: seq<(string, Json)>)
    ensures props == Properties(cells, syntax)
  {
    props := [];
    var i := 0;
    while i < |cells|
      invariant 0 <= i <= |cells|
      invariant props == Properties(cells[..i], syntax)
    {
      assert cells[..i + 1][..i] == cells[..i];
      var key := cells[i].0;
      if Text.Lower(key) !in ["latitude", "longitude", "lat", "lon"] {
        props := Put(props, key, Convert(cells[i].1, syntax));
      }
      i := i + 1;
    }
    assert cells[..i] == cells;
  }

  /** A property is present exactly for a non-coordinate column of the row, and holds the converted
      value of the last cell with that name. */
  lemma {:induction false} PropertiesSpec(cells: seq<(string, Option<string>)>, syntax: NumberSyntax, k: string)
    ensures Member(Properties(cells, syntax), k) ==
      if Excluded(k) then None else match Cell(cells, k) case Some(v) => Some(Convert(v, syntax)) case None => None
  {
    if cells != [] {
      var last := cells[|cells| - 1];
      var init := cells[..|cells| - 1];
      PropertiesSpec(init, syntax, k);
      if !Excluded(last.0) {
        PutSpec(Properties(init, syntax), last.0, Convert(last.1, syntax));
      }
    }
  }

  /** No property is named after a coordinate, in any case. */
  lemma {:induction false} PropertiesExcludeCoordinates(cells: seq<(string, Option<string>)>, syntax: NumberSyntax)
    ensures forall i :: 0 <= i < |Properties(cells, syntax)| ==> !Excluded(Properties(cells, syntax)[i].0)
  {
    if cells != [] {
      var last := cells[|cells| - 1];
      var init := cells[..|cells| - 1];
      PropertiesExcludeCoordinates(init, syntax);
      if !Excluded(last.0) {
        PutSpec(Properties(init, syntax), last.0, Convert(last.1, syntax));
      }
    }
  }

  /** A Point feature at `(lon, lat)`. */
  function Feature(lon: real, lat: real, props: seq<(string, Json)>): Json {
    JObj([("type", JStr("Feature")),
          ("geometry", JObj([("type", JStr("Point")), ("coordinates", JArr([JNum(lon), JNum(lat)]))])),
          ("properties", JObj(props))])
  }

  /** The members of a feature, as `Subscript` reads them. */
  lemma FeatureMembers(lon: real, lat: real, props: seq<(string, Json)>)
    ensures Member(Feature(lon, lat, props).members, "type") == Some(JStr("Feature"))
    ensures Subscript(Feature(lon, lat, props), "geometry").Ok?
    ensures Subscript(Subscript(Feature(lon, lat, props), "geometry").value, "type") == Ok(JStr("Point"))
    ensures Subscript(Subscript(Feature(lon, lat, props), "geometry").value, "coordinates") == Ok(JArr([JNum(lon), JNum(lat)]))
    ensures Subscript(Feature(lon, lat, props), "properties") == Ok(JObj(props))
  {
    var ms := Feature(lon, lat, props).members;
    assert ms[..2][..1] == ms[..1];
    assert Member(ms[..1], "type") == Some(JStr("Feature"));
    assert Member(ms[..2], "geometry") == Some(ms[1].1);
    assert Member(ms[..2], "type") == Some(JStr("Feature"));
    var gs := ms[1].1.members;
    assert Member(gs[..1], "type") == Some(JStr("Point"));
    assert Member(gs, "coordinates") == Some(JArr([JNum(lon), JNum(lat)]));
  }

  /** One turn of the row loop: `Ok(None)` when a coordinate does not parse and the row is skipped.
      The latitude is read first. A row with surplus cells reaches the property loop with the key
      `None`, which has no `lower` (AttributeError). */
  function RowFeature(row: CsvRow, syntax: NumberSyntax): (r: Result<Option<Json>, Error>) {
    var lat :- Coordinate(row.cells, "Latitude", "latitude", syntax);
    if lat.None? then Ok(None)
    else
      var lon :- Coordinate(row.cells, "Longitude", "longitude", syntax);
      if lon.None? then Ok(None)
      else if row.surplus.Some? then Err(AttributeError("lower"))
      else Ok(Some(Feature(lon.value, lat.value, Properties(row.cells, syntax))))
  }

  /** A row has usable coordinates. */
  predicate Located(row: CsvRow, syntax: NumberSyntax) {
    RowFeature(row, syntax).Ok? && RowFeature(row, syntax).value.Some?
  }

  /** What a row becomes: it is skipped exactly when a coordinate fails to parse; it raises when a
      coordinate read raises, or when a located row has surplus cells; otherwise it is a Point
      feature at `[longitude, latitude]` with the non-coordinate columns as properties. */
  lemma RowFeatureSpec(row: CsvRow, syntax: NumberSyntax)
    ensures Coordinate(row.cells, "Latitude", "latitude", syntax) == Ok(None) ==> RowFeature(row, syntax) == Ok(None)
    ensures (Coordinate(row.cells, "Latitude", "latitude", syntax).Ok?
      && Coordinate(row.cells, "Latitude", "latitude", syntax).value.Some?
      && Coordinate(row.cells, "Longitude", "longitude", syntax) == Ok(None)) ==> RowFeature(row, syntax) == Ok(None)
    ensures Located(row, syntax) <==>
      && Coordinate(row.cells, "Latitude", "latitude", syntax).Ok?
      && Coordinate(row.cells, "Latitude", "latitude", syntax).value.Some?
      && Coordinate(row.cells, "Longitude", "longitude", syntax).Ok?
      && Coordinate(row.cells, "Longitude", "longitude", syntax).value.Some?
      && row.surplus.None?
    ensures Coordinate(row.cells, "Latitude", "latitude", syntax).Err? ==>
      RowFeature(row, syntax) == Err(Coordinate(row.cells, "Latitude", "latitude", syntax).error)
    ensures (Coordinate(row.cells, "Latitude", "latitude", syntax).Ok?
      && Coordinate(row.cells, "Latitude", "latitude", syntax).value.Some?
      && Coordinate(row.cells, "Longitude", "longitude", syntax).Err?) ==>
      RowFeature(row, syntax) == Err(Coordinate(row.cells, "Longitude", "longitude", syntax).error)
    ensures (Coordinate(row.cells, "Latitude", "latitude", syntax).Ok?
      && Coordinate(row.cells, "Latitude", "latitude", syntax).value.Some?
      && Coordinate(row.cells, "Longitude", "longitude", syntax).Ok?
      && Coordinate(row.cells, "Longitude", "longitude", syntax).value.Some?
      && row.surplus.Some?) ==> RowFeature(row, syntax) == Err(AttributeError("lower"))
    ensures Located(row, syntax) ==>
      var f := RowFeature(row, syntax).value.value;
      && Member(f.members, "type") == Some(JStr("Feature"))
      && Subscript(f, "geometry").Ok?
      && Subscript(Subscript(f, "geometry").value, "type") == Ok(JStr("Point"))
      && Subscript(Subscript(f, "geometry").value, "coordinates") == Ok(JArr([
           JNum(Coordinate(row.cells, "Longitude", "longitude", syntax).value.value),
           JNum(Coordinate(row.cells, "Latitude", "latitude", syntax).value.value)]))
      && Subscript(f, "properties") == Ok(JObj(Properties(row.cells, syntax)))
  {
    if Located(row, syntax) {
      var lat := Coordinate(row.cells, "Latitude", "latitude", syntax).value.value;
      var lon := Coordinate(row.cells, "Longitude", "longitude", syntax).value.value;
      FeatureMembers(lon, lat, Properties(row.cells, syntax));
    }
  }

  /** Without either latitude column the latitude is 0, and likewise the longitude. */
  lemma MissingColumnsAreZero(row: CsvRow, syntax: NumberSyntax)
    requires forall i :: 0 <= i < |row.cells| ==> row.cells[i].0 !in ["Latitude", "latitude", "Longitude", "longitude"]
    ensures Coordinate(row.cells, "Latitude", "latitude", syntax) == Ok(Some(0.0))
    ensures Coordinate(row.cells, "Longitude", "longitude", syntax) == Ok(Some(0.0))
    ensures row.surplus.None? ==> RowFeature(row, syntax) == Ok(Some(Feature(0.0, 0.0, Properties(row.cells, syntax))))
  {
  }

  /** `features` after the row loop; the first exception escapes. */
  function Features(rows: seq<CsvRow>, syntax: NumberSyntax): (r: Result<seq<Json>, Error>)
    ensures r.Ok? ==> |r.value| <= |rows|
  {
    if rows == [] then Ok([])
    else
      var features :- Features(rows[..|rows| - 1], syntax);
      var f :- RowFeature(rows[|rows| - 1], syntax);
      Ok(features + if f.Some? then [f.value] else [])
  }

  /** One more row extends the features by what `RowFeature` makes of it. */
  lemma FeaturesStep(rows: seq<CsvRow>, i: nat, syntax: NumberSyntax, features: seq<Json>)
    requires i < |rows| && Features(rows[..i], syntax) == Ok(features)
    ensures RowFeature(rows[i], syntax).Err? ==> Features(rows[..i + 1], syntax) == Err(RowFeature(rows[i], syntax).error)
    ensures RowFeature(rows[i], syntax) == Ok(None) ==> Features(rows[..i + 1], syntax) == Ok(features)
    ensures RowFeature(rows[i], syntax).Ok? && RowFeature(rows[i], syntax).value.Some? ==>
      Features(rows[..i + 1], syntax) == Ok(features + [RowFeature(rows[i], syntax).value.value])
  {
    assert rows[..i + 1][..i] == rows[..i] && rows[..i + 1][i] == rows[i];
    assert features + [] == features;
  }

  /** The row loop of `_csv_to_geojson`, appending one feature per located row. */
  method BuildFeatures(rows: seq<CsvRow>, syntax: NumberSyntax) returns (r: Result<seq<Json>, Error>)
    ensures r == Features(rows, syntax)
  {
    var features: seq<Json> := [];
    var i := 0;
    while i < |rows|
      invariant 0 <= i <= |rows|
      invariant Features(rows[..i], syntax) == Ok(features)
    {
      var row := rows[i];
      FeaturesStep(rows, i, syntax, features);
      var lat := Coordinate(row.cells, "Latitude", "latitude", syntax);
      if lat.Err? {
        FeaturesRaiseAt(rows, i, syntax);
        return Err(lat.error);
      }
      if lat.value.Some? {
        var lon := Coordinate(row.cells, "Longitude", "longitude", syntax);
        if lon.Err? {
          FeaturesRaiseAt(rows, i, syntax);
          return Err(lon.error);
        }
        if lon.value.Some? {
          if row.surplus.Some? {
            FeaturesRaiseAt(rows, i, syntax);
            return Err(AttributeError("lower"));
          }
          var props := RowProperties(row.cells, syntax);
          assert RowFeature(row, syntax) == Ok(Some(Feature(lon.value.value, lat.value.value, props)));
          features := features + [Feature(lon.value.value, lat.value.value, props)];
        } else {
          assert RowFeature(row, syntax) == Ok(None);
        }
      } else {
        assert RowFeature(row, syntax) == Ok(None);
      }
      i := i + 1;
    }
    assert rows[..i] == rows;
    return Ok(features);
  }

  /** A row that raises, after rows that did not, ends the loop with its exception. */
  lemma FeaturesRaiseAt(rows: seq<CsvRow>, i: nat, syntax: NumberSyntax)
    requires i < |rows| && Features(rows[..i], syntax).Ok? && RowFeature(rows[i], syntax).Err?
    ensures Features(rows, syntax) == Err(RowFeature(rows[i], syntax).error)
  {
    FeaturesStep(rows, i, syntax, Features(rows[..i], syntax).value);
    FeaturesErrPersists(rows, i + 1, syntax);
  }

  /** Once the loop has raised, no later row changes the outcome. */
  lemma {:induction false} FeaturesErrPersists(rows: seq<CsvRow>, i: nat, syntax: NumberSyntax)
    requires i <= |rows| && Features(rows[..i], syntax).Err?
    ensures Features(rows, syntax) == Features(rows[..i], syntax)
    decreases |rows| - i
  {
    if i < |rows| {
      assert rows[..i + 1][..i] == rows[..i];
      FeaturesErrPersists(rows, i + 1, syntax);
    } else {
      assert rows[..i] == rows;
    }
  }

  /** When the loop does not raise, it emits one feature per located row. */
  lemma {:induction false} FeaturesCount(rows: seq<CsvRow>, syntax: NumberSyntax)
    requires Features(rows, syntax).Ok?
    ensures |Features(rows, syntax).value| == |Seqs.Filter(rows, (row: CsvRow) => Located(row, syntax))|
  {
    if rows != [] {
      var p := (row: CsvRow) => Located(row, syntax);
      var init := rows[..|rows| - 1];
      var last := rows[|rows| - 1];
      FeaturesCount(init, syntax);
      assert rows == init + [last];
      Seqs.FilterAppend(init, [last], p);
      assert |Seqs.Filter([last], p)| == if Located(last, syntax) then 1 else 0;
    }
  }

  /** The rows that yield a feature. */
  function LocatedKeep(syntax: NumberSyntax): CsvRow -> bool {
    row => Located(row, syntax)
  }

  /** The feature a located row yields. */
  function FeatureOf(syntax: NumberSyntax): CsvRow -> Json {
    row => if Located(row, syntax) then RowFeature(row, syntax).value.value else JNull
  }

  /** When the loop does not raise, its features are those of the located rows, in file order,
      each one the feature `RowFeature` makes of its row. */
  lemma {:induction false} FeaturesInOrder(rows: seq<CsvRow>, syntax: NumberSyntax)
    requires Features(rows, syntax).Ok?
    ensures Features(rows, syntax).value == Seqs.Map(Seqs.Filter(rows, LocatedKeep(syntax)), FeatureOf(syntax))
  {
    if rows != [] {
      var p, f := LocatedKeep(syntax), FeatureOf(syntax);
      var init, last := rows[..|rows| - 1], rows[|rows| - 1];
      FeaturesLast(rows, syntax);
      FeaturesInOrder(init, syntax);
      Seqs.FilterLast(rows, p);
      Seqs.MapAppend(Seqs.Filter(init, p), if p(last) then [last] else [], f);
    }
  }

  /** The last row adds the feature it yields, if any, after those of the rows before it. */
  lemma FeaturesLast(rows: seq<CsvRow>, syntax: NumberSyntax)
    requires rows != [] && Features(rows, syntax).Ok?
    ensures Features(rows[..|rows| - 1], syntax).Ok?
    ensures Features(rows, syntax).value == Features(rows[..|rows| - 1], syntax).value
      + Seqs.Map(if Located(rows[|rows| - 1], syntax) then [rows[|rows| - 1]] else [], FeatureOf(syntax))
  {
    var p, f := LocatedKeep(syntax), FeatureOf(syntax);
    var n := |rows| - 1;
    var last := rows[n];
    assert rows[..n + 1] == rows;
    FeaturesStep(rows, n, syntax, Features(rows[..n], syntax).value);
    if p(last) {
      assert Seqs.Map([last], f) == [RowFeature(last, syntax).value.value];
    } else {
      assert Seqs.Map([], f) == [];
    }
  }

  /** The document written to the output file. */
  function Collection(features: seq<Json>): (r: Json)
    ensures Subscript(r, "type") == Ok(JStr("FeatureCollection"))
    ensures Subscript(r, "features") == Ok(JArr(features))
  {
    var ms := [("type", JStr("FeatureCollection")), ("features", JArr(features))];
    assert ms[..1] == [ms[0]];
    assert Member(ms[..1], "type") == Some(JStr("FeatureCollection"));
    assert Member(ms, "features") == Some(JArr(features));
    JObj(ms)
  }
}
