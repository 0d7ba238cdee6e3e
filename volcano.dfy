/** A volcano record (`Volcano` in volcanoes/core/volcano.py): the field map of one catalogue row,
    normalised once by `_process_data`, and the read-only accessors over it. */
module Volcanoes {
  import opened Wrappers
  import opened Errors
  import opened Values
  import Text
  import Ordering

  /** Great-circle distance in km between `(lat1, lon1)` and `(lat2, lon2)`; the haversine formula
      itself is not part of the model. */
  type DistanceFn = (real, real, real, real) -> real

  /** Metres to feet, as `get_elevation` converts. */
  const FeetPerMetre: real := 3.28084

  /** The numeric fields `_process_data` converts, in loop order. */
  const NumericFields: FieldList := [
    ("VolcanoNumber", IntField), ("LastEruptionYear", FloatField), ("Latitude", FloatField),
    ("Longitude", FloatField), ("Elevation", FloatField)]

  lemma NumericFieldsDistinct()
    ensures DistinctNames(NumericFields)
    ensures forall i :: 0 <= i < |NumericFields| ==> NumericFields[i].0 != "VolcanoName"
  {
  }

  const UnnamedPrefix: string := "Unnamed-"

  /** `name.strip().lower() == 'unnamed'`. */
  predicate IsUnnamed(name: string) {
    Text.Lower(Text.Strip(name)) == "unnamed"
  }

  /** The first step of `_process_data`: a name that reads `unnamed` is replaced by
      `Unnamed-<VolcanoNumber>`, using the raw number before any coercion. A name that is not a
      string has no `strip` (AttributeError); an unnamed row without a number raises KeyError. */
  function Renamed(d: Fields, syntax: NumberSyntax): (r: Result<Fields, Error>)
    ensures r.Ok? <==> (Get(d, "VolcanoName", Str("")).Str?
      && (IsUnnamed(Get(d, "VolcanoName", Str("")).s) ==> "VolcanoNumber" in d))
    ensures r.Err? && !Get(d, "VolcanoName", Str("")).Str? ==> r.error == AttributeError("VolcanoName")
    ensures r.Err? && Get(d, "VolcanoName", Str("")).Str? ==> r.error == KeyError("VolcanoNumber")
    ensures r.Ok? && IsUnnamed(Get(d, "VolcanoName", Str("")).s) ==>
      r.value == d["VolcanoName" := Str(UnnamedPrefix + Render(d["VolcanoNumber"], syntax))]
    ensures r.Ok? && !IsUnnamed(Get(d, "VolcanoName", Str("")).s) ==> r.value == d
  {
    var name := Get(d, "VolcanoName", Str(""));
    if !name.Str? then Err(AttributeError("VolcanoName"))
    else if IsUnnamed(name.s) then
      if "VolcanoNumber" in d then Ok(d["VolcanoName" := Str(UnnamedPrefix + Render(d["VolcanoNumber"], syntax))])
      else Err(KeyError("VolcanoNumber"))
    else Ok(d)
  }

  /** A generated `Unnamed-...` name never reads as `unnamed` again. */
  lemma RenamedNameIsNamed(suffix: string)
    ensures !IsUnnamed(UnnamedPrefix + suffix)
  {
    Text.StripKeepsPrefix(UnnamedPrefix, suffix);
  }

  /** All of `_process_data`: the rename, then numeric coercion of the five numeric fields. */
  function Processed(d: Fields, syntax: NumberSyntax): (r: Result<Fields, Error>)
    ensures r.Ok? <==> Renamed(d, syntax).Ok?
    ensures r.Err? ==> r.error == Renamed(d, syntax).error
  {
    NumericFieldsDistinct();
    var renamed :- Renamed(d, syntax);
    Ok(Coerced(renamed, NumericFields, syntax))
  }

  predicate Unlisted(k: string) {
    k != "VolcanoName" && forall i :: 0 <= i < |NumericFields| ==> NumericFields[i].0 != k
  }

  /** What `_process_data` does to each field: no key is added or removed; a numeric field becomes
      an int (`VolcanoNumber`) or a float, or `None` when it does not parse, unless it is `''`; every
      field other than the name and the numeric ones keeps its value. */
  lemma ProcessedFields(d: Fields, syntax: NumberSyntax)
    requires Processed(d, syntax).Ok?
    ensures Processed(d, syntax).value.Keys == d.Keys
    ensures forall k :: k in d && Unlisted(k) ==> Processed(d, syntax).value[k] == d[k]
    ensures forall i :: 0 <= i < |NumericFields| && NumericFields[i].0 in d ==>
      Processed(d, syntax).value[NumericFields[i].0]
        == if d[NumericFields[i].0] == Str("") then Str("") else Coerce(d[NumericFields[i].0], NumericFields[i].1, syntax)
    ensures Shaped(Processed(d, syntax).value, NumericFields)
  {
    NumericFieldsDistinct();
    var renamed := Renamed(d, syntax).value;
    RenamedOnlyName(d, syntax);
    CoercedAfterRename(d, renamed, NumericFields, syntax);
    CoercedShaped(renamed, NumericFields, syntax);
  }

  /** Coercion after a rename that touched only the name reads the numeric fields of the original. */
  lemma CoercedAfterRename(d: Fields, renamed: Fields, fields: FieldList, syntax: NumberSyntax)
    requires DistinctNames(fields)
    requires forall i :: 0 <= i < |fields| ==> fields[i].0 != "VolcanoName"
    requires renamed.Keys == d.Keys
    requires forall k :: k in d && k != "VolcanoName" ==> renamed[k] == d[k]
    ensures Coerced(renamed, fields, syntax).Keys == d.Keys
    ensures forall k :: k in d && k != "VolcanoName" && (forall i :: 0 <= i < |fields| ==> fields[i].0 != k) ==>
      Coerced(renamed, fields, syntax)[k] == d[k]
    ensures forall i :: 0 <= i < |fields| && fields[i].0 in d ==>
      Coerced(renamed, fields, syntax)[fields[i].0]
        == if d[fields[i].0] == Str("") then Str("") else Coerce(d[fields[i].0], fields[i].1, syntax)
  {
  }

  lemma RenamedOnlyName(d: Fields, syntax: NumberSyntax)
    requires Renamed(d, syntax).Ok?
    ensures Renamed(d, syntax).value.Keys == d.Keys
    ensures forall k :: k in d && k != "VolcanoName" ==> Renamed(d, syntax).value[k] == d[k]
  {
  }

  /** Processing an already processed record changes nothing: the generated name is not `unnamed`,
      and coerced numbers coerce to themselves. */
  lemma ProcessedIdempotent(d: Fields, syntax: NumberSyntax)
    requires Processed(d, syntax).Ok?
    ensures Processed(Processed(d, syntax).value, syntax) == Processed(d, syntax)
  {
    NumericFieldsDistinct();
    var renamed := Renamed(d, syntax).value;
    var once := Processed(d, syntax).value;
    var name := Get(d, "VolcanoName", Str(""));
    if IsUnnamed(name.s) {
      RenamedNameIsNamed(Render(d["VolcanoNumber"], syntax));
    }
    assert Get(once, "VolcanoName", Str("")) == Get(renamed, "VolcanoName", Str(""));
    assert Renamed(once, syntax) == Ok(once);
    CoercedIdempotent(renamed, NumericFields, syntax);
  }

  /** `Volcano(data)`: runs `_process_data` over the caller's field map, overwriting the numeric
      entries one at a time. */
  method NewVolcano(d: Fields, syntax: NumberSyntax) returns (r: Result<Volcano, Error>)
    ensures r.Ok? <==> Processed(d, syntax).Ok?
    ensures r.Ok? ==> r.value == Volcano(Processed(d, syntax).value)
    ensures r.Err? ==> r.error == Processed(d, syntax).error
  {
    var data := d;
    var name := Get(data, "VolcanoName", Str(""));
    if !name.Str? {
      return Err(AttributeError("VolcanoName"));
    }
    if IsUnnamed(name.s) {
      if "VolcanoNumber" !in data {
        return Err(KeyError("VolcanoNumber"));
      }
      data := data["VolcanoName" := Str(UnnamedPrefix + Render(data["VolcanoNumber"], syntax))];
    }
    NumericFieldsDistinct();
    data := CoerceFields(data, NumericFields, syntax);
    return Ok(Volcano(data));
  }

  datatype Volcano = Volcano(data: Fields) {
    function VolcanoNumber(): Value { Get(data, "VolcanoNumber", Null) }

    /** `id` is an alias of `volcano_number`. */
    function Id(): Value { VolcanoNumber() }

    function Name(): Value { Get(data, "VolcanoName", Str("")) }
    function VolcanoType(): Value { Get(data, "VolcanoType", Str("")) }
    function Country(): Value { Get(data, "Country", Str("")) }
    function Region(): Value { Get(data, "Region", Str("")) }
    function Subregion(): Value { Get(data, "Subregion", Str("")) }
    function GeologicalSummary(): Value { Get(data, "GeologicalSummary", Str("")) }
    function TectonicSetting(): Value { Get(data, "TectonicSetting", Str("")) }
    function GeologicEpoch(): Value { Get(data, "GeologicEpoch", Str("")) }
    function EvidenceCategory(): Value { Get(data, "EvidenceCategory", Str("")) }
    function MajorRockType(): Value { Get(data, "MajorRockType", Str("")) }
    function LastUpdateDate(): Value { Get(data, "LastUpdateDate", Str("")) }
    function Remarks(): Value { Get(data, "Remarks", Str("")) }

    /** `lat`/`latitude`. */
    function Lat(): Value { Get(data, "Latitude", Null) }
    /** `lon`/`longitude`. */
    function Lon(): Value { Get(data, "Longitude", Null) }
    function LastEruptionYear(): Value { Get(data, "LastEruptionYear", Null) }

    /** The stored elevation in metres: `elevation`/`elev`, i.e. `get_elevation()` with its default
        units. */
    function Elevation(): Value { Get(data, "Elevation", Null) }

    /** `get_elevation(units)`. A missing elevation is `None` whatever the units; otherwise the units
        are compared case-insensitively: `m` gives the stored value, `ft`/`feet` multiplies it by
        3.28084 (a `''` elevation cannot be multiplied: TypeError), anything else is a ValueError. */
    function GetElevation(units: string): (r: Result<Value, Error>)
      ensures Elevation().Null? ==> r == Ok(Null)
      ensures !Elevation().Null? && Text.Lower(units) == "m" ==> r == Ok(Elevation())
      ensures !Elevation().Null? && Text.Lower(units) in ["ft", "feet"] ==>
        match NumberOf(Elevation())
        case Some(x) => r == Ok(Num(x * FeetPerMetre))
        case None => r == Err(TypeError("Elevation"))
      ensures !Elevation().Null? && Text.Lower(units) !in ["m", "ft", "feet"] ==> r.Err? && r.error.ValueError?
    {
      var e := Elevation();
      if e.Null? then Ok(Null)
      else
        var u := Text.Lower(units);
        if u == "m" then Ok(e)
        else if u == "ft" || u == "feet" then
          match NumberOf(e)
          case Some(x) => Ok(Num(x * FeetPerMetre))
          case None => Err(TypeError("Elevation"))
        else Err(ValueError("Units must be 'm' or 'ft'"))
    }

    /** `origin`: `(lat, lon, get_elevation())`. */
    function Origin(): (r: (Value, Value, Value))
      ensures r.0 == Lat() && r.1 == Lon()
      ensures GetElevation("m") == Ok(r.2)
    {
      (Lat(), Lon(), Elevation())
    }

    /** `distance_to(lat, lon)`: `+inf` when either coordinate is `None`, otherwise the distance
        from the record's coordinates; a coordinate left as `''` cannot be converted to radians
        (TypeError). */
    function DistanceTo(dist: DistanceFn, lat: real, lon: real): (r: Result<Ordering.Extended, Error>)
      ensures Lat().Null? || Lon().Null? ==> r == Ok(Ordering.Infinity)
      ensures r.Ok? && r.value.Finite? ==>
        NumberOf(Lat()).Some? && NumberOf(Lon()).Some? && r.value.x == dist(NumberOf(Lat()).value, NumberOf(Lon()).value, lat, lon)
      ensures r.Err? <==> !Lat().Null? && !Lon().Null? && (NumberOf(Lat()).None? || NumberOf(Lon()).None?)
      ensures NumberOf(Lat()).Some? && NumberOf(Lon()).Some? ==>
        r == Ok(Ordering.Finite(dist(NumberOf(Lat()).value, NumberOf(Lon()).value, lat, lon)))
    {
      if Lat().Null? || Lon().Null? then Ok(Ordering.Infinity)
      else
        match (NumberOf(Lat()), NumberOf(Lon()))
        case (Some(x), Some(y)) => Ok(Ordering.Finite(dist(x, y, lat, lon)))
        case _ => Err(TypeError("Latitude"))
    }
  }

  /** Accessors read the field map and fall back to `''` for text fields and `None` for numeric
      ones; `id` is `volcano_number`. */
  lemma AccessorDefaults(v: Volcano)
    ensures v.Id() == v.VolcanoNumber()
    ensures "VolcanoNumber" !in v.data ==> v.VolcanoNumber().Null?
    ensures "Latitude" !in v.data ==> v.Lat().Null?
    ensures "Longitude" !in v.data ==> v.Lon().Null?
    ensures "LastEruptionYear" !in v.data ==> v.LastEruptionYear().Null?
    ensures "VolcanoName" !in v.data ==> v.Name() == Str("")
    ensures "Country" !in v.data ==> v.Country() == Str("")
    ensures "VolcanoType" !in v.data ==> v.VolcanoType() == Str("")
    ensures "GeologicEpoch" !in v.data ==> v.GeologicEpoch() == Str("")
    ensures forall k :: k in v.data && k in ["Country", "VolcanoType", "VolcanoName", "GeologicEpoch"] ==>
      Get(v.data, k, Str("")) == v.data[k]
  {
  }

  /** The units argument of `get_elevation` is case-insensitive. */
  lemma GetElevationCaseInsensitive(v: Volcano, units: string)
    ensures v.GetElevation(units) == v.GetElevation(Text.Lower(units))
  {
    Text.LowerIdempotent(units);
  }

  /** Feet are metres times 3.28084: the two unit requests agree on every numeric elevation. */
  lemma FeetFromMetres(v: Volcano, x: real)
    requires v.GetElevation("m") == Ok(Num(x))
    ensures v.GetElevation("ft") == Ok(Num(x * FeetPerMetre))
    ensures v.GetElevation("FEET") == Ok(Num(x * FeetPerMetre))
  {
    assert Text.Lower("m") == "m";
    assert Text.Lower("ft") == "ft";
    assert Text.Lower("FEET") == "feet";
  }
}
