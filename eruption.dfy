/** An eruption record (`Eruption` in volcanoes/core/eruption.py): a field map whose numeric fields
    `_process_data` coerces once, read through `get_field` and `[]`. */
module Eruptions {
  import opened Wrappers
  import opened Values

  /** The numeric fields `_process_data` converts, in loop order: the two numbers to ints, the
      rest to floats. */
  const NumericFields: FieldList := [
    ("VolcanoNumber", IntField), ("EruptionNumber", IntField), ("Year", FloatField),
    ("StartYear", FloatField), ("EndYear", FloatField), ("Latitude", FloatField),
    ("Longitude", FloatField), ("VEI", FloatField)]

  lemma NumericFieldsDistinct()
    ensures DistinctNames(NumericFields)
  {
  }

  /** `Eruption(data)`: the coercion loop of `_process_data`, which cannot fail (every conversion
      error becomes `None`). */
  method NewEruption(d: Fields, syntax: NumberSyntax) returns (e: Eruption)
    ensures e == Eruption(Processed(d, syntax))
  {
    NumericFieldsDistinct();
    var data := CoerceFields(d, NumericFields, syntax);
    e := Eruption(data);
  }

  function Processed(d: Fields, syntax: NumberSyntax): (r: Fields)
  {
    NumericFieldsDistinct();
    Coerced(d, NumericFields, syntax)
  }

  /** What `_process_data` does: keys are kept; a listed field that is present and not `''` is
      coerced to its kind (or `None` when it does not parse); every other field keeps its value;
      and processing twice is processing once. */
  lemma ProcessedFields(d: Fields, syntax: NumberSyntax)
    ensures Processed(d, syntax).Keys == d.Keys
    ensures forall k :: k in d && (forall i :: 0 <= i < |NumericFields| ==> NumericFields[i].0 != k) ==>
      Processed(d, syntax)[k] == d[k]
    ensures forall i :: 0 <= i < |NumericFields| && NumericFields[i].0 in d ==>
      Processed(d, syntax)[NumericFields[i].0]
        == if d[NumericFields[i].0] == Str("") then Str("") else Coerce(d[NumericFields[i].0], NumericFields[i].1, syntax)
    ensures Shaped(Processed(d, syntax), NumericFields)
    ensures Processed(Processed(d, syntax), syntax) == Processed(d, syntax)
  {
    NumericFieldsDistinct();
    CoercedShaped(d, NumericFields, syntax);
    CoercedIdempotent(d, NumericFields, syntax);
  }

  datatype Eruption = Eruption(data: Fields) {
    function VolcanoNumber(): Value { Get(data, "VolcanoNumber", Null) }

    /** `id` is an alias of `volcano_number`. */
    function Id(): Value { VolcanoNumber() }

    function EruptionNumber(): Value { Get(data, "EruptionNumber", Null) }

    /** `get_field(name, default)`. */
    function GetField(name: string, default: Value): (r: Value)
      ensures name in data ==> r == data[name]
      ensures name !in data ==> r == default
    {
      Get(data, name, default)
    }

    /** `eruption[key]`: `None` for an absent key instead of raising. */
    function GetItem(key: string): (r: Value)
      ensures r == GetField(key, Null)
      ensures key !in data ==> r.Null?
    {
      Get(data, key, Null)
    }
  }

  /** `id` is `volcano_number`, and both are `None` when the field is absent. */
  lemma IdIsVolcanoNumber(e: Eruption)
    ensures e.Id() == e.VolcanoNumber() == e.GetItem("VolcanoNumber")
    ensures "VolcanoNumber" !in e.data ==> e.Id().Null?
    ensures "EruptionNumber" !in e.data ==> e.EruptionNumber().Null?
  {
  }
}
