/** Field values of a record after loading, and the numeric coercion that `_process_data` applies to
    them. The CSV reader yields strings (and `None` for a missing cell); coercion turns some of them
    into ints and floats. Python's `int()`/`float()` string parsers and float `repr` are supplied as
    a `NumberSyntax` rather than modelled. */
module Values {
  import opened Wrappers
  import opened Errors
  import Text

  datatype Value = Str(s: string) | Int(i: int) | Num(r: real) | Null

  /** A record's field map, Python's `self._data`. */
  type Fields = map<string, Value>

  /** Python's `int(s)` and `float(s)` on strings (`None` where they raise ValueError) and
      `str(x)` on floats. */
  datatype NumberSyntax = NumberSyntax(
    parseInt: string -> Option<int>,
    parseFloat: string -> Option<real>,
    showFloat: real -> string)

  /** Python's `int(x)` for a float: truncation toward zero. */
  function Truncate(x: real): (n: int)
    ensures x >= 0.0 ==> n as real <= x < n as real + 1.0
    ensures x < 0.0 ==> n as real - 1.0 < x <= n as real
  {
    if x >= 0.0 then x.Floor else -((-x).Floor)
  }

  /** `int(v)`, with ValueError and TypeError turned into `None` as `_process_data` does. */
  function ToInt(v: Value, syntax: NumberSyntax): (r: Value)
    ensures r.Int? || r.Null?
    ensures v.Int? ==> r == v
    ensures v.Null? ==> r.Null?
    ensures v.Str? ==> (r.Int? <==> syntax.parseInt(v.s).Some?)
    ensures v.Str? && syntax.parseInt(v.s).Some? ==> r == Int(syntax.parseInt(v.s).value)
    ensures v.Num? ==> r == Int(Truncate(v.r))
  {
    match v
    case Str(s) => (match syntax.parseInt(s) case Some(n) => Int(n) case None => Null)
    case Int(_) => v
    case Num(x) => Int(Truncate(x))
    case Null => Null
  }

  /** `float(v)`, with ValueError and TypeError turned into `None`. */
  function ToFloat(v: Value, syntax: NumberSyntax): (r: Value)
    ensures r.Num? || r.Null?
    ensures v.Num? ==> r == v
    ensures v.Int? ==> r == Num(v.i as real)
    ensures v.Null? ==> r.Null?
    ensures v.Str? ==> (r.Num? <==> syntax.parseFloat(v.s).Some?)
    ensures v.Str? && syntax.parseFloat(v.s).Some? ==> r == Num(syntax.parseFloat(v.s).value)
  {
    match v
    case Str(s) => (match syntax.parseFloat(s) case Some(x) => Num(x) case None => Null)
    case Int(n) => Num(n as real)
    case Num(_) => v
    case Null => Null
  }

  datatype NumKind = IntField | FloatField

  function Coerce(v: Value, kind: NumKind, syntax: NumberSyntax): Value {
    match kind
    case IntField => ToInt(v, syntax)
    case FloatField => ToFloat(v, syntax)
  }

  /** Python's `str(v)`, as an f-string renders a field. */
  function Render(v: Value, syntax: NumberSyntax): string {
    match v
    case Str(s) => s
    case Int(n) => Text.IntToString(n)
    case Num(x) => syntax.showFloat(x)
    case Null => "None"
  }

  /** Python truthiness (`if v:`). */
  predicate Truthy(v: Value) {
    match v
    case Str(s) => s != ""
    case Int(n) => n != 0
    case Num(x) => x != 0.0
    case Null => false
  }

  /** The number in a numeric value; strings (the `''` that coercion leaves) and `None` have none. */
  function NumberOf(v: Value): Option<real> {
    match v
    case Int(n) => Some(n as real)
    case Num(x) => Some(x)
    case _ => None
  }

  /** `d.get(key, default)`. */
  function Get(d: Fields, key: string, default: Value): (r: Value)
    ensures key in d ==> r == d[key]
    ensures key !in d ==> r == default
  {
    if key in d then d[key] else default
  }

  /** `v.lower()` on a field value: only strings have it. */
  function LowerOf(v: Value, field: string): (r: Result<string, Error>)
    ensures r.Ok? <==> v.Str?
    ensures r.Ok? ==> r.value == Text.Lower(v.s)
    ensures r.Err? ==> r.error == AttributeError(field)
  {
    if v.Str? then Ok(Text.Lower(v.s)) else Err(AttributeError(field))
  }

  /** The numeric fields of a record with the kind each is coerced to. */
  type FieldList = seq<(string, NumKind)>

  predicate DistinctNames(fields: FieldList) {
    forall i, j :: 0 <= i < j < |fields| ==> fields[i].0 != fields[j].0
  }

  /** One step of the `_process_data` loop: a present, non-empty field is coerced; an absent field or
      one equal to `''` is left alone. */
  function CoerceOne(d: Fields, field: (string, NumKind), syntax: NumberSyntax): Fields {
    if field.0 in d && d[field.0] != Str("") then d[field.0 := Coerce(d[field.0], field.1, syntax)] else d
  }

  /** The whole `_process_data` loop over `fields`. Keys are neither added nor removed, a listed
      field is coerced unless absent or `''`, and every other field keeps its value. */
  function Coerced(d: Fields, fields: FieldList, syntax: NumberSyntax): (r: Fields)
    requires DistinctNames(fields)
    ensures r.Keys == d.Keys
    ensures forall k :: k in d && (forall i :: 0 <= i < |fields| ==> fields[i].0 != k) ==> r[k] == d[k]
    ensures forall i :: 0 <= i < |fields| && fields[i].0 in d ==>
      r[fields[i].0] == if d[fields[i].0] == Str("") then Str("") else Coerce(d[fields[i].0], fields[i].1, syntax)
  {
    if fields == [] then d
    else
      var init := fields[..|fields| - 1];
      assert forall i :: 0 <= i < |init| ==> init[i] == fields[i];
      CoerceOne(Coerced(d, init, syntax), fields[|fields| - 1], syntax)
  }

  /** The loop of `_process_data`, overwriting the entries of a field map one numeric field at a time. */
  method CoerceFields(d: Fields, fields: FieldList, syntax: NumberSyntax) returns (r: Fields)
    requires DistinctNames(fields)
    ensures r == Coerced(d, fields, syntax)
  {
    r := d;
    var i := 0;
    while i < |fields|
      invariant 0 <= i <= |fields|
      invariant r == Coerced(d, fields[..i], syntax)
    {
      var name := fields[i].0;
      if name in r && r[name] != Str("") {
        r := r[name := Coerce(r[name], fields[i].1, syntax)];
      }
      assert fields[..i + 1][..i] == fields[..i];
      i := i + 1;
    }
    assert fields[..|fields|] == fields;
  }

  /** After coercion a listed field holds a value of its kind, `None`, or the `''` left in place. */
  predicate Shaped(d: Fields, fields: FieldList) {
    forall i :: 0 <= i < |fields| && fields[i].0 in d ==>
      var v := d[fields[i].0];
      v == Str("") || v.Null? || (if fields[i].1 == IntField then v.Int? else v.Num?)
  }

  lemma CoercedShaped(d: Fields, fields: FieldList, syntax: NumberSyntax)
    requires DistinctNames(fields)
    ensures Shaped(Coerced(d, fields, syntax), fields)
  {
    var r := Coerced(d, fields, syntax);
    forall i | 0 <= i < |fields| && fields[i].0 in r
      ensures r[fields[i].0] == Str("") || r[fields[i].0].Null?
        || (if fields[i].1 == IntField then r[fields[i].0].Int? else r[fields[i].0].Num?)
    {
      if d[fields[i].0] != Str("") {
        match fields[i].1
        case IntField => assert r[fields[i].0] == ToInt(d[fields[i].0], syntax);
        case FloatField => assert r[fields[i].0] == ToFloat(d[fields[i].0], syntax);
      }
    }
  }

  /** Coercing an already coerced record changes nothing, so `_process_data` is idempotent on the
      numeric fields. */
  lemma CoercedIdempotent(d: Fields, fields: FieldList, syntax: NumberSyntax)
    requires DistinctNames(fields)
    ensures Coerced(Coerced(d, fields, syntax), fields, syntax) == Coerced(d, fields, syntax)
  {
    var once := Coerced(d, fields, syntax);
    var twice := Coerced(once, fields, syntax);
    CoercedShaped(d, fields, syntax);
    forall k | k in once ensures twice[k] == once[k] {
      if i :| 0 <= i < |fields| && fields[i].0 == k {
        var v := once[k];
        if v != Str("") {
          assert twice[k] == Coerce(v, fields[i].1, syntax);
        }
      }
    }
    assert twice == once;
  }
}
