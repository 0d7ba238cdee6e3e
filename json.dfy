/** The JSON values the cache manager writes and reads (the metadata sidecars and the GeoJSON
    export). Python's `json` module is not modelled: encoding and decoding are given as a codec. */
module Json {
  import opened Wrappers
  import opened Errors
  import Repair

  /** A JSON document as Python's `json` builds it; an object keeps its members in insertion order. */
  datatype Json =
    | JNull
    | JBool(b: bool)
    | JInt(i: int)
    | JNum(r: real)
    | JStr(s: string)
    | JArr(items: seq<Json>)
    | JObj(members: seq<(string, Json)>)

  /** What `json.load` makes of a file's bytes: a value, a `JSONDecodeError`, or a text decoding
      failure (`UnicodeDecodeError`), which `_load_metadata` does not catch. */
  datatype Decoded = Parsed(value: Json) | Malformed | Undecodable

  /** `json.dump` and `json.load` over bytes. */
  datatype Codec = Codec(encode: Json -> Repair.Bytes, decode: Repair.Bytes -> Decoded)

  /** Reading back the bytes written for `j` gives `j` again. */
  predicate RoundTrips(codec: Codec, j: Json) {
    codec.decode(codec.encode(j)) == Parsed(j)
  }

  /** Python truthiness of a loaded value (`if metadata:`). */
  predicate Truthy(j: Json) {
    match j
    case JNull => false
    case JBool(b) => b
    case JInt(i) => i != 0
    case JNum(r) => r != 0.0
    case JStr(s) => s != ""
    case JArr(items) => items != []
    case JObj(members) => members != []
  }

  /** `d.get(key)` on the dict a JSON object loads to: the last member with that key wins. */
  function Member(members: seq<(string, Json)>, key: string): (r: Option<Json>)
    ensures r.Some? <==> exists i :: 0 <= i < |members| && members[i].0 == key
    ensures r.Some? ==> exists i :: 0 <= i < |members| && members[i] == (key, r.value)
  {
    if members == [] then None
    else
      var last := members[|members| - 1];
      var init := members[..|members| - 1];
      if last.0 == key then Some(last.1)
      else
        var r := Member(init, key);
        assert forall i :: 0 <= i < |init| ==> init[i] == members[i];
        r
  }

  /** `value[key]` on a loaded value: an object without the key raises KeyError, and a value that is
      not an object cannot be subscripted by a string (TypeError). */
  function Subscript(j: Json, key: string): (r: Result<Json, Error>)
    ensures r.Ok? <==> j.JObj? && Member(j.members, key).Some?
    ensures r.Ok? ==> r.value == Member(j.members, key).value
    ensures j.JObj? && r.Err? ==> r.error == KeyError(key)
    ensures !j.JObj? ==> r == Err(TypeError(key))
  {
    match j
    case JObj(members) => (match Member(members, key) case Some(v) => Ok(v) case None => Err(KeyError(key)))
    case _ => Err(TypeError(key))
  }

  /** The object has a member named `key`. */
  predicate HasKey(members: seq<(string, Json)>, key: string) {
    exists i :: 0 <= i < |members| && members[i].0 == key
  }

  /** The members with the value of every member named `key` replaced, in place. */
  function SetValue(members: seq<(string, Json)>, key: string, value: Json): (r: seq<(string, Json)>)
    ensures |r| == |members|
    ensures forall i :: 0 <= i < |r| ==> r[i].0 == members[i].0
  {
    if members == [] then []
    else
      var last := members[|members| - 1];
      SetValue(members[..|members| - 1], key, value) + [if last.0 == key then (key, value) else last]
  }

  /** `d[key] = value` on the dict an object stands for: an existing key keeps its position and
      takes the new value; a new key goes at the end. */
  function Put(members: seq<(string, Json)>, key: string, value: Json): seq<(string, Json)> {
    if HasKey(members, key) then SetValue(members, key, value) else members + [(key, value)]
  }

  lemma {:induction false} SetValueMember(members: seq<(string, Json)>, key: string, value: Json, k: string)
    ensures Member(SetValue(members, key, value), k) ==
      if k == key then (if HasKey(members, key) then Some(value) else None) else Member(members, k)
  {
    if members != [] {
      var init := members[..|members| - 1];
      var r := SetValue(members, key, value);
      assert r[..|r| - 1] == SetValue(init, key, value);
      SetValueMember(init, key, value, k);
      assert forall i :: 0 <= i < |init| ==> init[i] == members[i];
      if HasKey(members, key) && members[|members| - 1].0 != key {
        var i :| 0 <= i < |members| && members[i].0 == key;
        assert init[i].0 == key;
      }
    }
  }

  /** After `d[key] = value` the key reads back as `value`, every other key reads as before, and an
      existing key keeps its place. */
  lemma PutSpec(members: seq<(string, Json)>, key: string, value: Json)
    ensures Member(Put(members, key, value), key) == Some(value)
    ensures forall k :: k != key ==> Member(Put(members, key, value), k) == Member(members, k)
    ensures HasKey(members, key) ==> |Put(members, key, value)| == |members|
    ensures HasKey(members, key) ==> forall i :: 0 <= i < |members| ==> Put(members, key, value)[i].0 == members[i].0
    ensures !HasKey(members, key) ==> Put(members, key, value) == members + [(key, value)]
  {
    forall k ensures Member(Put(members, key, value), k) == if k == key then Some(value) else Member(members, k) {
      if HasKey(members, key) {
        SetValueMember(members, key, value, k);
      } else {
        var r := members + [(key, value)];
        assert r[..|r| - 1] == members;
      }
    }
  }
}
