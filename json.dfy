/** A parsed JSON document (a jansson `json_t` tree) and the jansson
    accessors the lookups use on it, plus the one way the program moves a
    JSON string into a record: `strncpy` into a fixed-size field, guarded by
    `json_is_string`. */
module Json {
  import opened CStrings

  datatype Option<+T> = None | Some(value: T)

  /** A JSON value. `JInt` is a number without fraction or exponent (jansson
      refuses one that does not fit a 64-bit `json_int_t`); `JReal` is any
      other number, whose value the program never reads. Object members are
      kept in insertion order, the order `json_object_foreach` visits them;
      `json_loads` gives every object distinct keys (see DistinctKeys), but
      the datatype does not demand it, and `Find` takes the first match.
      String values are the UTF-8 bytes. */
  datatype Json =
    | JNull
    | JBool(b: bool)
    | JInt(i: int)
    | JReal
    | JString(s: seq<byte>)
    | JArray(items: seq<Json>)
    | JObject(members: seq<(string, Json)>)

  /** The value stored under `key` in a member list. */
  function Find(members: seq<(string, Json)>, key: string): (r: Option<Json>)
    ensures r.None? <==> forall i :: 0 <= i < |members| ==> members[i].0 != key
    ensures r.Some? ==> (key, r.value) in members
  {
    if members == [] then None
    else if members[0].0 == key then Some(members[0].1)
    else Find(members[1..], key)
  }

  /** No key occurs twice in a member list: what `json_loads` builds, a
      repeated key in the text replacing the earlier value. */
  predicate DistinctKeys(members: seq<(string, Json)>)
  {
    forall i, j :: 0 <= i < j < |members| ==> members[i].0 != members[j].0
  }

  /** With distinct keys, the lookup finds the one member stored under
      `key`, wherever it sits in the list. */
  lemma {:induction false} FindDistinct(members: seq<(string, Json)>, key: string, v: Json)
    requires DistinctKeys(members) && (key, v) in members
    ensures Find(members, key) == Some(v)
  {
    if members[0] != (key, v) {
      var j :| 0 <= j < |members| && members[j] == (key, v);
      assert members[0].0 != members[j].0;
      assert (key, v) in members[1..] by {
        assert members[1..][j - 1] == members[j];
      }
      FindDistinct(members[1..], key, v);
    }
  }

  /** `json_object_get(j, key)`: the member `key` of an object; absent (NULL)
      for a missing key and for any value that is not an object. */
  function Get(j: Json, key: string): (r: Option<Json>)
    ensures r.Some? <==> j.JObject? && exists i :: 0 <= i < |j.members| && j.members[i].0 == key
    ensures r.Some? ==> (key, r.value) in j.members
  {
    if j.JObject? then Find(j.members, key) else None
  }

  /** `json_array_get(j, i)`: element `i` of an array; absent (NULL) past
      the end and for any value that is not an array. */
  function At(j: Json, i: nat): (r: Option<Json>)
    ensures r.Some? <==> j.JArray? && i < |j.items|
    ensures r.Some? ==> r.value == j.items[i]
  {
    if j.JArray? && i < |j.items| then Some(j.items[i]) else None
  }

  /** Both members of a two-member object can be read back. */
  lemma GetOfPair(k1: string, v1: Json, k2: string, v2: Json)
    requires k1 != k2
    ensures Get(JObject([(k1, v1), (k2, v2)]), k1) == Some(v1)
    ensures Get(JObject([(k1, v1), (k2, v2)]), k2) == Some(v2)
  {
    var members := [(k1, v1), (k2, v2)];
    assert members[0].0 != k2 && members[1..] == [(k2, v2)];
    assert Find([(k2, v2)], k2) == Some(v2);
  }

  /** `json_is_string(v)` for a value that may be absent. */
  predicate IsString(v: Option<Json>)
  {
    v.Some? && v.value.JString?
  }

  /** A tolerant descent through nested objects: one `json_object_get` per
      key of `path`, absent as soon as a level is missing or is not an
      object. */
  function Walk(j: Json, path: seq<string>): Option<Json>
  {
    if path == [] then Some(j)
    else match Get(j, path[0])
      case None => None
      case Some(child) => Walk(child, path[1..])
  }

  /** Walking a path in two legs is walking it in one. */
  lemma {:induction false} WalkAppend(j: Json, p: seq<string>, q: seq<string>)
    ensures Walk(j, p + q) == match Walk(j, p) case None => None case Some(m) => Walk(m, q)
  {
    if p != [] {
      assert (p + q)[0] == p[0] && (p + q)[1..] == p[1..] + q;
      match Get(j, p[0])
      case None =>
      case Some(child) => WalkAppend(child, p[1..], q);
    } else {
      assert p + q == q;
    }
  }

  /** A walk that reaches something below the top passed only through
      objects, each holding the next key. */
  lemma {:induction false} WalkThroughObjects(j: Json, path: seq<string>)
    requires |path| > 0 && Walk(j, path).Some?
    ensures j.JObject? && Get(j, path[0]).Some?
    ensures |path| > 1 ==> Get(j, path[0]).value.JObject?
  {
    if |path| > 1 {
      WalkThroughObjects(Get(j, path[0]).value, path[1..]);
    }
  }

  /** A `char[|field|]` record field after
      `if (json_is_string(v)) strncpy(field, json_string_value(v), sizeof(field) - 1);` */
  function CopyIfString(field: seq<byte>, v: Option<Json>): seq<byte>
    requires |field| > 0
  {
    if IsString(v) then StrNCpy(field, v.value.s, |field| - 1) else field
  }

  /** The C string a `char[size]` field holds after that copy, when it held
      `prior` before. */
  function FieldAfter(prior: seq<byte>, v: Option<Json>, size: nat): (r: seq<byte>)
    requires size > 0
    ensures |prior| < size ==> |r| < size
    ensures IsString(v) ==> r <= CStr(v.value.s) && |r| < size
    ensures !IsString(v) ==> r == prior
  {
    if IsString(v) then Truncate(CStr(v.value.s), size - 1) else prior
  }

  /** The copy overwrites the field's C string exactly when `v` is a string,
      and keeps the field terminated. */
  lemma CopyIfStringReadsBack(field: seq<byte>, v: Option<Json>)
    requires |field| > 0 && field[|field| - 1] == NUL
    ensures CopyIfString(field, v)[|field| - 1] == NUL
    ensures CStr(CopyIfString(field, v)) == FieldAfter(CStr(field), v, |field|)
  {
    if IsString(v) {
      StrNCpyReadsBack(field, v.value.s, |field| - 1);
    }
  }

  /** A short string without NUL bytes is copied verbatim: nothing is cut. */
  lemma FieldAfterShortString(prior: seq<byte>, s: seq<byte>, size: nat)
    requires size > 0 && NUL !in s && |s| < size
    ensures FieldAfter(prior, Some(JString(s)), size) == s
  {
    CStrOfNulFree(s);
  }

  /** `if (json_is_string(v)) strncpy(field, json_string_value(v), sizeof(field) - 1);` */
  method CopyStringField(field: array<byte>, v: Option<Json>)
    requires field.Length > 0 && field[field.Length - 1] == NUL
    modifies field
    ensures field[field.Length - 1] == NUL
    ensures CStr(field[..]) == FieldAfter(old(CStr(field[..])), v, field.Length)
  {
    CopyIfStringReadsBack(field[..], v);
    if IsString(v) {
      StrNCpyInto(field, v.value.s, field.Length - 1);
    }
  }
}
