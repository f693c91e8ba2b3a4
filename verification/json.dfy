/** Parsed JSON values, as `JSON.parse` hands them to the storage loaders,
    and the few JavaScript operations the loaders apply to them. */
module Json {
  import opened Wrappers
  import Text

  datatype Json =
    | JNull
    | JBool(b: bool)
    | JNum(n: real)
    | JStr(s: string)
    | JArr(items: seq<Json>)
    | JObj(fields: seq<(string, Json)>)

  const EmptyArray: Json := JArr([])

  /** `obj[key]` on an object: the last binding wins, as with `JSON.parse`
      on duplicate keys. */
  function Field(fields: seq<(string, Json)>, key: string): Option<Json> {
    if fields == [] then None
    else if fields[|fields| - 1].0 == key then Some(fields[|fields| - 1].1)
    else Field(fields[..|fields| - 1], key)
  }

  /** `key in obj` for an object parsed from JSON. */
  predicate HasField(fields: seq<(string, Json)>, key: string) {
    Field(fields, key).Some?
  }

  lemma HasFieldIff(fields: seq<(string, Json)>, key: string)
    ensures HasField(fields, key) <==> exists i :: 0 <= i < |fields| && fields[i].0 == key
  {
    if fields != [] && fields[|fields| - 1].0 != key {
      var init := fields[..|fields| - 1];
      HasFieldIff(init, key);
      if exists i :: 0 <= i < |fields| && fields[i].0 == key {
        var i :| 0 <= i < |fields| && fields[i].0 == key;
        assert init[i].0 == key;
      }
    }
  }

  /** JavaScript truthiness of a JSON value. */
  predicate Truthy(j: Json) {
    match j
    case JNull => false
    case JBool(b) => b
    case JNum(x) => x != 0.0
    case JStr(s) => s != ""
    case JArr(_) => true
    case JObj(_) => true
  }

  /** Truthiness of a property read that may be `undefined`. */
  predicate TruthyField(v: Option<Json>) {
    v.Some? && Truthy(v.value)
  }

  /** `Number(String(x)) > 0` for an element `x` of a one-element array:
      `null` joins as "", booleans and objects read as NaN, and a nested
      array joins its own elements. */
  predicate ElementPositive(x: Json) {
    match x
    case JNull => false
    case JBool(_) => false
    case JNum(n) => n > 0.0
    case JStr(t) => Text.ToNumber(t).Int? && Text.ToNumber(t).v > 0
    case JArr(items) => |items| == 1 && ElementPositive(items[0])
    case JObj(_) => false
  }

  /** `v > 0` for a property read `v` (`None` is `undefined`), with
      JavaScript's conversion of the value to a number. An array of two or
      more elements joins with "," and reads as NaN. */
  predicate PositiveNumber(v: Option<Json>) {
    match v
    case None => false
    case Some(JNull) => false
    case Some(JBool(b)) => b
    case Some(JNum(n)) => n > 0.0
    case Some(JStr(t)) => Text.ToNumber(t).Int? && Text.ToNumber(t).v > 0
    case Some(JArr(items)) => |items| == 1 && ElementPositive(items[0])
    case Some(JObj(_)) => false
  }

  /** `j.length > 0` for a value read by property access: arrays and
      strings compare their size, an object its `length` property, and a
      number or boolean has no `length`. On `null` the read throws; that
      is taken as false, the callers treating both the same. */
  predicate LengthPositive(j: Json) {
    match j
    case JArr(items) => |items| > 0
    case JStr(t) => t != []
    case JObj(fields) => PositiveNumber(Field(fields, "length"))
    case _ => false
  }

  /** `j[0]`: the first element of an array, the first character of a
      string, an object's `"0"` property; `None` is `undefined`. */
  function Index0(j: Json): (r: Option<Json>)
    ensures j.JArr? ==> (r.Some? <==> |j.items| > 0)
    ensures r.Some? && j.JArr? ==> r.value == j.items[0]
    ensures r.Some? && r.value.JObj? ==> j.JArr? || j.JObj?
  {
    match j
    case JArr(items) => if items == [] then None else Some(items[0])
    case JStr(t) => if t == [] then None else Some(JStr([t[0]]))
    case JObj(fields) => Field(fields, "0")
    case _ => None
  }
}
