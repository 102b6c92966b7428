/** Small helper types shared by every module of the model. */
module Wrappers {
  datatype Option<+T> = None | Some(value: T)
}

/**
 * JavaScript values as they travel through the application: the JSON bodies
 * parsed by `req.json()` / `response.json()`, with `undefined` written as
 * `None` of an `Option<Json>`.
 */
module Json {
  import opened Wrappers

  /** A parsed JSON value. Numbers are integers in this model. */
  datatype Json =
    | Null
    | Bool(b: bool)
    | Num(n: int)
    | Str(s: string)
    | Arr(items: seq<Json>)
    | Obj(fields: map<string, Json>)

  /** The outcome of a `fetch` followed by `response.json()`: a parsed body, or a thrown error with its message. */
  datatype Fetched = Received(data: Json) | Threw(message: string)

  /** JavaScript truthiness of a value that may be `undefined`. */
  predicate Truthy(v: Option<Json>)
    // the falsy values are exactly undefined, null, false, 0 and ""
    ensures !Truthy(v) <==>
      v == None || v == Some(Null) || v == Some(Bool(false)) || v == Some(Num(0)) || v == Some(Str(""))
  {
    match v
    case None => false
    case Some(Null) => false
    case Some(Bool(b)) => b
    case Some(Num(n)) => n != 0
    case Some(Str(s)) => s != ""
    case Some(Arr(_)) => true
    case Some(Obj(_)) => true
  }

  /**
   * `v?.key`: `undefined` when `v` is null or undefined, the named field of an
   * object, and `undefined` for a field that is absent or asked of a value
   * that has no such property (numbers, strings, arrays, booleans).
   */
  function Member(v: Option<Json>, key: string): (r: Option<Json>)
    ensures r.Some? <==> v.Some? && v.value.Obj? && key in v.value.fields
    ensures r.Some? ==> r.value == v.value.fields[key]
  {
    match v
    case Some(Obj(m)) => if key in m then Some(m[key]) else None
    case _ => None
  }

  /**
   * `v?.[0]`: the first element of an array, the property "0" of an object,
   * the first character of a non-empty string, `undefined` otherwise.
   */
  function First(v: Option<Json>): (r: Option<Json>)
    ensures r.Some? ==> v.Some? && (v.value.Arr? || v.value.Obj? || v.value.Str?)
    ensures v.Some? && v.value.Arr? ==> r == if v.value.items == [] then None else Some(v.value.items[0])
    ensures v.Some? && v.value.Obj? ==> r == if "0" in v.value.fields then Some(v.value.fields["0"]) else None
    ensures v.Some? && v.value.Str? ==> (r.Some? <==> v.value.s != "")
    ensures v.Some? && v.value.Str? && v.value.s != "" ==> r == Some(Str([v.value.s[0]]))
  {
    match v
    case Some(Arr(xs)) => if xs == [] then None else Some(xs[0])
    case Some(Obj(m)) => if "0" in m then Some(m["0"]) else None
    case Some(Str(s)) => if s == "" then None else Some(Str([s[0]]))
    case _ => None
  }

  /** The one-field object `{ key: value }` that the handlers put in their responses. */
  function Single(key: string, value: Json): (r: Json)
    ensures r.Obj? && r.fields.Keys == {key} && r.fields[key] == value
  {
    Obj(map[key := value])
  }
}
