/**
 Python-level values that the buyer views handle: the JSON-shaped data that the
 data API returns, Python's truthiness rule on it, the built-in `all`, and the
 two exceptions the views can raise on malformed records.
 */
module PyValues {

  datatype Option<+T> = None | Some(value: T)

  datatype Result<+R, +E> = Success(value: R) | Failure(error: E)

  /**
   What a JSON object holds under a key: nothing (the key is absent), JSON
   null (Python's None), or a value of the expected shape.
   */
  datatype Entry<+T> = Absent | Null | Present(value: T)

  /** A decoded JSON value (floating-point numbers are not modelled). */
  datatype Json =
    | JNull
    | JBool(b: bool)
    | JInt(n: int)
    | JStr(s: string)
    | JList(items: seq<Json>)
    | JObject(members: map<string, Json>)

  /** A JSON object as a Python dict. */
  type Dict = map<string, Json>

  /**
   The exceptions a view raises on a malformed record, each labelled with the
   key concerned: the key is absent (KeyError), its string does not parse
   (ValueError), or its value has the wrong type, such as None where a
   string, a list or a dict is used (TypeError).
   */
  datatype PyError = KeyError(key: string) | ValueError(key: string) | TypeError(key: string)

  /** Python's `bool(v)`: None, False, 0 and empty containers are falsy, everything else truthy. */
  predicate Truthy(v: Json)
  {
    match v
    case JNull => false
    case JBool(b) => b
    case JInt(n) => n != 0
    case JStr(s) => s != ""
    case JList(items) => items != []
    case JObject(members) => members != map[]
  }

  /** Python's built-in `all` over a list: true iff every element is truthy, so true of the empty list. */
  function All(items: seq<Json>): (r: bool)
    ensures r <==> forall i :: 0 <= i < |items| ==> Truthy(items[i])
  {
    if items == [] then true else Truthy(items[0]) && All(items[1..])
  }

  /** The six falsy JSON values. */
  const FalsyValues: set<Json> := {JNull, JBool(false), JInt(0), JStr(""), JList([]), JObject(map[])}

  /** A value is truthy exactly when it is none of the six falsy values. */
  lemma TruthyIffNotFalsy(v: Json)
    ensures Truthy(v) <==> v !in FalsyValues
  {
    match v
    case JList(items) => assert items == [] <==> v == JList([]);
    case JObject(members) => assert members == map[] <==> v == JObject(map[]);
    case _ =>
  }

  /** Python's `x and y`: `x` itself when it is falsy, otherwise `y`. */
  function And(x: Json, y: Json): (r: Json)
    ensures Truthy(r) <==> Truthy(x) && Truthy(y)
    ensures !Truthy(x) ==> r == x
  {
    if Truthy(x) then y else x
  }

  /** Python's `x or y`: `x` itself when it is truthy, otherwise `y`. */
  function Or(x: Json, y: Json): (r: Json)
    ensures Truthy(r) <==> Truthy(x) || Truthy(y)
    ensures Truthy(x) ==> r == x
  {
    if Truthy(x) then x else y
  }

  /**
   Python's `v[key]` on a decoded JSON value: the member of a dict, a
   KeyError when the dict lacks the key, and a TypeError on anything that is
   not a dict (None, a list, a string or a number).
   */
  function Subscript(v: Json, key: string): (r: Result<Json, PyError>)
    ensures r.Success? <==> v.JObject? && key in v.members
    ensures r.Success? ==> r.value == v.members[key]
    ensures r.Failure? ==> r.error == if v.JObject? then KeyError(key) else TypeError(key)
  {
    match v
    case JObject(members) => if key in members then Success(members[key]) else Failure(KeyError(key))
    case _ => Failure(TypeError(key))
  }
}
