/**
 * JSON-like values as `json.loads` produces them, and the Python operations
 * the source applies to them without checking their type first: truth value,
 * `str()`, `==`, `in`, `v[key]`, `v[0]`, `v.get(key, default)` and
 * `json.loads(v)`, each with the exception Python raises when the operand
 * has the wrong shape.
 */
module Values {
  import opened Wrappers
  import opened Dict
  import opened Text
  import opened Numbers

  /** A decoded JSON value; an object keeps its keys in insertion order. */
  datatype Json =
    | JNull
    | JBool(b: bool)
    | JInt(i: int)
    | JFloat(d: Decimal)
    | JStr(s: string)
    | JList(items: seq<Json>)
    | JObject(fields: Dict<string, Json>)

  /** The exceptions that the modelled code paths raise or catch. */
  datatype PyError = TypeError | KeyError | IndexError | AttributeError | DecodeError

  /** A value, or the exception that was raised instead. */
  datatype Result<T> = Ok(value: T) | Err(error: PyError) {
    predicate IsFailure() {
      Err?
    }

    function PropagateFailure<U>(): Result<U>
      requires Err?
    {
      Err(error)
    }

    function Extract(): T
      requires Ok?
    {
      value
    }
  }

  /** The JSON text codec (`json.loads`): a parameter of the model, `None` for text that does not decode. */
  type Decoder = string -> Option<Json>

  /** Python's truth value of `v` (`if v:`). */
  predicate Truthy(v: Json) {
    match v
    case JNull => false
    case JBool(b) => b
    case JInt(i) => i != 0
    case JFloat(d) => Value(d) != 0.0
    case JStr(s) => s != []
    case JList(items) => items != []
    case JObject(fields) => fields != []
  }

  predicate IsScalar(v: Json) {
    !v.JList? && !v.JObject?
  }

  /** `isinstance(v, (int, float, str))`; a bool is an int in Python. */
  predicate IsNumberOrString(v: Json) {
    v.JBool? || v.JInt? || v.JFloat? || v.JStr?
  }

  predicate IsNumber(v: Json) {
    v.JBool? || v.JInt? || v.JFloat?
  }

  /** The numeric value of a bool, int or float. */
  function NumValue(v: Json): real
    requires IsNumber(v)
  {
    match v
    case JBool(b) => if b then 1.0 else 0.0
    case JInt(i) => i as real
    case JFloat(d) => Value(d)
  }

  /** `str(v)` of a scalar. */
  function ScalarStr(v: Json): string
    requires IsScalar(v)
  {
    match v
    case JNull => "None"
    case JBool(b) => if b then "True" else "False"
    case JInt(i) => IntToString(i)
    case JFloat(d) => FloatRepr(d)
    case JStr(s) => s
  }

  /** The value stored under `k`, for a key that is present. */
  function ValueAt<V>(d: Dict<string, V>, k: string): V
    requires HasKey(d, k)
  {
    match Get(d, k)
    case Some(v) => v
  }

  /** `key in v` for a string key: key membership, list membership or substring test. */
  function In(key: string, v: Json): (r: Result<bool>)
    ensures r.Err? <==> !(v.JObject? || v.JList? || v.JStr?)
    ensures v.JObject? ==> r == Ok(HasKey(v.fields, key))
  {
    match v
    case JObject(fields) => Ok(HasKey(fields, key))
    case JList(items) => Ok(JStr(key) in items)
    case JStr(s) => Ok(Contains(s, key))
    case _ => Err(TypeError)
  }

  /** `v[key]` for a string key. */
  function Subscript(v: Json, key: string): (r: Result<Json>)
    ensures r.Ok? <==> v.JObject? && HasKey(v.fields, key)
    ensures r.Ok? ==> Get(v.fields, key) == Some(r.value)
  {
    match v
    case JObject(fields) => if HasKey(fields, key) then Ok(ValueAt(fields, key)) else Err(KeyError)
    case _ => Err(TypeError)
  }

  /** `v[0]`: the first element of a list or the first character of a string. */
  function First(v: Json): (r: Result<Json>)
    ensures r.Ok? <==> (v.JList? && v.items != []) || (v.JStr? && v.s != [])
    ensures v.JList? && v.items != [] ==> r == Ok(v.items[0])
  {
    match v
    case JList(items) => if items == [] then Err(IndexError) else Ok(items[0])
    case JStr(s) => if s == [] then Err(IndexError) else Ok(JStr([s[0]]))
    case JObject(_) => Err(KeyError) // the keys of a decoded object are strings, never 0
    case _ => Err(TypeError)
  }

  /** `v.get(key, default)`: only a dict has the method. */
  function GetOr(v: Json, key: string, default: Json): (r: Result<Json>)
    ensures r.Ok? <==> v.JObject?
    ensures v.JObject? && !HasKey(v.fields, key) ==> r == Ok(default)
    ensures v.JObject? && HasKey(v.fields, key) ==> r == Ok(ValueAt(v.fields, key))
  {
    match v
    case JObject(fields) => Ok(if HasKey(fields, key) then ValueAt(fields, key) else default)
    case _ => Err(AttributeError)
  }

  /** `json.loads(v)`: a string is decoded, anything else raises TypeError. */
  function Loads(decode: Decoder, v: Json): (r: Result<Json>)
    ensures r.Err? && r.error == TypeError <==> !v.JStr?
    ensures v.JStr? && decode(v.s).Some? ==> r == Ok(decode(v.s).value)
    ensures v.JStr? && decode(v.s).None? ==> r == Err(DecodeError)
  {
    if !v.JStr? then Err(TypeError)
    else match decode(v.s)
      case Some(j) => Ok(j)
      case None => Err(DecodeError)
  }

  // ---------------------------------------------------------------------------
  // Python's `==` on decoded values: numbers by value across bool, int and
  // float; lists element by element; dicts by key set and values, in any order.
  // ---------------------------------------------------------------------------

  predicate PyEq(a: Json, b: Json)
    decreases a
  {
    if IsNumber(a) || IsNumber(b) then IsNumber(a) && IsNumber(b) && NumValue(a) == NumValue(b)
    else match a
      case JNull => b.JNull?
      case JStr(x) => b.JStr? && x == b.s
      case JList(x) => b.JList? && ListEq(x, b.items)
      case JObject(x) => b.JObject? && |x| == |b.fields| && FieldsIn(x, b.fields)
  }

  predicate ListEq(x: seq<Json>, y: seq<Json>)
    decreases x
  {
    |x| == |y| && (x == [] || (PyEq(x[0], y[0]) && ListEq(x[1..], y[1..])))
  }

  /** Every entry of `x` has its key in `y`, with an equal value there. */
  predicate FieldsIn(x: Dict<string, Json>, y: Dict<string, Json>)
    decreases x
  {
    x == [] || (assert x[0].1 < x[0]; HasKey(y, x[0].0) && PyEq(x[0].1, ValueAt(y, x[0].0)) && FieldsIn(x[1..], y))
  }

  /** `==` is reflexive on decoded values (objects from `json.loads` have distinct keys). */
  lemma {:induction false} PyEqReflexive(a: Json)
    requires UniqueKeysDeep(a)
    ensures PyEq(a, a)
    decreases a
  {
    match a
    case JList(x) => ListEqReflexive(x);
    case JObject(x) =>
      forall i | 0 <= i < |x| ensures Get(x, x[i].0) == Some(x[i].1) {
        GetAt(x, i);
      }
      FieldsInReflexive(x, x);
    case _ =>
  }

  lemma {:induction false} ListEqReflexive(x: seq<Json>)
    requires forall i :: 0 <= i < |x| ==> UniqueKeysDeep(x[i])
    ensures ListEq(x, x)
    decreases x
  {
    if x != [] {
      PyEqReflexive(x[0]);
      ListEqReflexive(x[1..]);
    }
  }

  /** Each entry of a suffix `x` of the distinct-key dict `y` is found in `y` with its own value. */
  lemma {:induction false} FieldsInReflexive(x: Dict<string, Json>, y: Dict<string, Json>)
    requires forall i :: 0 <= i < |x| ==> UniqueKeysDeep(x[i].1) && Get(y, x[i].0) == Some(x[i].1)
    ensures FieldsIn(x, y)
    decreases x
  {
    if x != [] {
      assert x[0].1 < x[0];
      PyEqReflexive(x[0].1);
      FieldsInReflexive(x[1..], y);
    }
  }

  /** No object anywhere inside `v` repeats a key: what every value from `json.loads` satisfies. */
  predicate UniqueKeysDeep(v: Json)
    decreases v
  {
    match v
    case JList(items) => forall i :: 0 <= i < |items| ==> UniqueKeysDeep(items[i])
    case JObject(fields) =>
      UniqueKeys(fields) && forall i :: 0 <= i < |fields| ==> (assert fields[i].1 < fields[i]; UniqueKeysDeep(fields[i].1))
    case _ => true
  }
}
