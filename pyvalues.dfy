/**
 * The Python objects a tool call hands to the loggers: JSON-shaped values,
 * tuples, and objects of any other type, which only have their `str()`.
 */
module PyValues {
  import opened Dict
  import opened Numbers
  import opened Values

  datatype PyValue =
    | PNone
    | PBool(b: bool)
    | PInt(i: int)
    | PFloat(d: Decimal)
    | PStr(s: string)
    | PList(items: seq<PyValue>)
    | PTuple(elems: seq<PyValue>)
    | PDict(entries: Dict<string, PyValue>)
    | PObject(text: string) // an object of another type, with its `str()`

  /** A decoded JSON value as the Python object it is. */
  function Embed(j: Json): (v: PyValue)
    decreases j
  {
    match j
    case JNull => PNone
    case JBool(b) => PBool(b)
    case JInt(i) => PInt(i)
    case JFloat(d) => PFloat(d)
    case JStr(s) => PStr(s)
    case JList(items) => PList(seq(|items|, k requires 0 <= k < |items| => Embed(items[k])))
    case JObject(fields) =>
      PDict(seq(|fields|, k requires 0 <= k < |fields| => (assert fields[k].1 < fields[k]; (fields[k].0, Embed(fields[k].1)))))
  }

  /** No tuple occurs anywhere inside `v`. */
  predicate NoTuples(v: PyValue)
    decreases v
  {
    match v
    case PTuple(_) => false
    case PList(items) => forall k :: 0 <= k < |items| ==> NoTuples(items[k])
    case PDict(entries) => forall k :: 0 <= k < |entries| ==> (assert entries[k].1 < entries[k]; NoTuples(entries[k].1))
    case _ => true
  }

  /** JSON values hold no tuples. */
  lemma {:induction false} EmbedNoTuples(j: Json)
    ensures NoTuples(Embed(j))
    decreases j
  {
    match j
    case JList(items) =>
      forall k | 0 <= k < |items| ensures NoTuples(Embed(j).items[k]) {
        EmbedNoTuples(items[k]);
      }
    case JObject(fields) =>
      forall k | 0 <= k < |fields| ensures NoTuples(Embed(j).entries[k].1) {
        assert fields[k].1 < fields[k];
        EmbedNoTuples(fields[k].1);
      }
    case _ =>
  }
}
