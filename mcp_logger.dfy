/**
 * The call logger of one agent run (`my_agent/mcp_logger.py`): every call
 * appends one JSON line to the single file `mcp_calls_<stamp>.jsonl` fixed
 * when the logger is created, and the process keeps one logger at most.
 */
module McpLogger {
  import opened Wrappers
  import opened Dict
  import opened Numbers
  import opened Values
  import opened Clock
  import opened Files
  import opened PyValues

  /**
   * `_serialize_response`: JSON-shaped values are kept, dicts and lists are
   * rebuilt entry by entry, and anything else (a tuple included) becomes its
   * `str()`; `tupleStr` is `str()` of a tuple.
   */
  function SerializeResponse(v: PyValue, tupleStr: seq<PyValue> -> string): (r: Json)
    ensures v.PDict? ==> r.JObject? && |r.fields| == |v.entries|
                         && forall k :: 0 <= k < |v.entries| ==> r.fields[k].0 == v.entries[k].0
    ensures v.PList? ==> r.JList? && |r.items| == |v.items|
    ensures v.PTuple? ==> r == JStr(tupleStr(v.elems))
    decreases v
  {
    match v
    case PNone => JNull
    case PBool(b) => JBool(b)
    case PInt(i) => JInt(i)
    case PFloat(d) => JFloat(d)
    case PStr(s) => JStr(s)
    case PDict(entries) =>
      JObject(seq(|entries|, k requires 0 <= k < |entries| =>
                    (assert entries[k].1 < entries[k]; (entries[k].0, SerializeResponse(entries[k].1, tupleStr)))))
    case PList(items) => JList(seq(|items|, k requires 0 <= k < |items| => SerializeResponse(items[k], tupleStr)))
    case PTuple(elems) => JStr(tupleStr(elems))
    case PObject(text) => JStr(text)
  }

  /** A value that is already JSON is logged as it is. */
  lemma {:induction false} SerializeResponseJson(j: Json, tupleStr: seq<PyValue> -> string)
    ensures SerializeResponse(Embed(j), tupleStr) == j
    decreases j
  {
    match j
    case JList(items) =>
      var r := SerializeResponse(Embed(j), tupleStr);
      forall k | 0 <= k < |items| ensures r.items[k] == items[k] {
        SerializeResponseJson(items[k], tupleStr);
      }
    case JObject(fields) =>
      var r := SerializeResponse(Embed(j), tupleStr);
      forall k | 0 <= k < |fields| ensures r.fields[k] == fields[k] {
        assert fields[k].1 < fields[k];
        SerializeResponseJson(fields[k].1, tupleStr);
      }
    case _ =>
  }

  /** Serialising a response a second time changes nothing. */
  lemma {:induction false} SerializeResponseIdempotent(v: PyValue, tupleStr: seq<PyValue> -> string)
    ensures var r := SerializeResponse(v, tupleStr); SerializeResponse(Embed(r), tupleStr) == r
  {
    SerializeResponseJson(SerializeResponse(v, tupleStr), tupleStr);
  }

  /** The file a logger created at `now` writes to. */
  function CallsLogPath(now: DateTime): Path
    requires ValidDateTime(now)
  {
    Path("", "mcp_calls_" + FormatStamp(now) + ".jsonl")
  }

  /** `None` or the value, as JSON. */
  function OptText(s: Option<string>): Json {
    match s
    case None => JNull
    case Some(t) => JStr(t)
  }

  function OptFloat(d: Option<Decimal>): Json {
    match d
    case None => JNull
    case Some(x) => JFloat(x)
  }

  /** The record of one call, `response` already serialised. */
  function CallEntry(now: DateTime, toolName: string, arguments: Dict<string, Json>, response: Json, success: bool,
                     error: Option<string>, durationMs: Option<Decimal>): Json
    requires ValidDateTime(now)
  {
    JObject([("timestamp", JStr(IsoFormat(now))), ("tool_name", JStr(toolName)), ("arguments", JObject(arguments)),
             ("response", response), ("success", JBool(success)), ("error", OptText(error)),
             ("duration_ms", OptFloat(durationMs))])
  }

  /** Reading a record back gives each argument of the call unchanged. */
  lemma {:induction false} CallEntryFields(now: DateTime, toolName: string, arguments: Dict<string, Json>, response: Json,
                                           success: bool, error: Option<string>, durationMs: Option<Decimal>)
    requires ValidDateTime(now)
    ensures var e := CallEntry(now, toolName, arguments, response, success, error, durationMs);
            && Subscript(e, "tool_name") == Ok(JStr(toolName))
            && Subscript(e, "arguments") == Ok(JObject(arguments))
            && Subscript(e, "response") == Ok(response)
            && Subscript(e, "success") == Ok(JBool(success))
            && Subscript(e, "error") == Ok(OptText(error))
            && Subscript(e, "duration_ms") == Ok(OptFloat(durationMs))
            && Subscript(e, "ticker") == Err(KeyError)
  {
    EntryLookups(JStr(IsoFormat(now)), JStr(toolName), JObject(arguments), response, JBool(success), OptText(error),
                 OptFloat(durationMs));
  }

  lemma {:induction false} EntryLookups(a: Json, b: Json, c: Json, d: Json, e: Json, f: Json, g: Json)
    ensures var o := JObject([("timestamp", a), ("tool_name", b), ("arguments", c), ("response", d), ("success", e),
                              ("error", f), ("duration_ms", g)]);
            && Subscript(o, "tool_name") == Ok(b) && Subscript(o, "arguments") == Ok(c)
            && Subscript(o, "response") == Ok(d) && Subscript(o, "success") == Ok(e)
            && Subscript(o, "error") == Ok(f) && Subscript(o, "duration_ms") == Ok(g)
            && Subscript(o, "ticker") == Err(KeyError)
  {
    var fields := [("timestamp", a), ("tool_name", b), ("arguments", c), ("response", d), ("success", e),
                   ("error", f), ("duration_ms", g)];
    DistinctUnique(fields);
    GetAt(fields, 1);
    GetAt(fields, 2);
    GetAt(fields, 3);
    GetAt(fields, 4);
    GetAt(fields, 5);
    GetAt(fields, 6);
    HasKeyAt(fields, "ticker");
  }

  class McpCallLogger {
    const logFile: Path

    /** The file is named after the moment the logger is created. */
    constructor (now: DateTime)
      requires ValidDateTime(now)
      ensures logFile == CallsLogPath(now)
    {
      logFile := CallsLogPath(now);
    }

    /** `log_call`: one line appended to this logger's file, and no other file touched. */
    method LogCall(store: LogStore, toolName: string, arguments: Dict<string, Json>, response: PyValue, success: bool,
                   error: Option<string>, durationMs: Option<Decimal>, now: DateTime, encode: Json -> string,
                   tupleStr: seq<PyValue> -> string)
      requires ValidDateTime(now)
      modifies store
      ensures store.files == AppendLine(old(store.files), logFile,
                                        encode(CallEntry(now, toolName, arguments, SerializeResponse(response, tupleStr),
                                                         success, error, durationMs)))
    {
      var entry := CallEntry(now, toolName, arguments, SerializeResponse(response, tupleStr), success, error, durationMs);
      store.Append(logFile, encode(entry));
    }
  }

  /** The module global `_mcp_logger`, created on first use. */
  class LoggerRegistry {
    var logger: McpCallLogger?

    constructor ()
      ensures logger == null
    {
      logger := null;
    }

    /** `get_mcp_logger()`: the logger made on the first call, the same one on every later call. */
    method GetMcpLogger(now: DateTime) returns (l: McpCallLogger)
      requires ValidDateTime(now)
      modifies this
      ensures logger == l
      ensures old(logger) != null ==> l == old(logger)
      ensures old(logger) == null ==> fresh(l) && l.logFile == CallsLogPath(now)
    {
      if logger == null {
        logger := new McpCallLogger(now);
      }
      l := logger;
    }
  }
}
