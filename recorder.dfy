/**
 * The tool-call recorder (`my_agent/mcp_toolset_wrapper.py`): every call of
 * an MCP tool runs through `LoggedRun`, which remembers the last ticker seen,
 * hands the tool its arguments without the injected `ticker`, and appends one
 * JSON line per call to a file named after the tool, the ticker and the
 * moment.  Tool declarations gain an optional `ticker` parameter.
 */
module Recorder {
  import opened Wrappers
  import opened Dict
  import opened Text
  import opened Numbers
  import opened Values
  import opened Clock
  import opened Files
  import opened PyValues
  import McpLogger
  import PromptVerifier

  // ---------------------------------------------------------------------------
  // McpCallLogger.log_call: which ticker, which file, which record.
  // ---------------------------------------------------------------------------

  /** `arguments.get('ticker', arguments.get('symbol'))`: a present `ticker` wins even when it is empty. */
  function TickerOrSymbol(args: Dict<string, Json>): Json {
    if HasKey(args, "ticker") then ValueAt(args, "ticker")
    else if HasKey(args, "symbol") then ValueAt(args, "symbol")
    else JNull
  }

  /** The first word of a non-blank string `query`, if there is one. */
  function QueryWord(args: Dict<string, Json>): Option<string> {
    if HasKey(args, "query") && ValueAt(args, "query").JStr? && Strip(ValueAt(args, "query").s) != [] then
      Some(FirstWord(ValueAt(args, "query").s))
    else None
  }

  /**
   * The ticker a call is logged under: a truthy `ticker` (or, without a
   * `ticker`, a truthy `symbol`), else the first word of the query, else
   * "unknown".
   */
  function ResolveTicker(args: Dict<string, Json>): (t: Json)
    ensures Truthy(t)
    ensures Truthy(TickerOrSymbol(args)) ==> t == TickerOrSymbol(args)
    ensures !Truthy(TickerOrSymbol(args)) && QueryWord(args).Some? ==> t == JStr(QueryWord(args).value)
    ensures !Truthy(TickerOrSymbol(args)) && QueryWord(args).None? ==> t == JStr("unknown")
  {
    var first := TickerOrSymbol(args);
    var t := if !Truthy(first) && QueryWord(args).Some? then JStr(QueryWord(args).value) else first;
    if Truthy(t) then t else JStr("unknown")
  }

  /** The tool name with both kinds of path separator replaced by `_`. */
  function SafeToolName(toolName: string): (r: string)
    ensures |r| == |toolName| && '/' !in r && '\\' !in r
    ensures forall k :: 0 <= k < |r| && toolName[k] != '/' && toolName[k] != '\\' ==> r[k] == toolName[k]
  {
    ReplaceChar(ReplaceChar(toolName, '/', '_'), '\\', '_')
  }

  /**
   * The file of one call: `{ticker}/{tool}_{stamp}.jsonl`, or the root file
   * `mcp_unknown_{tool}_{stamp}.jsonl` when no ticker is known.
   */
  function LogPath(ticker: string, toolName: string, now: DateTime): Path
    requires ValidDateTime(now)
  {
    var safe := SafeToolName(toolName);
    if ticker == "unknown" then Path("", "mcp_unknown_" + safe + "_" + FormatStamp(now) + ".jsonl")
    else Path(ticker, safe + "_" + FormatStamp(now) + ".jsonl")
  }

  /** `_serialize`: like the call logger's, except that a tuple becomes a list. */
  function Serialize(v: PyValue): (r: Json)
    ensures v.PDict? ==> r.JObject? && |r.fields| == |v.entries|
                         && forall k :: 0 <= k < |v.entries| ==> r.fields[k].0 == v.entries[k].0
    ensures v.PList? ==> r.JList? && |r.items| == |v.items|
    ensures v.PTuple? ==> r.JList? && |r.items| == |v.elems|
    decreases v
  {
    match v
    case PNone => JNull
    case PBool(b) => JBool(b)
    case PInt(i) => JInt(i)
    case PFloat(d) => JFloat(d)
    case PStr(s) => JStr(s)
    case PDict(entries) =>
      JObject(seq(|entries|, k requires 0 <= k < |entries| =>
                    (assert entries[k].1 < entries[k]; (entries[k].0, Serialize(entries[k].1)))))
    case PList(items) => JList(seq(|items|, k requires 0 <= k < |items| => Serialize(items[k])))
    case PTuple(elems) => JList(seq(|elems|, k requires 0 <= k < |elems| => Serialize(elems[k])))
    case PObject(text) => JStr(text)
  }

  /** A value that is already JSON is logged as it is. */
  lemma {:induction false} SerializeJson(j: Json)
    ensures Serialize(Embed(j)) == j
    decreases j
  {
    match j
    case JList(items) =>
      var r := Serialize(Embed(j));
      forall k | 0 <= k < |items| ensures r.items[k] == items[k] {
        SerializeJson(items[k]);
      }
    case JObject(fields) =>
      var r := Serialize(Embed(j));
      forall k | 0 <= k < |fields| ensures r.fields[k] == fields[k] {
        assert fields[k].1 < fields[k];
        SerializeJson(fields[k].1);
      }
    case _ =>
  }

  /** A tuple is logged as the list of its elements. */
  lemma {:induction false} SerializeTuple(elems: seq<PyValue>)
    ensures Serialize(PTuple(elems)) == Serialize(PList(elems))
  {
  }

  /** Without tuples the two loggers serialise a response alike. */
  lemma {:induction false} SerializersAgree(v: PyValue, tupleStr: seq<PyValue> -> string)
    requires NoTuples(v)
    ensures Serialize(v) == McpLogger.SerializeResponse(v, tupleStr)
    decreases v
  {
    match v
    case PList(items) =>
      forall k | 0 <= k < |items| ensures Serialize(v).items[k] == McpLogger.SerializeResponse(v, tupleStr).items[k] {
        SerializersAgree(items[k], tupleStr);
      }
    case PDict(entries) =>
      forall k | 0 <= k < |entries| ensures Serialize(v).fields[k] == McpLogger.SerializeResponse(v, tupleStr).fields[k] {
        assert entries[k].1 < entries[k];
        SerializersAgree(entries[k].1, tupleStr);
      }
    case _ =>
  }

  /** The record of one call, `response` already serialised. */
  function LogEntry(now: DateTime, toolName: string, ticker: Json, arguments: Dict<string, Json>, response: Json,
                    success: bool, error: Option<string>, durationMs: Option<Decimal>): Json
    requires ValidDateTime(now)
  {
    JObject([("timestamp", JStr(IsoFormat(now))), ("tool_name", JStr(toolName)), ("ticker", ticker),
             ("arguments", JObject(arguments)), ("response", response), ("success", JBool(success)),
             ("error", McpLogger.OptText(error)), ("duration_ms", McpLogger.OptFloat(durationMs))])
  }

  /**
   * `log_call`: the record goes to the file of the resolved ticker.  A ticker
   * that is not a string cannot name a directory: the call raises TypeError
   * and nothing is written.
   */
  method LogCall(store: LogStore, toolName: string, arguments: Dict<string, Json>, response: PyValue, success: bool,
                 error: Option<string>, durationMs: Option<Decimal>, now: DateTime, encode: Json -> string)
    returns (r: Result<()>)
    requires ValidDateTime(now)
    modifies store
    ensures var t := ResolveTicker(arguments);
            && (r.Ok? <==> t.JStr?)
            && (t.JStr? ==> store.files == AppendLine(old(store.files), LogPath(t.s, toolName, now),
                                                      encode(LogEntry(now, toolName, t, arguments, Serialize(response),
                                                                      success, error, durationMs))))
            && (!t.JStr? ==> store.files == old(store.files) && r == Err(TypeError))
  {
    var ticker := ResolveTicker(arguments);
    if !ticker.JStr? {
      return Err(TypeError);
    }
    var entry := LogEntry(now, toolName, ticker, arguments, Serialize(response), success, error, durationMs);
    store.Append(LogPath(ticker.s, toolName, now), encode(entry));
    r := Ok(());
  }

  /**
   * A call recorded for a plain ticker is among the recent logs the verifier
   * reads for that ticker, as long as its stamp is after the cut-off.
   */
  lemma {:induction false} RecordedCallListed(fs: FileSystem, ticker: string, toolName: string, now: DateTime, line: string,
                                              cutoff: int)
    requires ValidDateTime(now) && now.year >= 1000
    requires ticker != "unknown" && ticker != "" && '/' !in ticker
    requires cutoff < Micros(Truncated(now))
    ensures var p := LogPath(ticker, toolName, now);
            p in PromptVerifier.RecentLogs(AppendLine(fs, p, line), ticker, cutoff)
  {
    var p := LogPath(ticker, toolName, now);
    var a, d, t := SafeToolName(toolName), DateDigits(now), TimeDigits(now);
    var stem := a + "_" + d + "_" + t;
    assert p.dir == ticker;
    StemRegroup(a, d, t);
    StampShape(now);
    PromptVerifier.StampedName(a, d, t);
    StampRoundTrip(now);
    assert (stem + ".jsonl")[|stem|..] == ".jsonl";
    PromptVerifier.FreshTickerFileKept(AppendLine(fs, p, line), ticker, cutoff, p, Truncated(now));
  }

  lemma {:induction false} StemRegroup(a: string, d: string, t: string)
    ensures a + "_" + (d + "_" + t) + ".jsonl" == (a + "_" + d + "_" + t) + ".jsonl"
  {
    assert a + "_" + (d + "_" + t) == a + "_" + d + "_" + t;
  }

  // ---------------------------------------------------------------------------
  // logged_run_async: the last-seen-ticker cursor and the two argument copies.
  // ---------------------------------------------------------------------------

  /** The cursor after a call with `args`: the stripped ticker (or symbol) when it is a non-blank string. */
  function NextCursor(cursor: string, args: Dict<string, Json>): (c: string)
    ensures cursor != "" ==> c != ""
  {
    match TickerOrSymbol(args)
    case JStr(s) => if Strip(s) != [] then Strip(s) else cursor
    case _ => cursor
  }

  /** The arguments that are logged: a copy with `ticker` set to the resolved ticker. */
  function LoggedArgs(args: Dict<string, Json>, ticker: string): Dict<string, Json> {
    Put(args, "ticker", JStr(ticker))
  }

  /** The arguments the tool receives: a copy without the injected `ticker`. */
  function ExecutionArgs(args: Dict<string, Json>): Dict<string, Json> {
    Remove(args, "ticker")
  }

  /** The logged arguments, read by `log_call`, resolve to exactly the cursor. */
  lemma {:induction false} LoggedArgsTicker(args: Dict<string, Json>, ticker: string)
    requires ticker != ""
    ensures ResolveTicker(LoggedArgs(args, ticker)) == JStr(ticker)
  {
    var la := LoggedArgs(args, ticker);
    assert ValueAt(la, "ticker") == JStr(ticker);
  }

  /** The two copies differ from the caller's arguments in `ticker` alone. */
  lemma {:induction false} ArgumentCopies(args: Dict<string, Json>, ticker: string)
    ensures Get(LoggedArgs(args, ticker), "ticker") == Some(JStr(ticker))
    ensures !HasKey(ExecutionArgs(args), "ticker")
    ensures forall k :: k != "ticker" ==> Get(LoggedArgs(args, ticker), k) == Get(args, k) == Get(ExecutionArgs(args), k)
    ensures UniqueKeys(args) ==> UniqueKeys(LoggedArgs(args, ticker)) && UniqueKeys(ExecutionArgs(args))
  {
  }

  /** After a call that names a ticker, a call that names none (a URL fetch, say) is logged under that ticker. */
  lemma {:induction false} CursorCarriesOver(cursor: string, first: Dict<string, Json>, second: Dict<string, Json>, s: string)
    requires TickerOrSymbol(first) == JStr(s) && Strip(s) != []
    requires !TickerOrSymbol(second).JStr?
    ensures var c := NextCursor(NextCursor(cursor, first), second);
            c == Strip(s) && ResolveTicker(LoggedArgs(second, c)) == JStr(Strip(s))
  {
    LoggedArgsTicker(second, Strip(s));
  }

  /** What the original tool call did: returned a result, or raised an exception with this `str()`. */
  datatype Outcome = Returned(result: PyValue) | Raised(message: string)

  function OutcomeResponse(o: Outcome): Json {
    match o
    case Returned(result) => Serialize(result)
    case Raised(_) => JNull
  }

  function OutcomeError(o: Outcome): Option<string> {
    match o
    case Returned(_) => None
    case Raised(message) => Some(message)
  }

  /** The patched tool: the module global `_LAST_SEEN_TICKER` is its field. */
  class ToolRecorder {
    var lastSeenTicker: string

    /** The cursor is never blank. */
    predicate Valid()
      reads this
    {
      lastSeenTicker != ""
    }

    constructor ()
      ensures Valid() && lastSeenTicker == "unknown"
    {
      lastSeenTicker := "unknown";
    }

    /**
     * `logged_run_async`: `run` is the original tool, called with the
     * execution arguments; its outcome is logged under the cursor and passed
     * on unchanged (a raised exception is raised again).
     */
    method LoggedRun(store: LogStore, toolName: string, args: Dict<string, Json>, run: Dict<string, Json> -> Outcome,
                     durationMs: Decimal, now: DateTime, encode: Json -> string)
      returns (o: Outcome)
      requires Valid() && ValidDateTime(now)
      modifies this, store
      ensures Valid() && lastSeenTicker == NextCursor(old(lastSeenTicker), args)
      ensures o == run(ExecutionArgs(args))
      ensures store.files == AppendLine(old(store.files), LogPath(lastSeenTicker, toolName, now),
                                        encode(LogEntry(now, toolName, JStr(lastSeenTicker), LoggedArgs(args, lastSeenTicker),
                                                        OutcomeResponse(o), o.Returned?, OutcomeError(o), Some(durationMs))))
    {
      var current := TickerOrSymbol(args);
      if current.JStr? && Strip(current.s) != [] {
        lastSeenTicker := Strip(current.s);
      }
      assert lastSeenTicker == NextCursor(old(lastSeenTicker), args);
      var ticker := lastSeenTicker;
      var logArgs := LoggedArgs(args, ticker);
      var executionArgs := ExecutionArgs(args);
      o := run(executionArgs);
      LoggedArgsTicker(args, ticker);
      var response := if o.Returned? then o.result else PNone;
      assert Serialize(response) == OutcomeResponse(o);
      var entry := LogEntry(now, toolName, JStr(ticker), logArgs, OutcomeResponse(o), o.Returned?, OutcomeError(o), Some(durationMs));
      var logged := LogCall(store, toolName, logArgs, response, o.Returned?, OutcomeError(o), Some(durationMs), now, encode);
      assert store.files == AppendLine(old(store.files), LogPath(ticker, toolName, now), encode(entry));
    }
  }

  // ---------------------------------------------------------------------------
  // patched_get_declaration: the optional `ticker` parameter.
  // ---------------------------------------------------------------------------

  const TickerProperty: Json := JObject([("type", JStr("string")),
    ("description", JStr("The stock ticker symbol associated with this operation (e.g., AAPL). ALWAYS provide this if known, for context tracking."))])

  /** `schema['parameters']['properties']['ticker'] = ...` after its two guards, or the exception raised. */
  function Inject(schema: Json): Result<Json> {
    var hasParameters :- In("parameters", schema);
    if !hasParameters then Ok(schema)
    else
      var parameters :- Subscript(schema, "parameters");
      var hasProperties :- In("properties", parameters);
      if !hasProperties then Ok(schema)
      else
        var properties :- Subscript(parameters, "properties");
        if !properties.JObject? then Err(TypeError)
        else
          var properties' := Put(properties.fields, "ticker", TickerProperty);
          var parameters' := Put(parameters.fields, "properties", JObject(properties'));
          Ok(JObject(Put(schema.fields, "parameters", JObject(parameters'))))
  }

  /** The declaration the patched tool reports: an exception on the way leaves it as it was. */
  function PatchedDeclaration(schema: Json): Json {
    match Inject(schema)
    case Ok(s) => s
    case Err(_) => schema
  }

  /** The schema has a dict `parameters` holding a dict `properties`. */
  predicate HasProperties(schema: Json) {
    && schema.JObject? && HasKey(schema.fields, "parameters")
    && var parameters := ValueAt(schema.fields, "parameters");
    && parameters.JObject? && HasKey(parameters.fields, "properties")
    && ValueAt(parameters.fields, "properties").JObject?
  }

  function Parameters(schema: Json): Dict<string, Json>
    requires HasProperties(schema)
  {
    ValueAt(schema.fields, "parameters").fields
  }

  function Properties(schema: Json): Dict<string, Json>
    requires HasProperties(schema)
  {
    ValueAt(Parameters(schema), "properties").fields
  }

  /** Without a dict `parameters.properties` the declaration is left as it is. */
  lemma {:induction false} DeclarationWithoutProperties(schema: Json)
    requires !HasProperties(schema)
    ensures PatchedDeclaration(schema) == schema
  {
  }

  /**
   * With one, `ticker` is added to (or overwritten in) the properties; all
   * other properties, `required` and every other key of the declaration are
   * untouched, so the parameter stays optional.
   */
  lemma {:induction false} DeclarationGainsTicker(schema: Json)
    requires HasProperties(schema)
    ensures var s := PatchedDeclaration(schema);
            && HasProperties(s)
            && Get(Properties(s), "ticker") == Some(TickerProperty)
            && (forall k :: k != "ticker" ==> Get(Properties(s), k) == Get(Properties(schema), k))
            && (forall k :: k != "properties" ==> Get(Parameters(s), k) == Get(Parameters(schema), k))
            && Get(Parameters(s), "required") == Get(Parameters(schema), "required")
            && (forall k :: k != "parameters" ==> Get(s.fields, k) == Get(schema.fields, k))
  {
  }

  /** Asking for the declaration again does not add anything more. */
  lemma {:induction false} DeclarationIdempotent(schema: Json)
    ensures PatchedDeclaration(PatchedDeclaration(schema)) == PatchedDeclaration(schema)
  {
    if HasProperties(schema) {
      var s := PatchedDeclaration(schema);
      DeclarationGainsTicker(schema);
      var props := ValueAt(Parameters(s), "properties");
      PutSame(props.fields, "ticker", TickerProperty);
      PutSame(Parameters(s), "properties", props);
      PutSame(s.fields, "parameters", ValueAt(s.fields, "parameters"));
    } else {
      DeclarationWithoutProperties(schema);
    }
  }
}
