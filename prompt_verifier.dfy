/**
 * The data verifier behind `validate_key_message`: it picks the recent MCP
 * call logs of a ticker, harvests every number and string the tool responses
 * contain, and checks that each number written in a drafted message has a
 * source among them.  Each run is recorded in the ticker's log directory.
 *
 * Reading the clock happens once per operation: `now` is a parameter.
 * Decoding JSON text is the parameter `decode`, encoding a record `encode`.
 */
module PromptVerifier {
  import opened Wrappers
  import opened Dict
  import opened Text
  import opened Numbers
  import opened Values
  import opened Clock
  import opened Files
  import opened Flatten
  import opened NumScan

  // ---------------------------------------------------------------------------
  // get_recent_logs: the `.jsonl` files of the ticker's directory and of the
  // root whose name carries a stamp later than the cut-off, sorted by path.
  // ---------------------------------------------------------------------------

  /**
   * The stamp a log file name carries at its end: `YYYYMMDD_HHMMSS` in its
   * last two `_`-separated parts, or `YYYYMMDDHHMMSS` in its last one.
   * `None` when there is none or it is not a real date and time.
   * `str.isdigit()` also accepts characters that are digits but not decimal
   * (superscripts, circled digits); strptime's `\d` refuses them, so a stem
   * with one is skipped there just as `AllDigits` skips it here.
   */
  function NameStamp(name: string): (r: Option<DateTime>)
    ensures r.Some? ==> ValidDateTime(r.value)
  {
    var parts := Split(Stem(name), '_');
    if |parts| < 2 then None
    else
      var last, prev := parts[|parts| - 1], parts[|parts| - 2];
      if |last| == 6 && |prev| == 8 && AllDigits(last) && AllDigits(prev) then
        assert AllDigits(prev + last) by {
          assert forall i :: 0 <= i < |prev + last| ==> (prev + last)[i] == if i < 8 then prev[i] else last[i - 8];
        }
        ParseStamp(prev + last)
      else if |last| == 14 && AllDigits(last) then ParseStamp(last)
      else None
  }

  /** The cut-off `now - timedelta(minutes=minutes)`, in microseconds on the `Micros` scale. */
  function Cutoff(now: DateTime, minutes: int): int
    requires ValidDateTime(now)
  {
    Micros(now) - minutes * 60 * 1000000
  }

  /** Whether a listed file is kept: a stamp after the cut-off, and it lies in a directory named `ticker` or in the root with `ticker` in its name. */
  predicate Relevant(p: Path, ticker: string, cutoff: int) {
    match NameStamp(p.name)
    case None => false
    case Some(t) => Micros(t) > cutoff && (ParentName(p) == ticker || (p.dir == "" && Contains(p.name, ticker)))
  }

  /** The ticker directory's `*.jsonl` files followed by the root's (a root-level ticker lists the root twice). */
  function Candidates(fs: FileSystem, ticker: string): seq<Path> {
    Glob(fs, ticker, "", ".jsonl") + Glob(fs, "", "", ".jsonl")
  }

  /** The relevant elements of `ps`, in order. */
  function RelevantOf(ps: seq<Path>, ticker: string, cutoff: int): (r: seq<Path>)
    ensures forall p :: p in r <==> p in ps && Relevant(p, ticker, cutoff)
  {
    if ps == [] then []
    else
      var init := ps[..|ps| - 1];
      var last := ps[|ps| - 1];
      assert forall p :: p in ps <==> p in init || p == last by {
        assert ps == init + [last];
      }
      RelevantOf(init, ticker, cutoff) + (if Relevant(last, ticker, cutoff) then [last] else [])
  }

  /** The list `get_recent_logs` returns: each relevant candidate once, ascending by path. */
  function RecentLogs(fs: FileSystem, ticker: string, cutoff: int): (r: seq<Path>)
    ensures StrictlySorted(r)
    ensures forall p :: p in r <==> p in Candidates(fs, ticker) && Relevant(p, ticker, cutoff)
  {
    SortedSet(RelevantOf(Candidates(fs, ticker), ticker, cutoff))
  }

  method GetRecentLogs(fs: FileSystem, ticker: string, now: DateTime, minutes: int) returns (logs: seq<Path>)
    requires ValidDateTime(now)
    ensures logs == RecentLogs(fs, ticker, Cutoff(now, minutes))
  {
    var cutoff := Cutoff(now, minutes);
    var candidates := Glob(fs, ticker, "", ".jsonl");
    candidates := candidates + Glob(fs, "", "", ".jsonl");
    var relevant: seq<Path> := [];
    var i := 0;
    while i < |candidates|
      invariant i <= |candidates|
      invariant relevant == RelevantOf(candidates[..i], ticker, cutoff)
    {
      var p := candidates[i];
      RelevantOfStep(candidates, i, ticker, cutoff);
      var stamp := NameStamp(p.name);
      if stamp.Some? && Micros(stamp.value) > cutoff {
        if ParentName(p) == ticker {
          relevant := relevant + [p];
        } else if p.dir == "" {
          if Contains(p.name, ticker) {
            relevant := relevant + [p];
          }
        }
      }
      i := i + 1;
    }
    assert candidates[..i] == candidates;
    logs := SortedSet(relevant);
  }

  lemma {:induction false} RelevantOfStep(ps: seq<Path>, i: nat, ticker: string, cutoff: int)
    requires i < |ps|
    ensures RelevantOf(ps[..i + 1], ticker, cutoff)
         == RelevantOf(ps[..i], ticker, cutoff) + (if Relevant(ps[i], ticker, cutoff) then [ps[i]] else [])
  {
    assert ps[..i + 1][..i] == ps[..i];
    assert ps[..i + 1][i] == ps[i];
  }

  /** The search looks only in the ticker's directory and in the root. */
  lemma {:induction false} OnlyTickerAndRoot(fs: FileSystem, ticker: string, cutoff: int, p: Path)
    requires p in RecentLogs(fs, ticker, cutoff)
    ensures p.dir == ticker || p.dir == ""
    ensures HasKey(fs, p) && EndsWith(p.name, ".jsonl")
  {
    assert p in Candidates(fs, ticker);
  }

  /** A file of a plain ticker's own directory is returned as soon as its stamp is after the cut-off. */
  lemma {:induction false} FreshTickerFileKept(fs: FileSystem, ticker: string, cutoff: int, p: Path, t: DateTime)
    requires ticker != "" && '/' !in ticker
    requires HasKey(fs, p) && p.dir == ticker && EndsWith(p.name, ".jsonl")
    requires NameStamp(p.name) == Some(t) && Micros(t) > cutoff
    ensures p in RecentLogs(fs, ticker, cutoff)
  {
    SplitNoSep(ticker, '/');
    assert ParentName(p) == ticker;
    assert p in Glob(fs, ticker, "", ".jsonl");
  }

  /** A root file is returned only when the ticker occurs in its name (the root is not a ticker directory). */
  lemma {:induction false} RootFileNeedsTicker(fs: FileSystem, ticker: string, cutoff: int, p: Path)
    requires ticker != LogDirName
    requires p in RecentLogs(fs, ticker, cutoff) && p.dir == ""
    ensures Contains(p.name, ticker)
  {
  }

  // ---------------------------------------------------------------------------
  // analyze_step2_logs: count the web-search and URL-fetch calls.
  // ---------------------------------------------------------------------------

  const WebKeywords: seq<string> := ["web__search", "web_search", "search_web"]
  const FetchKeywords: seq<string> := ["url__fetch", "url_fetch", "fetch_webpage", "fetch_url", "web_fetch_page", "web_fetch"]

  /** `any(k in s for k in keywords)`. */
  function AnyIn(s: string, keywords: seq<string>): (r: bool)
    ensures r <==> exists k :: k in keywords && Contains(s, k)
  {
    if keywords == [] then false
    else
      assert forall k :: k in keywords <==> k == keywords[0] || k in keywords[1..] by {
        assert keywords == [keywords[0]] + keywords[1..];
      }
      Contains(s, keywords[0]) || AnyIn(s, keywords[1..])
  }

  /** `_matches_tool(name, keywords)`: `.lower()` on a value that is not a string raises. */
  function MatchesTool(name: Json, keywords: seq<string>): (r: Result<bool>)
    ensures !Truthy(name) ==> r == Ok(false)
    ensures Truthy(name) && !name.JStr? ==> r == Err(AttributeError)
    ensures Truthy(name) && name.JStr? ==> r == Ok(exists k :: k in keywords && Contains(Lower(name.s), k))
  {
    if !Truthy(name) then Ok(false)
    else if name.JStr? then Ok(AnyIn(Lower(name.s), keywords))
    else Err(AttributeError)
  }

  /** Running totals of matching calls. */
  datatype Tally = Tally(web: nat, fetch: nat)

  /** `json.loads(line)` of a log line. */
  function DecodeLine(decode: Decoder, line: string): (r: Result<Json>)
    ensures r.Ok? <==> decode(line).Some?
    ensures r.Ok? ==> r.value == decode(line).value
  {
    match decode(line)
    case Some(j) => Ok(j)
    case None => Err(DecodeError)
  }

  /** One line of a log file counted; an exception abandons the rest of that file. */
  function CountLine(t: Tally, line: string, decode: Decoder): Result<Tally> {
    var entry :- DecodeLine(decode, line);
    var name :- GetOr(entry, "tool_name", JStr(""));
    var web :- MatchesTool(name, WebKeywords);
    var fetch :- MatchesTool(name, FetchKeywords);
    Ok(Tally(t.web + (if web then 1 else 0), t.fetch + (if fetch then 1 else 0)))
  }

  /** The totals after reading a file's lines up to the first one that raises. */
  function CountFile(t: Tally, lines: seq<string>, decode: Decoder): Tally
    decreases |lines|
  {
    if lines == [] then t
    else match CountLine(t, lines[0], decode)
      case Err(_) => t
      case Ok(t') => CountFile(t', lines[1..], decode)
  }

  function CountLogs(t: Tally, fs: FileSystem, logs: seq<Path>, decode: Decoder): Tally
    decreases |logs|
  {
    if logs == [] then t
    else CountLogs(CountFile(t, Lines(fs, logs[0]), decode), fs, logs[1..], decode)
  }

  function Names(ps: seq<Path>): (r: seq<string>)
    ensures |r| == |ps| && forall i :: 0 <= i < |ps| ==> r[i] == ps[i].name
  {
    seq(|ps|, i requires 0 <= i < |ps| => ps[i].name)
  }

  /** The dict `analyze_step2_logs` returns. */
  datatype Step2 = Step2(webSearchCount: nat, urlFetchCount: nat, valid: bool, missing: seq<string>, logsInspected: seq<string>)

  /** What `analyze_step2_logs(ticker)` finds in the logs of the last 90 minutes; every run of it is valid. */
  function Step2Spec(fs: FileSystem, ticker: string, now: DateTime, decode: Decoder): Step2
    requires ValidDateTime(now)
  {
    var logs := RecentLogs(fs, ticker, Cutoff(now, 90));
    var t := CountLogs(Tally(0, 0), fs, logs, decode);
    Step2(t.web, t.fetch, true, [], Names(logs))
  }

  method AnalyzeStep2Logs(fs: FileSystem, ticker: string, now: DateTime, decode: Decoder) returns (r: Step2)
    requires ValidDateTime(now)
    ensures r == Step2Spec(fs, ticker, now, decode)
  {
    var logs := GetRecentLogs(fs, ticker, now, 90);
    var web, fetch := 0, 0;
    var inspected: seq<string> := [];
    var j := 0;
    while j < |logs|
      invariant j <= |logs|
      invariant inspected == Names(logs[..j])
      invariant CountLogs(Tally(web, fetch), fs, logs[j..], decode) == CountLogs(Tally(0, 0), fs, logs, decode)
    {
      inspected := inspected + [logs[j].name];
      var t := CountLogFile(Tally(web, fetch), Lines(fs, logs[j]), decode);
      web, fetch := t.web, t.fetch;
      assert logs[j..][1..] == logs[j + 1..];
      assert logs[..j + 1] == logs[..j] + [logs[j]];
      j := j + 1;
    }
    assert logs[..j] == logs;
    r := Step2(web, fetch, true, [], if inspected != [] then inspected else Names(logs));
  }

  /** The lines of one log read in turn; the first one that raises ends the file. */
  method CountLogFile(t0: Tally, lines: seq<string>, decode: Decoder) returns (t: Tally)
    ensures t == CountFile(t0, lines, decode)
  {
    t := t0;
    var i := 0;
    while i < |lines|
      invariant i <= |lines|
      invariant CountFile(t, lines[i..], decode) == CountFile(t0, lines, decode)
    {
      var step := CountLine(t, lines[i], decode);
      if step.Err? {
        return;
      }
      assert lines[i..][1..] == lines[i + 1..];
      t := step.value;
      i := i + 1;
    }
  }

  /** A line that does not decode ends the reading of its file: nothing after it is counted. */
  lemma {:induction false} UndecodableLineStops(t: Tally, lines: seq<string>, i: nat, decode: Decoder)
    requires i < |lines| && decode(lines[i]).None?
    ensures CountFile(t, lines, decode) == CountFile(t, lines[..i], decode)
    decreases i
  {
    if i == 0 {
      assert lines[..0] == [];
    } else {
      assert lines[..i][0] == lines[0] && lines[..i][1..] == lines[1..][..i - 1];
      match CountLine(t, lines[0], decode)
      case Err(_) =>
      case Ok(t') => UndecodableLineStops(t', lines[1..], i - 1, decode);
    }
  }

  /** Counting never goes down, and adds at most one per line and kind. */
  lemma {:induction false} CountFileBounds(t: Tally, lines: seq<string>, decode: Decoder)
    ensures t.web <= CountFile(t, lines, decode).web <= t.web + |lines|
    ensures t.fetch <= CountFile(t, lines, decode).fetch <= t.fetch + |lines|
    decreases |lines|
  {
    if lines != [] {
      match CountLine(t, lines[0], decode)
      case Err(_) =>
      case Ok(t') => CountFileBounds(t', lines[1..], decode);
    }
  }

  /** A call whose tool name is "web_search" is counted as a web search and not as a fetch. */
  lemma {:induction false} WebSearchCounted(t: Tally, line: string, decode: Decoder, fields: Dict<string, Json>)
    requires decode(line) == Some(JObject(fields))
    requires Get(fields, "tool_name") == Some(JStr("web_search"))
    ensures CountLine(t, line, decode) == Ok(Tally(t.web + 1, t.fetch))
  {
    WebSearchName();
    assert GetOr(JObject(fields), "tool_name", JStr("")) == Ok(JStr("web_search"));
    NamedLineCounted(t, line, decode, JObject(fields), "web_search");
  }

  /** A decoded line whose tool name is a non-empty string is counted by the keywords that name holds. */
  lemma {:induction false} NamedLineCounted(t: Tally, line: string, decode: Decoder, entry: Json, name: string)
    requires decode(line) == Some(entry) && name != []
    requires GetOr(entry, "tool_name", JStr("")) == Ok(JStr(name))
    ensures CountLine(t, line, decode)
         == Ok(Tally(t.web + (if AnyIn(Lower(name), WebKeywords) then 1 else 0),
                     t.fetch + (if AnyIn(Lower(name), FetchKeywords) then 1 else 0)))
  {
    assert DecodeLine(decode, line) == Ok(entry);
    assert Truthy(JStr(name));
    assert MatchesTool(JStr(name), WebKeywords) == Ok(AnyIn(Lower(name), WebKeywords));
    assert MatchesTool(JStr(name), FetchKeywords) == Ok(AnyIn(Lower(name), FetchKeywords));
  }

  lemma {:induction false} WebSearchName()
    ensures AnyIn(Lower("web_search"), WebKeywords)
    ensures !AnyIn(Lower("web_search"), FetchKeywords)
  {
    var w := "web_search";
    assert Lower(w) == w;
    assert OccursAt(w, "web_search", 0);
    assert 'f' !in w;
    forall k | k in FetchKeywords ensures !Contains(w, k) {
      assert 'f' in k;
      LetterMissing(w, 'f', k);
    }
  }

  // ---------------------------------------------------------------------------
  // extract_data_for_prompt: every number and string leaf of the responses
  // logged in the last hour, and for the text of each the file and path it
  // was last seen at.
  // ---------------------------------------------------------------------------

  /** `json.loads(v)`, or `v` itself when that raises (the source catches every exception there). */
  function LoadsOr(decode: Decoder, v: Json): (r: Json)
    ensures v.JStr? && decode(v.s).Some? ==> r == decode(v.s).value
    ensures !(v.JStr? && decode(v.s).Some?) ==> r == v
  {
    match Loads(decode, v)
    case Ok(j) => j
    case Err(_) => v
  }

  /** The response itself, when it is a dict or a list. */
  function Whole(response: Json): Option<Json> {
    if response.JObject? || response.JList? then Some(response) else None
  }

  /**
   * `content_data` of a logged response: the `result` of `structuredContent`,
   * or else the `text` of the first item of a `content` list, or else the
   * response itself when it is a dict or a list; `None` when there is none.
   * `Err` is an exception, which abandons the rest of the file.
   */
  function Payload(response: Json, decode: Decoder): Result<Option<Json>> {
    var structured :- In("structuredContent", response);
    if structured then
      var sc :- Subscript(response, "structuredContent");
      var res :- GetOr(sc, "result", JStr(""));
      Ok(Some(if res.JStr? then LoadsOr(decode, res) else res))
    else
      // `in` succeeded above, so it succeeds on the same response here
      if In("content", response) == Ok(true) then
        var c :- Subscript(response, "content");
        if c.JList? then
          if |c.items| > 0 then
            var text :- GetOr(c.items[0], "text", JStr(""));
            Ok(Some(LoadsOr(decode, text)))
          else Ok(None)
        else Ok(Whole(response))
      else Ok(Whole(response))
  }

  /** `structuredContent` is looked at before `content`. */
  lemma {:induction false} StructuredContentFirst(fields: Dict<string, Json>, result: string, j: Json, decode: Decoder)
    requires Get(fields, "structuredContent") == Some(JObject([("result", JStr(result))]))
    requires decode(result) == Some(j)
    ensures Payload(JObject(fields), decode) == Ok(Some(j))
  {
  }

  /** An empty `content` list yields nothing: the response itself is not used in its place. */
  lemma {:induction false} EmptyContentYieldsNothing(fields: Dict<string, Json>, decode: Decoder)
    requires !HasKey(fields, "structuredContent")
    requires Get(fields, "content") == Some(JList([]))
    ensures Payload(JObject(fields), decode) == Ok(None)
  {
  }

  /** A record whose response is `null` raises (`in` on None), which abandons its file. */
  lemma {:induction false} NullResponseRaises(decode: Decoder)
    ensures Payload(JNull, decode) == Err(TypeError)
  {
  }

  /** What has been harvested so far: `extracted` and `source_map`. */
  datatype Harvest = Harvest(extracted: Dict<string, Json>, sourceMap: Dict<string, string>)

  /**
   * The loop over `flat.items()`: each number or string leaf is recorded under
   * its path, and its text `str(v)` as coming from `file:path`.
   */
  function IndexLeaves(h: Harvest, file: string, flat: Dict<string, Json>): (r: Harvest)
    ensures forall key :: HasKey(h.sourceMap, key) ==> HasKey(r.sourceMap, key)
    ensures forall key :: HasKey(h.extracted, key) ==> HasKey(r.extracted, key)
    ensures forall i :: 0 <= i < |flat| && IsNumberOrString(flat[i].1) ==>
      HasKey(r.sourceMap, ScalarStr(flat[i].1)) && HasKey(r.extracted, flat[i].0)
    decreases |flat|
  {
    if flat == [] then h
    else
      var k := flat[0].0;
      var v := flat[0].1;
      var h' := if IsNumberOrString(v) then Harvest(Put(h.extracted, k, v), Put(h.sourceMap, ScalarStr(v), file + ":" + k)) else h;
      var r := IndexLeaves(h', file, flat[1..]);
      assert forall i :: 1 <= i < |flat| ==> flat[i] == flat[1..][i - 1];
      r
  }

  /** The text of a leaf is attributed to the last leaf with that text. */
  lemma {:induction false} LastLeafAttributed(h: Harvest, file: string, flat: Dict<string, Json>, i: nat)
    requires i < |flat| && IsNumberOrString(flat[i].1)
    requires forall j :: i < j < |flat| && IsNumberOrString(flat[j].1) ==> ScalarStr(flat[j].1) != ScalarStr(flat[i].1)
    ensures Get(IndexLeaves(h, file, flat).sourceMap, ScalarStr(flat[i].1)) == Some(file + ":" + flat[i].0)
    decreases i
  {
    var k := flat[0].0;
    var v := flat[0].1;
    var h' := if IsNumberOrString(v) then Harvest(Put(h.extracted, k, v), Put(h.sourceMap, ScalarStr(v), file + ":" + k)) else h;
    if i == 0 {
      UntouchedAfter(h', file, flat[1..], ScalarStr(v));
    } else {
      assert flat[1..][i - 1] == flat[i];
      forall j | i - 1 < j < |flat[1..]| && IsNumberOrString(flat[1..][j].1)
        ensures ScalarStr(flat[1..][j].1) != ScalarStr(flat[i].1)
      {
        assert flat[1..][j] == flat[j + 1];
      }
      LastLeafAttributed(h', file, flat[1..], i - 1);
    }
  }

  /** A text no leaf of `flat` has keeps its source. */
  lemma {:induction false} UntouchedAfter(h: Harvest, file: string, flat: Dict<string, Json>, key: string)
    requires forall j :: 0 <= j < |flat| && IsNumberOrString(flat[j].1) ==> ScalarStr(flat[j].1) != key
    ensures Get(IndexLeaves(h, file, flat).sourceMap, key) == Get(h.sourceMap, key)
    decreases |flat|
  {
    if flat != [] {
      var k := flat[0].0;
      var v := flat[0].1;
      var h' := if IsNumberOrString(v) then Harvest(Put(h.extracted, k, v), Put(h.sourceMap, ScalarStr(v), file + ":" + k)) else h;
      forall j | 0 <= j < |flat[1..]| && IsNumberOrString(flat[1..][j].1) ensures ScalarStr(flat[1..][j].1) != key {
        assert flat[1..][j] == flat[j + 1];
      }
      UntouchedAfter(h', file, flat[1..], key);
    }
  }

  /**
   * The `if content_data:` block: a string payload is decoded a second time
   * and indexed, or kept whole under `file:raw_text` when it does not decode;
   * any other truthy payload is flattened and indexed.
   */
  function Absorb(h: Harvest, file: string, payload: Option<Json>, decode: Decoder): (r: Harvest)
    ensures payload.None? || !Truthy(payload.value) ==> r == h
    ensures payload.Some? && payload.value.JStr? && payload.value.s != [] && decode(payload.value.s).None? ==>
      r.sourceMap == h.sourceMap && Get(r.extracted, file + ":raw_text") == Some(payload.value)
  {
    if payload.None? || !Truthy(payload.value) then h
    else if payload.value.JStr? then
      match decode(payload.value.s)
      case Some(j) => IndexLeaves(h, file, Flattened(j, ""))
      case None => h.(extracted := Put(h.extracted, file + ":raw_text", payload.value))
    else IndexLeaves(h, file, Flattened(payload.value, ""))
  }

  /** One log line: decode it, take its `response` and its payload, and absorb that. */
  function HarvestLine(h: Harvest, file: string, line: string, decode: Decoder): Result<Harvest> {
    var entry :- DecodeLine(decode, line);
    var response :- GetOr(entry, "response", JObject([]));
    var payload :- Payload(response, decode);
    Ok(Absorb(h, file, payload, decode))
  }

  /** A file's lines up to the first one that raises; what was harvested before that stays. */
  function HarvestFile(h: Harvest, file: string, lines: seq<string>, decode: Decoder): Harvest
    decreases |lines|
  {
    if lines == [] then h
    else match HarvestLine(h, file, lines[0], decode)
      case Err(_) => h
      case Ok(h') => HarvestFile(h', file, lines[1..], decode)
  }

  function HarvestLogs(h: Harvest, fs: FileSystem, logs: seq<Path>, decode: Decoder): Harvest
    decreases |logs|
  {
    if logs == [] then h
    else HarvestLogs(HarvestFile(h, logs[0].name, Lines(fs, logs[0]), decode), fs, logs[1..], decode)
  }

  /** The dict `extract_data_for_prompt` returns. */
  datatype Extraction = Extraction(ticker: string, extractedData: Dict<string, Json>, sourceMap: Dict<string, string>,
                                   logsUsed: seq<string>, suspiciousAlerts: seq<string>)

  /** What `extract_data_for_prompt(ticker)` gathers from the logs of the last hour; it raises no alerts. */
  function ExtractSpec(fs: FileSystem, ticker: string, now: DateTime, decode: Decoder): (r: Extraction)
    requires ValidDateTime(now)
    ensures r.suspiciousAlerts == []
    ensures r.logsUsed == Names(RecentLogs(fs, ticker, Cutoff(now, 60)))
  {
    var logs := RecentLogs(fs, ticker, Cutoff(now, 60));
    var h := HarvestLogs(Harvest([], []), fs, logs, decode);
    Extraction(ticker, h.extracted, h.sourceMap, Names(logs), [])
  }

  method ExtractDataForPrompt(fs: FileSystem, ticker: string, now: DateTime, decode: Decoder) returns (r: Extraction)
    requires ValidDateTime(now)
    ensures r == ExtractSpec(fs, ticker, now, decode)
  {
    var logs := GetRecentLogs(fs, ticker, now, 60);
    var h := Harvest([], []);
    var j := 0;
    while j < |logs|
      invariant j <= |logs|
      invariant HarvestLogs(h, fs, logs[j..], decode) == HarvestLogs(Harvest([], []), fs, logs, decode)
    {
      h := HarvestLogFile(h, logs[j].name, Lines(fs, logs[j]), decode);
      assert logs[j..][1..] == logs[j + 1..];
      j := j + 1;
    }
    r := Extraction(ticker, h.extracted, h.sourceMap, Names(logs), []);
  }

  /** The lines of one log harvested in turn; the first one that raises ends the file. */
  method HarvestLogFile(h0: Harvest, file: string, lines: seq<string>, decode: Decoder) returns (h: Harvest)
    ensures h == HarvestFile(h0, file, lines, decode)
  {
    h := h0;
    var i := 0;
    while i < |lines|
      invariant i <= |lines|
      invariant HarvestFile(h, file, lines[i..], decode) == HarvestFile(h0, file, lines, decode)
    {
      var entry := DecodeLine(decode, lines[i]);
      if entry.Err? {
        return;
      }
      var response := GetOr(entry.value, "response", JObject([]));
      if response.Err? {
        return;
      }
      var payload := Payload(response.value, decode);
      if payload.Err? {
        return;
      }
      h := AbsorbPayload(h, file, payload.value, decode);
      assert lines[i..][1..] == lines[i + 1..];
      i := i + 1;
    }
  }

  /** The `if content_data:` block on the harvest so far. */
  method AbsorbPayload(h0: Harvest, file: string, content: Option<Json>, decode: Decoder) returns (h: Harvest)
    ensures h == Absorb(h0, file, content, decode)
  {
    h := h0;
    if content.Some? && Truthy(content.value) {
      if content.value.JStr? {
        var again := decode(content.value.s);
        if again.Some? {
          var flat := FlattenJson(again.value, "");
          h := IndexFlat(h, file, flat);
        } else {
          h := h.(extracted := Put(h.extracted, file + ":raw_text", content.value));
        }
      } else {
        var flat := FlattenJson(content.value, "");
        h := IndexFlat(h, file, flat);
      }
    }
  }

  /** The loop over `flat.items()`. */
  method IndexFlat(h0: Harvest, file: string, flat: Dict<string, Json>) returns (h: Harvest)
    ensures h == IndexLeaves(h0, file, flat)
  {
    var extracted, sourceMap := h0.extracted, h0.sourceMap;
    var k := 0;
    while k < |flat|
      invariant k <= |flat|
      invariant IndexLeaves(Harvest(extracted, sourceMap), file, flat[k..]) == IndexLeaves(h0, file, flat)
    {
      var key := flat[k].0;
      var v := flat[k].1;
      if IsNumberOrString(v) {
        extracted := Put(extracted, key, v);
        sourceMap := Put(sourceMap, ScalarStr(v), file + ":" + key);
      }
      assert flat[k..][1..] == flat[k + 1..];
      k := k + 1;
    }
    assert flat[k..] == [];
    h := Harvest(extracted, sourceMap);
  }

  /** Every source recorded names one of the files read: `file:path`. */
  ghost predicate SourcesFrom(sourceMap: Dict<string, string>, names: seq<string>) {
    forall key :: HasKey(sourceMap, key) ==> exists n :: n in names && StartsWith(ValueAt(sourceMap, key), n + ":")
  }

  lemma {:induction false} IndexLeavesSources(h: Harvest, file: string, flat: Dict<string, Json>, names: seq<string>)
    requires SourcesFrom(h.sourceMap, names) && file in names
    ensures SourcesFrom(IndexLeaves(h, file, flat).sourceMap, names)
    decreases |flat|
  {
    if flat != [] {
      var k := flat[0].0;
      var v := flat[0].1;
      if IsNumberOrString(v) {
        var sm := Put(h.sourceMap, ScalarStr(v), file + ":" + k);
        assert StartsWith(file + ":" + k, file + ":");
        forall key | HasKey(sm, key) ensures exists n :: n in names && StartsWith(ValueAt(sm, key), n + ":") {
          if key == ScalarStr(v) {
            assert ValueAt(sm, key) == file + ":" + k;
          } else {
            assert ValueAt(sm, key) == ValueAt(h.sourceMap, key);
          }
        }
        IndexLeavesSources(Harvest(Put(h.extracted, k, v), sm), file, flat[1..], names);
      } else {
        IndexLeavesSources(h, file, flat[1..], names);
      }
    }
  }

  lemma {:induction false} HarvestFileSources(h: Harvest, file: string, lines: seq<string>, decode: Decoder, names: seq<string>)
    requires SourcesFrom(h.sourceMap, names) && file in names
    ensures SourcesFrom(HarvestFile(h, file, lines, decode).sourceMap, names)
    decreases |lines|
  {
    if lines != [] {
      match HarvestLine(h, file, lines[0], decode)
      case Err(_) =>
      case Ok(h') =>
        var entry := DecodeLine(decode, lines[0]).value;
        var response := GetOr(entry, "response", JObject([])).value;
        var payload := Payload(response, decode).value;
        assert h' == Absorb(h, file, payload, decode);
        if payload.Some? && Truthy(payload.value) {
          if payload.value.JStr? {
            match decode(payload.value.s)
            case Some(j) => IndexLeavesSources(h, file, Flattened(j, ""), names);
            case None =>
          } else {
            IndexLeavesSources(h, file, Flattened(payload.value, ""), names);
          }
        }
        HarvestFileSources(h', file, lines[1..], decode, names);
    }
  }

  lemma {:induction false} HarvestLogsSources(h: Harvest, fs: FileSystem, logs: seq<Path>, decode: Decoder, names: seq<string>)
    requires SourcesFrom(h.sourceMap, names)
    requires forall p :: p in logs ==> p.name in names
    ensures SourcesFrom(HarvestLogs(h, fs, logs, decode).sourceMap, names)
    decreases |logs|
  {
    if logs != [] {
      HarvestFileSources(h, logs[0].name, Lines(fs, logs[0]), decode, names);
      assert forall p :: p in logs[1..] ==> p in logs;
      HarvestLogsSources(HarvestFile(h, logs[0].name, Lines(fs, logs[0]), decode), fs, logs[1..], decode, names);
    }
  }

  /** Every entry of `source_map` points into one of the logs used. */
  lemma {:induction false} SourcesNameUsedLogs(fs: FileSystem, ticker: string, now: DateTime, decode: Decoder)
    requires ValidDateTime(now)
    ensures var r := ExtractSpec(fs, ticker, now, decode); SourcesFrom(r.sourceMap, r.logsUsed)
  {
    var logs := RecentLogs(fs, ticker, Cutoff(now, 60));
    forall p | p in logs ensures p.name in Names(logs) {
      var i :| 0 <= i < |logs| && logs[i] == p;
      assert Names(logs)[i] == p.name;
    }
    HarvestLogsSources(Harvest([], []), fs, logs, decode, Names(logs));
  }

  // ---------------------------------------------------------------------------
  // verify_prompt_data: each number of the message against the float values
  // of the harvested texts, then the verdict and its audit record.
  // ---------------------------------------------------------------------------

  /** `str(v).replace(',', '').replace('%', '').replace('$', '')`. */
  function CleanValue(s: string): string {
    RemoveChar(RemoveChar(RemoveChar(s, ','), '%'), '$')
  }

  /** Whether a harvested text reads as the float `x` once cleaned. */
  predicate ReadsAs(s: string, x: real) {
    ParseFloat(CleanValue(s)).Some? && Value(ParseFloat(CleanValue(s)).value) == x
  }

  /** `float_sources` after the loop over `sm` starting from `acc`. */
  function FloatSources(acc: Dict<real, string>, sm: Dict<string, string>): (r: Dict<real, string>)
    ensures UniqueKeys(acc) ==> UniqueKeys(r)
    decreases |sm|
  {
    if sm == [] then acc
    else
      var parsed := ParseFloat(CleanValue(sm[0].0));
      FloatSources(if parsed.Some? then Put(acc, Value(parsed.value), sm[0].1) else acc, sm[1..])
  }

  method BuildFloatSources(sm: Dict<string, string>) returns (fsrc: Dict<real, string>)
    ensures fsrc == FloatSources([], sm)
  {
    fsrc := [];
    var i := 0;
    while i < |sm|
      invariant i <= |sm|
      invariant FloatSources(fsrc, sm[i..]) == FloatSources([], sm)
    {
      var clean := CleanValue(sm[i].0);
      var f := ParseFloat(clean);
      if f.Some? {
        fsrc := Put(fsrc, Value(f.value), sm[i].1);
      }
      assert sm[i..][1..] == sm[i + 1..];
      i := i + 1;
    }
  }

  /** A value is a key of `float_sources` exactly when some harvested text reads as it. */
  lemma {:induction false} FloatSourcesKeys(acc: Dict<real, string>, sm: Dict<string, string>, x: real)
    ensures HasKey(FloatSources(acc, sm), x) <==> HasKey(acc, x) || exists i :: 0 <= i < |sm| && ReadsAs(sm[i].0, x)
    decreases |sm|
  {
    if sm != [] {
      var parsed := ParseFloat(CleanValue(sm[0].0));
      var acc' := if parsed.Some? then Put(acc, Value(parsed.value), sm[0].1) else acc;
      FloatSourcesKeys(acc', sm[1..], x);
      assert forall i :: 1 <= i < |sm| ==> sm[i] == sm[1..][i - 1];
      assert (exists i :: 0 <= i < |sm[1..]| && ReadsAs(sm[1..][i].0, x)) ==> exists i :: 0 <= i < |sm| && ReadsAs(sm[i].0, x) by {
        if exists i :: 0 <= i < |sm[1..]| && ReadsAs(sm[1..][i].0, x) {
          var i :| 0 <= i < |sm[1..]| && ReadsAs(sm[1..][i].0, x);
          assert ReadsAs(sm[i + 1].0, x);
        }
      }
    }
  }

  /** Of the texts that read as the same value, the last one gives its source. */
  lemma {:induction false} FloatSourceIsLast(acc: Dict<real, string>, sm: Dict<string, string>, i: nat, x: real)
    requires i < |sm| && ReadsAs(sm[i].0, x)
    requires forall j :: i < j < |sm| ==> !ReadsAs(sm[j].0, x)
    ensures Get(FloatSources(acc, sm), x) == Some(sm[i].1)
    decreases i
  {
    var parsed := ParseFloat(CleanValue(sm[0].0));
    var acc' := if parsed.Some? then Put(acc, Value(parsed.value), sm[0].1) else acc;
    assert FloatSources(acc, sm) == FloatSources(acc', sm[1..]);
    if i == 0 {
      assert parsed.Some? && Value(parsed.value) == x;
      assert Get(acc', x) == Some(sm[0].1);
      LaterTextsOther(sm, 0, x);
      FloatSourceKept(acc', sm[1..], x);
    } else {
      assert sm[1..][i - 1] == sm[i];
      LaterTextsOther(sm, i, x);
      FloatSourceIsLast(acc', sm[1..], i - 1, x);
    }
  }

  lemma {:induction false} LaterTextsOther(sm: Dict<string, string>, i: nat, x: real)
    requires i < |sm|
    requires forall j :: i < j < |sm| ==> !ReadsAs(sm[j].0, x)
    ensures forall j :: i - 1 < j < |sm[1..]| ==> !ReadsAs(sm[1..][j].0, x)
  {
    forall j | i - 1 < j < |sm[1..]| ensures !ReadsAs(sm[1..][j].0, x) {
      assert sm[1..][j] == sm[j + 1];
    }
  }

  lemma {:induction false} FloatSourceKept(acc: Dict<real, string>, sm: Dict<string, string>, x: real)
    requires forall j :: 0 <= j < |sm| ==> !ReadsAs(sm[j].0, x)
    ensures Get(FloatSources(acc, sm), x) == Get(acc, x)
    decreases |sm|
  {
    if sm != [] {
      var parsed := ParseFloat(CleanValue(sm[0].0));
      var acc' := if parsed.Some? then Put(acc, Value(parsed.value), sm[0].1) else acc;
      assert !ReadsAs(sm[0].0, x);
      forall j | 0 <= j < |sm[1..]| ensures !ReadsAs(sm[1..][j].0, x) {
        assert sm[1..][j] == sm[j + 1];
      }
      FloatSourceKept(acc', sm[1..], x);
    }
  }

  /** `abs(a - b) < 0.01`. */
  predicate Near(a: real, b: real) {
    -0.01 < a - b < 0.01
  }

  /** The first entry at or after `i` whose value times `scale` is near `val`. */
  function FirstNear(fsrc: Dict<real, string>, val: real, scale: real, i: nat): (r: Option<nat>)
    requires i <= |fsrc|
    ensures r.Some? ==> i <= r.value < |fsrc| && Near(fsrc[r.value].0 * scale, val)
    ensures r.Some? ==> forall j :: i <= j < r.value ==> !Near(fsrc[j].0 * scale, val)
    ensures r.None? ==> forall j :: i <= j < |fsrc| ==> !Near(fsrc[j].0 * scale, val)
    decreases |fsrc| - i
  {
    if i == |fsrc| then None
    else if Near(fsrc[i].0 * scale, val) then Some(i)
    else FirstNear(fsrc, val, scale, i + 1)
  }

  /** Where a number was found: directly, as a fraction written in percent, or nowhere. */
  datatype Source = Direct(path: string) | Scaled(path: string) | NoSource

  /**
   * Strategy A, a source value within 0.01 of the number, and failing that
   * strategy B, a source value that times 100 is within 0.01; each takes the
   * first such entry of `float_sources`.
   */
  function Classify(fsrc: Dict<real, string>, val: real): (m: Source)
    ensures m.Direct? <==> exists j :: 0 <= j < |fsrc| && Near(fsrc[j].0, val)
    ensures m.Scaled? <==> (forall j :: 0 <= j < |fsrc| ==> !Near(fsrc[j].0, val))
                           && exists j :: 0 <= j < |fsrc| && Near(fsrc[j].0 * 100.0, val)
    ensures m.Direct? ==> exists j :: 0 <= j < |fsrc| && Near(fsrc[j].0, val) && m.path == fsrc[j].1
                                      && forall l :: 0 <= l < j ==> !Near(fsrc[l].0, val)
    ensures m.Scaled? ==> exists j :: 0 <= j < |fsrc| && Near(fsrc[j].0 * 100.0, val) && m.path == fsrc[j].1
                                      && forall l :: 0 <= l < j ==> !Near(fsrc[l].0 * 100.0, val)
  {
    match FirstNear(fsrc, val, 1.0, 0)
    case Some(j) => Direct(fsrc[j].1)
    case None =>
      match FirstNear(fsrc, val, 100.0, 0)
      case Some(j) => Scaled(fsrc[j].1)
      case None => NoSource
  }

  /** A token is checked unless it is one character long once its commas are removed (`float()` of it never fails). */
  predicate Checked(tok: string) {
    |RemoveChar(tok, ',')| != 1 && ParseFloat(RemoveChar(tok, ',')).Some?
  }

  function TokenValue(tok: string): real
    requires Checked(tok)
  {
    Value(ParseFloat(RemoveChar(tok, ',')).value)
  }

  /** The `matched` entry of a token found at `m`. */
  function MatchText(tok: string, m: Source): string
    requires !m.NoSource?
  {
    tok + " -> " + (if m.Direct? then m.path else m.path + " (x100%)")
  }

  /** The `matched` list: a text for each checked token that has a source, in order. */
  function Matched(tokens: seq<string>, fsrc: Dict<real, string>): (r: seq<string>)
    ensures |r| <= |tokens|
    decreases |tokens|
  {
    if tokens == [] then []
    else
      var t := tokens[|tokens| - 1];
      Matched(tokens[..|tokens| - 1], fsrc)
      + (if Checked(t) && !Classify(fsrc, TokenValue(t)).NoSource? then [MatchText(t, Classify(fsrc, TokenValue(t)))] else [])
  }

  /** The `unmatched` list: exactly the checked tokens without a source, in order. */
  function Unmatched(tokens: seq<string>, fsrc: Dict<real, string>): (r: seq<string>)
    ensures forall u :: u in r <==> u in tokens && Checked(u) && Classify(fsrc, TokenValue(u)).NoSource?
    decreases |tokens|
  {
    if tokens == [] then []
    else
      var init, t := tokens[..|tokens| - 1], tokens[|tokens| - 1];
      assert forall u :: u in tokens <==> u in init || u == t by {
        assert tokens == init + [t];
      }
      Unmatched(init, fsrc) + (if Checked(t) && Classify(fsrc, TokenValue(t)).NoSource? then [t] else [])
  }

  /** How many tokens are checked. */
  function CheckedCount(tokens: seq<string>): nat
    decreases |tokens|
  {
    if tokens == [] then 0
    else CheckedCount(tokens[..|tokens| - 1]) + (if Checked(tokens[|tokens| - 1]) then 1 else 0)
  }

  /** Each checked token lands in exactly one of `matched` and `unmatched`. */
  lemma {:induction false} MatchedPlusUnmatched(tokens: seq<string>, fsrc: Dict<real, string>)
    ensures |Matched(tokens, fsrc)| + |Unmatched(tokens, fsrc)| == CheckedCount(tokens)
    decreases |tokens|
  {
    if tokens != [] {
      MatchedPlusUnmatched(tokens[..|tokens| - 1], fsrc);
    }
  }

  /** The tokens `findall` returns are checked exactly when they are not one character long without their commas. */
  lemma {:induction false} FoundTokensChecked(content: string)
    ensures forall t :: t in FindNumbers(content) ==> (Checked(t) <==> |RemoveChar(t, ',')| != 1)
  {
    TokensParse(content, 0);
  }

  /** One search of `float_sources`: the first entry whose value times `scale` is near `val`. */
  method FindSource(fsrc: Dict<real, string>, val: real, scale: real) returns (found: bool, path: string)
    ensures found <==> FirstNear(fsrc, val, scale, 0).Some?
    ensures found ==> path == fsrc[FirstNear(fsrc, val, scale, 0).value].1
  {
    found, path := false, "";
    var j := 0;
    while j < |fsrc|
      invariant j <= |fsrc|
      invariant FirstNear(fsrc, val, scale, j) == FirstNear(fsrc, val, scale, 0)
    {
      if Near(fsrc[j].0 * scale, val) {
        found, path := true, fsrc[j].1;
        break;
      }
      j := j + 1;
    }
  }

  method MatchNumbers(tokens: seq<string>, fsrc: Dict<real, string>) returns (matched: seq<string>, unmatched: seq<string>)
    ensures matched == Matched(tokens, fsrc)
    ensures unmatched == Unmatched(tokens, fsrc)
  {
    matched, unmatched := [], [];
    var i := 0;
    while i < |tokens|
      invariant i <= |tokens|
      invariant matched == Matched(tokens[..i], fsrc)
      invariant unmatched == Unmatched(tokens[..i], fsrc)
    {
      var numStr := tokens[i];
      assert tokens[..i + 1][..i] == tokens[..i];
      var clean := RemoveChar(numStr, ',');
      if |clean| != 1 {
        var parsed := ParseFloat(clean);
        if parsed.Some? {
          var val := Value(parsed.value);
          var found, source := FindSource(fsrc, val, 1.0);
          if !found {
            found, source := FindSource(fsrc, val, 100.0);
            if found {
              source := source + " (x100%)";
            }
          }
          if found {
            matched := matched + [numStr + " -> " + source];
          } else {
            unmatched := unmatched + [numStr];
          }
        }
      }
      i := i + 1;
    }
    assert tokens[..i] == tokens;
  }

  /** The dict `verify_prompt_data` returns. */
  datatype Verdict = Verdict(verified: bool, matchedCount: nat, unmatchedCount: nat, unmatchedValues: seq<string>,
                             suspiciousAlerts: seq<string>, logsChecked: seq<string>, step2: Step2, message: string)

  const PassMessage := "驗證通過"

  /** The missing step-2 tools as listed in the message. */
  function MissingText(missing: seq<string>): string {
    var j := Join("、", missing);
    if j == "" then "web_search/url_fetch" else j
  }

  /** `msg_parts`: one sentence per failed condition. */
  function MessageParts(unmatched: nat, alerts: nat, step2: Step2): seq<string> {
    (if unmatched > 0 then ["發現 " + NatToString(unmatched) + " 個數值缺乏直接來源。"] else [])
    + (if alerts > 0 then ["警告：檢測到 " + NatToString(alerts) + " 個可疑資料來源（如外國交易所數據匹配錯誤）。"] else [])
    + (if !step2.valid then ["尚未發現必要的步驟 2 工具呼叫（缺少：" + MissingText(step2.missing) + "）。"] else [])
  }

  /** The verdict on the numbers `tokens` of a message, given what was extracted and the step-2 report. */
  function VerdictOf(data: Extraction, step2: Step2, tokens: seq<string>): Verdict {
    var fsrc := FloatSources([], data.sourceMap);
    var matched := Matched(tokens, fsrc);
    var unmatched := Unmatched(tokens, fsrc);
    var alerts := data.suspiciousAlerts;
    var isValid := |unmatched| == 0 && |alerts| == 0 && step2.valid;
    Verdict(isValid, |matched|, |unmatched|, unmatched, alerts, data.logsUsed, step2,
            if isValid then PassMessage else Join(" ", MessageParts(|unmatched|, |alerts|, step2)))
  }

  /** The verdict `verify_prompt_data(ticker, content)` reaches on the logs as they are. */
  function VerdictSpec(fs: FileSystem, ticker: string, content: string, now: DateTime, decode: Decoder): Verdict
    requires ValidDateTime(now)
  {
    VerdictOf(ExtractSpec(fs, ticker, now, decode), Step2Spec(fs, ticker, now, decode), FindNumbers(content))
  }

  lemma {:induction false} JoinHead(sep: string, parts: seq<string>)
    requires parts != [] && parts[0] != []
    ensures Join(sep, parts) != [] && Join(sep, parts)[0] == parts[0][0]
  {
  }

  /** The message is the pass message exactly when the verdict is positive. */
  lemma {:induction false} PassMessageIffVerified(data: Extraction, step2: Step2, tokens: seq<string>)
    ensures var v := VerdictOf(data, step2, tokens); v.message == PassMessage <==> v.verified
  {
    var v := VerdictOf(data, step2, tokens);
    if !v.verified {
      var parts := MessageParts(v.unmatchedCount, |data.suspiciousAlerts|, step2);
      assert parts != [] && parts[0] != [] && parts[0][0] != PassMessage[0];
      JoinHead(" ", parts);
    }
  }

  /**
   * With the extraction and step-2 checks as they stand (no alerts, always
   * valid), a message verifies exactly when every checked number of it has a
   * source; otherwise the message counts the numbers without one.
   */
  lemma {:induction false} VerifiedIffAllSourced(fs: FileSystem, ticker: string, content: string, now: DateTime, decode: Decoder)
    requires ValidDateTime(now)
    ensures var v := VerdictSpec(fs, ticker, content, now, decode);
            var fsrc := FloatSources([], ExtractSpec(fs, ticker, now, decode).sourceMap);
            && (forall t :: t in FindNumbers(content) ==> (Checked(t) <==> |RemoveChar(t, ',')| != 1))
            && (v.verified <==> forall t :: t in FindNumbers(content) && |RemoveChar(t, ',')| != 1 ==>
                                  Classify(fsrc, TokenValue(t)) != NoSource)
            && (!v.verified ==> v.message == "發現 " + NatToString(v.unmatchedCount) + " 個數值缺乏直接來源。")
            && v.matchedCount + v.unmatchedCount == CheckedCount(FindNumbers(content))
  {
    var data, step2 := ExtractSpec(fs, ticker, now, decode), Step2Spec(fs, ticker, now, decode);
    assert data.suspiciousAlerts == [] && step2.valid;
    FoundTokensChecked(content);
    VerdictIffSourced(data, step2, FindNumbers(content));
  }

  /** Without alerts and with step 2 satisfied, the verdict is positive exactly when every checked token has a source. */
  lemma {:induction false} VerdictIffSourced(data: Extraction, step2: Step2, tokens: seq<string>)
    requires data.suspiciousAlerts == [] && step2.valid
    ensures var v := VerdictOf(data, step2, tokens);
            var fsrc := FloatSources([], data.sourceMap);
            && (v.verified <==> forall t :: t in tokens && Checked(t) ==> Classify(fsrc, TokenValue(t)) != NoSource)
            && (!v.verified ==> v.message == "發現 " + NatToString(v.unmatchedCount) + " 個數值缺乏直接來源。")
            && v.matchedCount + v.unmatchedCount == CheckedCount(tokens)
  {
    var v := VerdictOf(data, step2, tokens);
    var fsrc := FloatSources([], data.sourceMap);
    MatchedPlusUnmatched(tokens, fsrc);
    var u := Unmatched(tokens, fsrc);
    if u != [] {
      assert u[0] in u;
    }
    if !v.verified {
      assert MessageParts(v.unmatchedCount, 0, step2) == ["發現 " + NatToString(v.unmatchedCount) + " 個數值缺乏直接來源。"];
    }
  }

  /**
   * A number written in full-width digits is checked like any other:
   * "營收１２３億" holds 123, which has no source when nothing was harvested.
   */
  lemma {:induction false} WideDigitsUnsourced(data: Extraction, step2: Step2)
    requires data.sourceMap == [] && data.suspiciousAlerts == [] && step2.valid
    ensures Checked("１２３") && TokenValue("１２３") == 123.0
    ensures var v := VerdictOf(data, step2, FindNumbers("營收１２３億"));
            !v.verified && v.unmatchedValues == ["１２３"] && v.message == "發現 1 個數值缺乏直接來源。"
  {
    WideDigitsFound();
    WideDigitsParse();
    assert RemoveChar("１２３", ',') == "１２３";
    NothingHarvested(data, step2, "１２３");
  }

  /** With nothing harvested, a message with one checked number is refused, and that number is reported. */
  lemma {:induction false} NothingHarvested(data: Extraction, step2: Step2, tok: string)
    requires data.sourceMap == [] && data.suspiciousAlerts == [] && step2.valid && Checked(tok)
    ensures var v := VerdictOf(data, step2, [tok]);
            !v.verified && v.unmatchedValues == [tok] && v.message == "發現 1 個數值缺乏直接來源。"
  {
    assert FloatSources([], data.sourceMap) == [];
    assert Classify([], TokenValue(tok)) == NoSource;
    assert Unmatched([tok], []) == [tok] by {
      assert [tok][..0] == [];
    }
    assert NatToString(1) == "1";
    assert "發現 " + "1" + " 個數值缺乏直接來源。" == "發現 1 個數值缺乏直接來源。";
    assert MessageParts(1, 0, step2) == ["發現 1 個數值缺乏直接來源。"];
  }

  /** `str(i)` of an int with at least two characters, written alone, verifies once some harvested text reads as `i`. */
  lemma {:induction false} IntMessageVerified(fs: FileSystem, ticker: string, now: DateTime, decode: Decoder, i: int, key: string)
    requires ValidDateTime(now)
    requires i < 0 || i >= 10
    requires HasKey(ExtractSpec(fs, ticker, now, decode).sourceMap, key) && ReadsAs(key, i as real)
    ensures VerdictSpec(fs, ticker, IntToString(i), now, decode).verified
    ensures VerdictSpec(fs, ticker, IntToString(i), now, decode).matchedCount == 1
  {
    IntToken(i);
    SingleTokenSourced(fs, ticker, now, decode, IntToString(i), key, i as real);
  }

  /** `str(i)` of an int with at least two characters is one checked token that reads as `i`. */
  lemma {:induction false} IntToken(i: int)
    requires i < 0 || i >= 10
    ensures var s := IntToString(i);
            FindNumbers(s) == [s] && RemoveChar(s, ',') == s && |s| != 1
            && ParseFloat(s).Some? && Value(ParseFloat(s).value) == i as real
  {
    var s := IntToString(i);
    IntFound(i);
    IntRoundTrip(i);
    assert ',' !in s by {
      assert i >= 0 ==> AllDigits(s);
      assert i < 0 ==> AllDigits(s[1..]) && s[0] == '-' by {
        if i < 0 { assert s[1..] == NatToString(-i); }
      }
    }
    assert |s| >= 2;
  }

  /** `f"{n:,}"` of a number of two or more digits, written alone, verifies once some harvested text reads as `n`. */
  lemma {:induction false} GroupedMessageVerified(fs: FileSystem, ticker: string, now: DateTime, decode: Decoder, n: nat, key: string)
    requires ValidDateTime(now)
    requires n >= 10
    requires HasKey(ExtractSpec(fs, ticker, now, decode).sourceMap, key) && ReadsAs(key, n as real)
    ensures VerdictSpec(fs, ticker, GroupThousands(n), now, decode).verified
    ensures VerdictSpec(fs, ticker, GroupThousands(n), now, decode).matchedCount == 1
  {
    var s := GroupThousands(n);
    GroupedFound(n);
    GroupedValue(n);
    GroupNatDigits(n);
    var plain := RemoveChar(s, ',');
    assert |plain| != 1;
    SingleTokenSourced(fs, ticker, now, decode, s, key, n as real);
  }

  /** A message made of one checked token verifies once some harvested text reads as its value. */
  lemma {:induction false} SingleTokenSourced(fs: FileSystem, ticker: string, now: DateTime, decode: Decoder, s: string, key: string, x: real)
    requires ValidDateTime(now)
    requires FindNumbers(s) == [s]
    requires |RemoveChar(s, ',')| != 1 && ParseFloat(RemoveChar(s, ',')).Some? && Value(ParseFloat(RemoveChar(s, ',')).value) == x
    requires HasKey(ExtractSpec(fs, ticker, now, decode).sourceMap, key) && ReadsAs(key, x)
    ensures VerdictSpec(fs, ticker, s, now, decode).verified
    ensures VerdictSpec(fs, ticker, s, now, decode).matchedCount == 1
  {
    var data, step2 := ExtractSpec(fs, ticker, now, decode), Step2Spec(fs, ticker, now, decode);
    assert data.suspiciousAlerts == [] && step2.valid;
    assert Checked(s) && TokenValue(s) == x;
    SourcedTokenVerdict(data, step2, s, key);
    assert VerdictSpec(fs, ticker, s, now, decode) == VerdictOf(data, step2, [s]);
  }

  /** The verdict on one checked token, once some key of the source map reads as its value. */
  lemma {:induction false} SourcedTokenVerdict(data: Extraction, step2: Step2, s: string, key: string)
    requires data.suspiciousAlerts == [] && step2.valid
    requires Checked(s) && HasKey(data.sourceMap, key) && ReadsAs(key, TokenValue(s))
    ensures VerdictOf(data, step2, [s]).verified && VerdictOf(data, step2, [s]).matchedCount == 1
  {
    var fsrc := FloatSources([], data.sourceMap);
    var m := Classify(fsrc, TokenValue(s));
    DirectlySourced(data.sourceMap, key, TokenValue(s));
    assert [s][..0] == [];
    assert Unmatched([s], fsrc) == [];
    assert Matched([s], fsrc) == [MatchText(s, m)];
  }

  /** A value some key of the source map reads as is found directly. */
  lemma {:induction false} DirectlySourced(sm: Dict<string, string>, key: string, x: real)
    requires HasKey(sm, key) && ReadsAs(key, x)
    ensures Classify(FloatSources([], sm), x).Direct?
  {
    var fsrc := FloatSources([], sm);
    HasKeyAt(sm, key);
    var i :| 0 <= i < |sm| && sm[i].0 == key;
    FloatSourcesKeys([], sm, x);
    HasKeyAt(fsrc, x);
    var j :| 0 <= j < |fsrc| && fsrc[j].0 == x;
    assert Near(fsrc[j].0, x);
  }

  /** A list of strings as JSON. */
  function Texts(ss: seq<string>): (r: seq<Json>)
    ensures |r| == |ss| && forall i :: 0 <= i < |ss| ==> r[i] == JStr(ss[i])
  {
    seq(|ss|, i requires 0 <= i < |ss| => JStr(ss[i]))
  }

  /** The step-2 report as the dict it is. */
  function Step2Json(r: Step2): Json {
    JObject([("web_search_count", JInt(r.webSearchCount)), ("url_fetch_count", JInt(r.urlFetchCount)),
             ("valid", JBool(r.valid)), ("missing", JList(Texts(r.missing))),
             ("logs_inspected", JList(Texts(r.logsInspected)))])
  }

  /** The verdict as the dict `verify_prompt_data` serialises. */
  function VerdictJson(v: Verdict): Json {
    JObject([("verified", JBool(v.verified)), ("matched_count", JInt(v.matchedCount)),
             ("unmatched_count", JInt(v.unmatchedCount)), ("unmatched_values", JList(Texts(v.unmatchedValues))),
             ("suspicious_alerts", JList(Texts(v.suspiciousAlerts))), ("logs_checked", JList(Texts(v.logsChecked))),
             ("step2_requirement", Step2Json(v.step2)), ("message", JStr(v.message))])
  }

  /** The file each verification is recorded in: the ticker's directory (the root for an empty ticker). */
  function HistoryPath(ticker: string, now: DateTime): Path
    requires ValidDateTime(now)
  {
    Path(ticker, "validate_key_message_" + FormatStamp(now) + ".jsonl")
  }

  /** The record written for one verification. */
  function AuditRecord(ticker: string, content: string, now: DateTime, v: Verdict): Json
    requires ValidDateTime(now)
  {
    JObject([("timestamp", JStr(FormatSeconds(now))), ("tool_name", JStr("validate_key_message")),
             ("ticker", JStr(ticker)), ("content", JStr(content)), ("result", VerdictJson(v))])
  }

  /**
   * `verify_prompt_data(ticker, content)`: extracts the recent data, counts
   * the step-2 calls, checks every number of `content`, and appends the
   * audit record to the history file.  The verdict is returned as the value
   * the source serialises with `json.dumps`.
   */
  method VerifyPromptData(store: LogStore, ticker: string, content: string, now: DateTime, decode: Decoder, encode: Json -> string)
    returns (v: Verdict)
    requires ValidDateTime(now)
    modifies store
    ensures v == VerdictSpec(old(store.files), ticker, content, now, decode)
    ensures store.files == AppendLine(old(store.files), HistoryPath(ticker, now), encode(AuditRecord(ticker, content, now, v)))
  {
    var data := ExtractDataForPrompt(store.files, ticker, now, decode);
    var step2 := AnalyzeStep2Logs(store.files, ticker, now, decode);
    var numbers := FindNumbers(content);
    var fsrc := BuildFloatSources(data.sourceMap);
    var matched, unmatched := MatchNumbers(numbers, fsrc);
    var alerts := data.suspiciousAlerts;
    var baseValid := |unmatched| == 0 && |alerts| == 0;
    var isValid := baseValid && step2.valid;
    var parts := MessageParts(|unmatched|, |alerts|, step2);
    var message := if isValid then PassMessage else Join(" ", parts);
    v := Verdict(isValid, |matched|, |unmatched|, unmatched, alerts, data.logsUsed, step2, message);
    store.Append(HistoryPath(ticker, now), encode(AuditRecord(ticker, content, now, v)));
  }

  /** The history file carries its own stamp, so later runs list it among the ticker's recent logs. */
  lemma {:induction false} HistoryNameStamped(ticker: string, now: DateTime)
    requires ValidDateTime(now) && now.year >= 1000
    ensures NameStamp(HistoryPath(ticker, now).name) == Some(Truncated(now))
  {
    var d, t := DateDigits(now), TimeDigits(now);
    StampShape(now);
    assert HistoryPath(ticker, now).name == "validate_key_message" + "_" + d + "_" + t + ".jsonl";
    StampedName("validate_key_message", d, t);
    StampRoundTrip(now);
  }

  /** A name `a_YYYYMMDD_HHMMSS.jsonl` carries the stamp its last two parts spell. */
  lemma {:induction false} StampedName(a: string, d: string, t: string)
    requires |d| == 8 && |t| == 6 && AllDigits(d) && AllDigits(t)
    ensures |d + t| == 14 && AllDigits(d + t)
    ensures NameStamp(a + "_" + d + "_" + t + ".jsonl") == ParseStamp(d + t)
  {
    AllDigitsAppend(d, t);
    var stem := a + "_" + d + "_" + t;
    assert a + "_" + d + "_" + t + ".jsonl" == stem + ".jsonl";
    JsonlStem(stem);
    StampParts(a, d, t);
  }

  /** The stem of `stem.jsonl` is `stem`. */
  lemma {:induction false} JsonlStem(stem: string)
    requires stem != []
    ensures Stem(stem + ".jsonl") == stem
  {
    var name := stem + ".jsonl";
    assert name[|name| - 6..] == ".jsonl";
    assert name[..|name| - 6] == stem;
  }

  /** `a_d_t` split at `_` ends in `d` and `t` when neither contains `_`. */
  lemma {:induction false} StampParts(a: string, d: string, t: string)
    requires AllDigits(d) && AllDigits(t)
    ensures var parts := Split(a + "_" + d + "_" + t, '_');
            |parts| >= 2 && parts[|parts| - 2] == d && parts[|parts| - 1] == t
  {
    assert '_' !in d && '_' !in t by {
      assert !IsDigit('_');
    }
    SplitAround(a + "_" + d, '_', t);
    SplitAround(a, '_', d);
    assert a + "_" + d + "_" + t == a + "_" + d + ['_'] + t;
    assert a + "_" + d == a + ['_'] + d;
    SplitNoSep(d, '_');
    SplitNoSep(t, '_');
  }

  /** A history record read back adds nothing: it has no `response` and its tool name is not a search or a fetch. */
  lemma {:induction false} HistoryRecordInert(h: Harvest, t: Tally, file: string, ticker: string, content: string, now: DateTime, v: Verdict, line: string, decode: Decoder)
    requires ValidDateTime(now)
    requires decode(line) == Some(AuditRecord(ticker, content, now, v))
    ensures HarvestLine(h, file, line, decode) == Ok(h)
    ensures CountLine(t, line, decode) == Ok(t)
  {
    AuditFields(ticker, content, now, v);
    var fields := AuditRecord(ticker, content, now, v).fields;
    NoResponseInert(h, file, line, decode, fields);
    OtherToolInert(t, line, decode, fields);
  }

  lemma {:induction false} NoResponseInert(h: Harvest, file: string, line: string, decode: Decoder, fields: Dict<string, Json>)
    requires decode(line) == Some(JObject(fields)) && !HasKey(fields, "response")
    ensures HarvestLine(h, file, line, decode) == Ok(h)
  {
    assert GetOr(JObject(fields), "response", JObject([])) == Ok(JObject([]));
    assert Payload(JObject([]), decode) == Ok(Some(JObject([])));
  }

  lemma {:induction false} OtherToolInert(t: Tally, line: string, decode: Decoder, fields: Dict<string, Json>)
    requires decode(line) == Some(JObject(fields))
    requires Get(fields, "tool_name") == Some(JStr("validate_key_message"))
    ensures CountLine(t, line, decode) == Ok(t)
  {
    var name := JStr("validate_key_message");
    assert GetOr(JObject(fields), "tool_name", JStr("")) == Ok(name);
    NotSearchOrFetch("validate_key_message");
    assert MatchesTool(name, WebKeywords) == Ok(false);
    assert MatchesTool(name, FetchKeywords) == Ok(false);
  }

  lemma {:induction false} AuditFields(ticker: string, content: string, now: DateTime, v: Verdict)
    requires ValidDateTime(now)
    ensures !HasKey(AuditRecord(ticker, content, now, v).fields, "response")
    ensures Get(AuditRecord(ticker, content, now, v).fields, "tool_name") == Some(JStr("validate_key_message"))
  {
    var f := AuditRecord(ticker, content, now, v).fields;
    assert !HasKey(f[4..], "response");
    assert !HasKey(f[3..], "response") by { assert f[3..][1..] == f[4..]; }
    assert !HasKey(f[2..], "response") by { assert f[2..][1..] == f[3..]; }
    assert !HasKey(f[1..], "response") by { assert f[1..][1..] == f[2..]; }
    assert f[1..][0].0 == "tool_name";
  }

  lemma {:induction false} NotSearchOrFetch(w: string)
    requires w == "validate_key_message"
    ensures !AnyIn(Lower(w), WebKeywords) && !AnyIn(Lower(w), FetchKeywords)
  {
    LowerNoUpper(w);
    assert 'h' !in w;
    forall k | k in WebKeywords + FetchKeywords ensures !Contains(w, k) {
      assert 'h' in k;
      LetterMissing(w, 'h', k);
    }
  }

  /** A text without the letter `c` contains no keyword that has it. */
  lemma {:induction false} LetterMissing(w: string, c: char, k: string)
    requires c !in w && c in k
    ensures !Contains(w, k)
  {
    forall i | 0 <= i <= |w| - |k| ensures !OccursAt(w, k, i) {
      assert c !in w[i..i + |k|];
    }
  }
}
