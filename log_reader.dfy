/**
 * Reading back the newest logged response of a ticker
 * (`my_agent/mcp_log_reader.py`): the greatest root file named
 * `mcp_{ticker}_*.jsonl`, its last line, and the payload inside the record's
 * `response`; and the Markdown listing of such a response.
 */
module LogReader {
  import opened Wrappers
  import opened Dict
  import opened Text
  import opened Numbers
  import opened Values
  import opened Files
  import opened NumScan

  // ---------------------------------------------------------------------------
  // read_latest_mcp_response
  // ---------------------------------------------------------------------------

  /** `log_dir.glob(f"mcp_{ticker}_*.jsonl")`: the root files named after the ticker. */
  function TickerFiles(fs: FileSystem, ticker: string): seq<Path> {
    Glob(fs, "", "mcp_" + ticker + "_", ".jsonl")
  }

  /** `sorted(matching_files)[-1]`: the greatest matching path, if any file matches. */
  function LatestFile(fs: FileSystem, ticker: string): (r: Option<Path>)
    ensures r.None? <==> TickerFiles(fs, ticker) == []
    ensures r.Some? ==> r.value in TickerFiles(fs, ticker)
                        && forall q :: q in TickerFiles(fs, ticker) && q != r.value ==> PathLess(q, r.value)
  {
    var files := TickerFiles(fs, ticker);
    if files == [] then None else Some(GreatestPath(files))
  }

  /**
   * The payload of a truthy response: `content[0].text` decoded when
   * `content` is truthy, else `structuredContent.result` decoded, else the
   * response itself, which is also what an empty text or result gives.
   */
  function Unwrap(raw: Json, decode: Decoder): Result<Json> {
    var hasContent :- In("content", raw);
    var content :- if hasContent then Subscript(raw, "content") else Ok(JNull);
    if hasContent && Truthy(content) then
      var first :- First(content);
      var text :- GetOr(first, "text", JStr(""));
      if Truthy(text) then Loads(decode, text) else Ok(raw)
    else
      var hasStructured := In("structuredContent", raw).value; // the same shapes as for "content" support `in`
      if !hasStructured then Ok(raw)
      else
        var structured :- Subscript(raw, "structuredContent");
        var result :- GetOr(structured, "result", JStr(""));
        if Truthy(result) then Loads(decode, result) else Ok(raw)
  }

  /**
   * One record read back; `JNull` is the function's `None`.  A line or a
   * payload that does not decode gives `None` (the JSON error is caught);
   * any other exception propagates.
   */
  function ReadRecord(line: string, decode: Decoder): Result<Json> {
    match decode(line)
    case None => Ok(JNull)
    case Some(entry) =>
      var raw :- GetOr(entry, "response", JNull);
      if !Truthy(raw) then Ok(JNull)
      else
        match Unwrap(raw, decode)
        case Err(DecodeError) => Ok(JNull)
        case other => other
  }

  /** `read_latest_mcp_response(ticker)`: `JNull` when there is no file, the file is empty or the record has no payload. */
  function ReadLatestMcpResponse(fs: FileSystem, ticker: string, decode: Decoder): (r: Result<Json>)
    ensures TickerFiles(fs, ticker) == [] ==> r == Ok(JNull)
  {
    match LatestFile(fs, ticker)
    case None => Ok(JNull)
    case Some(p) =>
      var lines := Lines(fs, p);
      if lines == [] then Ok(JNull) else ReadRecord(lines[|lines| - 1], decode)
  }

  /**
   * Only the last line of the newest file is read: appending a record to
   * the newest file (or creating it) makes that record, and nothing before
   * it, decide the answer.
   */
  lemma {:induction false} AppendedRecordRead(fs: FileSystem, ticker: string, p: Path, line: string, decode: Decoder)
    requires p.dir == "" && NameMatches(p.name, "mcp_" + ticker + "_", ".jsonl")
    requires forall q :: q in TickerFiles(fs, ticker) && q != p ==> PathLess(q, p)
    ensures ReadLatestMcpResponse(AppendLine(fs, p, line), ticker, decode) == ReadRecord(line, decode)
  {
    var fs' := AppendLine(fs, p, line);
    assert p in TickerFiles(fs', ticker);
    var r := LatestFile(fs', ticker).value;
    if r != p {
      assert r in TickerFiles(fs, ticker);
      PathLessTransitive(p, r, p);
      PathLessIrreflexive(p);
    }
    assert Lines(fs', p)[|Lines(fs', p)| - 1] == line;
  }

  /** The text of `content[0]` wins over `structuredContent`. */
  lemma {:induction false} ContentFirst(fields: Dict<string, Json>, item: Dict<string, Json>, rest: seq<Json>, t: string,
                                        decode: Decoder)
    requires Get(fields, "content") == Some(JList([JObject(item)] + rest))
    requires Get(item, "text") == Some(JStr(t)) && t != []
    ensures Unwrap(JObject(fields), decode) == Loads(decode, JStr(t))
  {
    HasKeyIn(fields, "content");
  }

  /** `structuredContent.result` is read only when `content` is missing or empty. */
  lemma {:induction false} StructuredWithoutContent(fields: Dict<string, Json>, sc: Dict<string, Json>, t: string, decode: Decoder)
    requires !HasKey(fields, "content") || !Truthy(ValueAt(fields, "content"))
    requires Get(fields, "structuredContent") == Some(JObject(sc))
    requires Get(sc, "result") == Some(JStr(t)) && t != []
    ensures Unwrap(JObject(fields), decode) == Loads(decode, JStr(t))
  {
  }

  /** A non-empty `content` whose first text is empty gives the raw response, whatever `structuredContent` holds. */
  lemma {:induction false} EmptyTextGivesRaw(fields: Dict<string, Json>, item: Dict<string, Json>, rest: seq<Json>, decode: Decoder)
    requires Get(fields, "content") == Some(JList([JObject(item)] + rest))
    requires !HasKey(item, "text") || ValueAt(item, "text") == JStr("")
    ensures Unwrap(JObject(fields), decode) == Ok(JObject(fields))
  {
  }

  /** A record that does not decode, or whose payload text does not, reads as `None`. */
  lemma {:induction false} UndecodableReadsNone(line: string, fields: Dict<string, Json>, decode: Decoder)
    ensures decode(line).None? ==> ReadRecord(line, decode) == Ok(JNull)
    ensures decode(line) == Some(JObject(fields)) && HasKey(fields, "response") && Truthy(ValueAt(fields, "response"))
            && Unwrap(ValueAt(fields, "response"), decode) == Err(DecodeError)
            ==> ReadRecord(line, decode) == Ok(JNull)
  {
  }

  /** The name pattern is the old flat one: a call recorded in a ticker's own directory is never found. */
  lemma {:induction false} SubdirectoryFilesUnseen(fs: FileSystem, ticker: string, p: Path)
    requires p.dir != ""
    ensures p !in TickerFiles(fs, ticker)
  {
  }

  // ---------------------------------------------------------------------------
  // format_mcp_response, without its float formatting.
  // ---------------------------------------------------------------------------

  /**
   * What is not modelled of the listing: `topFloat(key, x)` is a top-level
   * float's text (its scaled and percentage forms), `fixed2` is `f"{x:.2f}"`,
   * and `containerStr` is `str()` of a list or dict.
   */
  datatype Formatters = Formatters(topFloat: (string, Decimal) -> string, fixed2: Decimal -> string,
                                   containerStr: Json -> string)

  /** `str(v)`. */
  function PyStr(v: Json, fmt: Formatters): string {
    if IsScalar(v) then ScalarStr(v) else fmt.containerStr(v)
  }

  /** `f"{v:,}"` of an int; a bool is the int it is. */
  function IntText(v: Json): string
    requires v.JInt? || v.JBool?
  {
    GroupThousands(if v.JBool? then (if v.b then 1 else 0) else v.i)
  }

  function NotFound(ticker: string): string {
    "❌ 找不到 " + ticker + " 的記錄"
  }

  function Header(ticker: string): string {
    "# 📊 " + ticker + " 完整股票資訊\n"
  }

  function KeyPrefix(key: string): string {
    "- **" + key + "**:"
  }

  /** The line of a field of an object inside a list. */
  function SubLine(key: string, v: Json, fmt: Formatters): string {
    "    - " + key + ": " + (if v.JInt? || v.JBool? then IntText(v) else if v.JFloat? then fmt.fixed2(v.d) else PyStr(v, fmt))
  }

  function SubLines(fields: Dict<string, Json>, fmt: Formatters): seq<string> {
    if fields == [] then []
    else SubLines(fields[..|fields| - 1], fmt) + [SubLine(fields[|fields| - 1].0, fields[|fields| - 1].1, fmt)]
  }

  /** The lines of the `n`-th list element (counting from 1). */
  function ItemBlock(n: nat, item: Json, fmt: Formatters): seq<string> {
    if item.JObject? then ["  - 項目 " + NatToString(n) + ":"] + SubLines(item.fields, fmt)
    else ["  - " + PyStr(item, fmt)]
  }

  function ItemLines(items: seq<Json>, fmt: Formatters): seq<string> {
    if items == [] then []
    else ItemLines(items[..|items| - 1], fmt) + ItemBlock(|items|, items[|items| - 1], fmt)
  }

  function DictLines(fields: Dict<string, Json>, fmt: Formatters): seq<string> {
    if fields == [] then []
    else DictLines(fields[..|fields| - 1], fmt) + ["  - " + fields[|fields| - 1].0 + ": " + PyStr(fields[|fields| - 1].1, fmt)]
  }

  /** The text after `- **key**: ` of a scalar that is not None. */
  function ScalarText(key: string, value: Json, fmt: Formatters): string
    requires IsScalar(value) && !value.JNull?
  {
    if value.JFloat? then fmt.topFloat(key, value.d)
    else if value.JStr? then value.s
    else IntText(value)
  }

  /** The lines one field contributes. */
  function FieldLines(key: string, value: Json, fmt: Formatters): seq<string> {
    match value
    case JNull => []
    case JList(items) =>
      if items == [] then [KeyPrefix(key) + " []"]
      else [KeyPrefix(key) + " [" + NatToString(|items|) + " 項目]"] + ItemLines(items, fmt)
    case JObject(fields) => [KeyPrefix(key)] + DictLines(fields, fmt)
    case _ => [KeyPrefix(key) + " " + ScalarText(key, value, fmt)]
  }

  function AllLines(fields: Dict<string, Json>, fmt: Formatters): seq<string> {
    if fields == [] then []
    else AllLines(fields[..|fields| - 1], fmt) + FieldLines(fields[|fields| - 1].0, fields[|fields| - 1].1, fmt)
  }

  /** The listing of a response: a heading, then each field in order; a falsy response gives the not-found line. */
  function Listing(response: Json, ticker: string, fmt: Formatters): Result<string> {
    if !Truthy(response) then Ok(NotFound(ticker))
    else if !response.JObject? then Err(AttributeError)
    else Ok(Join("\n", [Header(ticker)] + AllLines(response.fields, fmt)))
  }

  /** The lines of a listed object's fields. */
  method BuildSubLines(sub: Dict<string, Json>, fmt: Formatters) returns (out: seq<string>)
    ensures out == SubLines(sub, fmt)
  {
    out := [];
    var m := 0;
    while m < |sub|
      invariant 0 <= m <= |sub|
      invariant out == SubLines(sub[..m], fmt)
    {
      assert sub[..m + 1][..m] == sub[..m];
      out := out + [SubLine(sub[m].0, sub[m].1, fmt)];
      m := m + 1;
    }
    assert sub[..m] == sub;
  }

  /** The lines of a list's elements, numbered from 1. */
  method BuildItemLines(items: seq<Json>, fmt: Formatters) returns (out: seq<string>)
    ensures out == ItemLines(items, fmt)
  {
    out := [];
    var j := 0;
    while j < |items|
      invariant 0 <= j <= |items|
      invariant out == ItemLines(items[..j], fmt)
    {
      var item := items[j];
      var block;
      if item.JObject? {
        var sub := BuildSubLines(item.fields, fmt);
        block := ["  - 項目 " + NatToString(j + 1) + ":"] + sub;
      } else {
        block := ["  - " + PyStr(item, fmt)];
      }
      assert items[..j + 1][..j] == items[..j];
      out := out + block;
      j := j + 1;
    }
    assert items[..j] == items;
  }

  /** The lines of a dict's entries. */
  method BuildDictLines(sub: Dict<string, Json>, fmt: Formatters) returns (out: seq<string>)
    ensures out == DictLines(sub, fmt)
  {
    out := [];
    var m := 0;
    while m < |sub|
      invariant 0 <= m <= |sub|
      invariant out == DictLines(sub[..m], fmt)
    {
      assert sub[..m + 1][..m] == sub[..m];
      out := out + ["  - " + sub[m].0 + ": " + PyStr(sub[m].1, fmt)];
      m := m + 1;
    }
    assert sub[..m] == sub;
  }

  /** The lines one field of the response contributes. */
  method BuildFieldLines(key: string, value: Json, fmt: Formatters) returns (chunk: seq<string>)
    ensures chunk == FieldLines(key, value, fmt)
  {
    if value.JNull? {
      chunk := [];
    } else if value.JList? {
      if value.items == [] {
        chunk := [KeyPrefix(key) + " []"];
      } else {
        var itemLines := BuildItemLines(value.items, fmt);
        chunk := [KeyPrefix(key) + " [" + NatToString(|value.items|) + " 項目]"] + itemLines;
      }
    } else if value.JObject? {
      var dictLines := BuildDictLines(value.fields, fmt);
      chunk := [KeyPrefix(key)] + dictLines;
    } else {
      chunk := [KeyPrefix(key) + " " + ScalarText(key, value, fmt)];
    }
  }

  /** `format_mcp_response(response, ticker)`. */
  method FormatMcpResponse(response: Json, ticker: string, fmt: Formatters) returns (r: Result<string>)
    ensures r == Listing(response, ticker, fmt)
  {
    if !Truthy(response) {
      return Ok(NotFound(ticker));
    }
    if !response.JObject? {
      return Err(AttributeError);
    }
    var fields := response.fields;
    var lines := [];
    var i := 0;
    while i < |fields|
      invariant 0 <= i <= |fields|
      invariant lines == AllLines(fields[..i], fmt)
    {
      var chunk := BuildFieldLines(fields[i].0, fields[i].1, fmt);
      AllLinesStep(fields, i, fmt);
      lines := lines + chunk;
      i := i + 1;
    }
    assert fields[..i] == fields;
    r := Ok(Join("\n", [Header(ticker)] + lines));
  }

  lemma {:induction false} AllLinesStep(fields: Dict<string, Json>, i: nat, fmt: Formatters)
    requires i < |fields|
    ensures AllLines(fields[..i + 1], fmt) == AllLines(fields[..i], fmt) + FieldLines(fields[i].0, fields[i].1, fmt)
  {
    assert fields[..i + 1][..i] == fields[..i];
  }

  /** The fields whose value is not None, in order. */
  function NonNull(fields: Dict<string, Json>): (r: Dict<string, Json>)
    ensures forall k :: 0 <= k < |r| ==> !r[k].1.JNull?
  {
    if fields == [] then []
    else
      var last := fields[|fields| - 1];
      NonNull(fields[..|fields| - 1]) + (if last.1.JNull? then [] else [last])
  }

  /** None-valued fields leave no trace: the listing is that of the other fields, in their order. */
  lemma {:induction false} NoneFieldsSkipped(fields: Dict<string, Json>, fmt: Formatters)
    ensures AllLines(fields, fmt) == AllLines(NonNull(fields), fmt)
  {
    if fields != [] {
      var init, last := fields[..|fields| - 1], fields[|fields| - 1];
      NoneFieldsSkipped(init, fmt);
      assert fields[..|fields| - 1] == init;
      var n := NonNull(fields);
      assert AllLines(fields, fmt) == AllLines(init, fmt) + FieldLines(last.0, last.1, fmt);
      if !last.1.JNull? {
        assert n == NonNull(init) + [last];
        assert n[..|n| - 1] == NonNull(init);
      } else {
        assert n == NonNull(init);
        assert FieldLines(last.0, last.1, fmt) == [];
      }
    }
  }

  /**
   * An integer field is written with comma groups, which the verifier's
   * number scan reads back as one token of the same value.
   */
  lemma {:induction false} IntFieldGrouped(key: string, i: int, fmt: Formatters)
    ensures FieldLines(key, JInt(i), fmt) == [KeyPrefix(key) + " " + GroupThousands(i)]
    ensures FindNumbers(GroupThousands(i)) == [GroupThousands(i)]
    ensures i >= 0 ==> ParseFloat(RemoveChar(GroupThousands(i), ',')) == Some(Decimal(i, 0))
  {
    GroupedFound(i);
    if i >= 0 {
      GroupedValue(i);
    }
  }
}
