/**
 * The offline comparison of an agent's answer with the logged tool output
 * (`compare_agent_response.py`): the newest logged payload of a ticker, the
 * agent's JSON answer with its Markdown code fence removed, and a key-by-key
 * comparison of the two objects.
 */
module Compare {
  import opened Wrappers
  import opened Dict
  import opened Text
  import opened Values
  import opened Files
  import LogReader

  // ---------------------------------------------------------------------------
  // compare_json
  // ---------------------------------------------------------------------------

  /** An entry of `different_values`. */
  datatype Difference = Difference(key: string, original: Json, response: Json)

  /** The result dict: the verdict, the three key lists and the `stats` counts. */
  datatype Comparison = Comparison(identical: bool, missingKeys: seq<string>, extraKeys: seq<string>,
                                   differentValues: seq<Difference>, originalKeys: nat, responseKeys: nat,
                                   identicalKeys: nat)

  /** The keys of `o`, in order, that `r` lacks; the extra keys are `Missing(r, o)`. */
  function Missing(o: Dict<string, Json>, r: Dict<string, Json>): seq<string> {
    if o == [] then []
    else
      var last := o[|o| - 1];
      Missing(o[..|o| - 1], r) + (if HasKey(r, last.0) then [] else [last.0])
  }

  /** The entries of `o`, in order, whose key `r` has with a value that is not `==`. */
  function Differences(o: Dict<string, Json>, r: Dict<string, Json>): seq<Difference> {
    if o == [] then []
    else
      var last := o[|o| - 1];
      Differences(o[..|o| - 1], r)
      + (if HasKey(r, last.0) && !PyEq(last.1, ValueAt(r, last.0)) then [Difference(last.0, last.1, ValueAt(r, last.0))]
         else [])
  }

  /** How many entries of `o` have their key in `r` with an `==` value. */
  function SameCount(o: Dict<string, Json>, r: Dict<string, Json>): nat {
    if o == [] then 0
    else
      var last := o[|o| - 1];
      SameCount(o[..|o| - 1], r) + (if HasKey(r, last.0) && PyEq(last.1, ValueAt(r, last.0)) then 1 else 0)
  }

  /** The comparison of two decoded values; anything but two dicts has no `keys()`. */
  function CompareSpec(original: Json, response: Json): Result<Comparison> {
    if !original.JObject? || !response.JObject? then Err(AttributeError)
    else
      var o, r := original.fields, response.fields;
      var missing, extra, different := Missing(o, r), Missing(r, o), Differences(o, r);
      Ok(Comparison(missing == [] && extra == [] && different == [], missing, extra, different, |o|, |r|,
                    SameCount(o, r)))
  }

  /** `compare_json(original, agent_response)`: the three passes over the keys. */
  method CompareJson(original: Json, response: Json) returns (result: Result<Comparison>)
    ensures result == CompareSpec(original, response)
  {
    if !original.JObject? || !response.JObject? {
      return Err(AttributeError);
    }
    var o, r := original.fields, response.fields;
    var missing := [];
    var i := 0;
    while i < |o|
      invariant 0 <= i <= |o|
      invariant missing == Missing(o[..i], r)
    {
      assert o[..i + 1][..i] == o[..i];
      if !HasKey(r, o[i].0) {
        missing := missing + [o[i].0];
      }
      i := i + 1;
    }
    assert o[..i] == o;
    var extra := [];
    var j := 0;
    while j < |r|
      invariant 0 <= j <= |r|
      invariant extra == Missing(r[..j], o)
    {
      assert r[..j + 1][..j] == r[..j];
      if !HasKey(o, r[j].0) {
        extra := extra + [r[j].0];
      }
      j := j + 1;
    }
    assert r[..j] == r;
    var different := [];
    var same := 0;
    i := 0;
    while i < |o|
      invariant 0 <= i <= |o|
      invariant different == Differences(o[..i], r) && same == SameCount(o[..i], r)
    {
      assert o[..i + 1][..i] == o[..i];
      var key := o[i].0;
      if HasKey(r, key) {
        if !PyEq(o[i].1, ValueAt(r, key)) {
          different := different + [Difference(key, o[i].1, ValueAt(r, key))];
        } else {
          same := same + 1;
        }
      }
      i := i + 1;
    }
    assert o[..i] == o;
    result := Ok(Comparison(|missing| == 0 && |extra| == 0 && |different| == 0, missing, extra, different, |o|, |r|,
                            same));
  }

  /** A key is reported missing exactly when some entry of `o` carries it and `r` has no entry for it. */
  lemma {:induction false} MissingIff(o: Dict<string, Json>, r: Dict<string, Json>, k: string)
    ensures k in Missing(o, r) <==> HasKey(o, k) && !HasKey(r, k)
  {
    MissingAt(o, r, k);
    HasKeyAt(o, k);
  }

  lemma {:induction false} MissingAt(o: Dict<string, Json>, r: Dict<string, Json>, k: string)
    ensures k in Missing(o, r) <==> (exists i :: 0 <= i < |o| && o[i].0 == k) && !HasKey(r, k)
  {
    if o != [] {
      var init, last := o[..|o| - 1], o[|o| - 1];
      MissingAt(init, r, k);
      var tail := if HasKey(r, last.0) then [] else [last.0];
      assert Missing(o, r) == Missing(init, r) + tail;
      if k in Missing(init, r) {
        var i :| 0 <= i < |init| && init[i].0 == k;
        assert o[i].0 == k;
      }
      if k in tail {
        assert o[|o| - 1].0 == k;
      }
      if (exists i :: 0 <= i < |o| && o[i].0 == k) && !HasKey(r, k) {
        var i :| 0 <= i < |o| && o[i].0 == k;
        if i < |init| {
          assert init[i].0 == k;
        } else {
          assert k in tail;
        }
      }
    }
  }

  /** Every reported difference is an entry of `o` whose key `r` holds with an unequal value, and each such entry is reported. */
  lemma {:induction false} DifferencesIff(o: Dict<string, Json>, r: Dict<string, Json>, d: Difference)
    ensures d in Differences(o, r)
            <==> (exists i :: 0 <= i < |o| && o[i] == (d.key, d.original))
                 && Get(r, d.key) == Some(d.response) && !PyEq(d.original, d.response)
  {
    if o != [] {
      var init := o[..|o| - 1];
      DifferencesIff(init, r, d);
      assert forall i :: 0 <= i < |init| ==> init[i] == o[i];
      var last := o[|o| - 1];
      assert HasKey(r, last.0) ==> Get(r, last.0) == Some(ValueAt(r, last.0));
      if (exists i :: 0 <= i < |o| && o[i] == (d.key, d.original)) && Get(r, d.key) == Some(d.response)
         && !PyEq(d.original, d.response) {
        var i :| 0 <= i < |o| && o[i] == (d.key, d.original);
        if i < |init| {
          assert init[i] == (d.key, d.original);
        }
      }
    }
  }

  /** Each entry of `o` is exactly one of missing, different or identical. */
  lemma {:induction false} KeysPartitioned(o: Dict<string, Json>, r: Dict<string, Json>)
    ensures |Missing(o, r)| + |Differences(o, r)| + SameCount(o, r) == |o|
  {
    if o != [] {
      KeysPartitioned(o[..|o| - 1], r);
    }
  }

  /** No key is missing exactly when every entry's key is present in `r`. */
  lemma {:induction false} NoneMissing(o: Dict<string, Json>, r: Dict<string, Json>)
    ensures Missing(o, r) == [] <==> forall i :: 0 <= i < |o| ==> HasKey(r, o[i].0)
  {
    if o != [] {
      var init := o[..|o| - 1];
      NoneMissing(init, r);
      assert forall i :: 0 <= i < |init| ==> init[i] == o[i];
    }
  }

  /** No value differs exactly when every entry whose key `r` has is `==` to `r`'s value. */
  lemma {:induction false} NoneDifferent(o: Dict<string, Json>, r: Dict<string, Json>)
    ensures Differences(o, r) == []
            <==> forall i :: 0 <= i < |o| && HasKey(r, o[i].0) ==> PyEq(o[i].1, ValueAt(r, o[i].0))
  {
    if o != [] {
      var init := o[..|o| - 1];
      NoneDifferent(init, r);
      assert forall i :: 0 <= i < |init| ==> init[i] == o[i];
    }
  }

  /** `FieldsIn`, entry by entry. */
  lemma {:induction false} FieldsInEach(o: Dict<string, Json>, r: Dict<string, Json>)
    ensures FieldsIn(o, r) <==> forall i :: 0 <= i < |o| ==> HasKey(r, o[i].0) && PyEq(o[i].1, ValueAt(r, o[i].0))
  {
    if o != [] {
      FieldsInEach(o[1..], r);
      assert forall i :: 1 <= i < |o| ==> o[1..][i - 1] == o[i];
    }
  }

  /** The keys of a dict, as a set. */
  ghost function KeySet(d: Dict<string, Json>): set<string> {
    if d == [] then {} else {d[0].0} + KeySet(d[1..])
  }

  lemma {:induction false} KeySetHas(d: Dict<string, Json>, k: string)
    ensures k in KeySet(d) <==> HasKey(d, k)
  {
    if d != [] {
      KeySetHas(d[1..], k);
    }
  }

  /** A dict has as many entries as distinct keys. */
  lemma {:induction false} KeySetSize(d: Dict<string, Json>)
    requires UniqueKeys(d)
    ensures |KeySet(d)| == |d|
  {
    if d != [] {
      KeySetHas(d[1..], d[0].0);
      KeySetSize(d[1..]);
    }
  }

  /** The keys of `o` lie among those of `r` exactly when each entry of `o` has its key in `r`. */
  lemma {:induction false} KeySetSub(o: Dict<string, Json>, r: Dict<string, Json>)
    ensures KeySet(o) <= KeySet(r) <==> forall i :: 0 <= i < |o| ==> HasKey(r, o[i].0)
  {
    forall k ensures k in KeySet(o) <==> HasKey(o, k) { KeySetHas(o, k); }
    forall k ensures k in KeySet(r) <==> HasKey(r, k) { KeySetHas(r, k); }
    forall k ensures HasKey(o, k) <==> exists i :: 0 <= i < |o| && o[i].0 == k { HasKeyAt(o, k); }
  }

  /**
   * The verdict of two dicts is Python's `==` on them: the same key set and
   * equal values key by key (each dict with distinct keys, as decoding makes them).
   */
  lemma {:induction false} IdenticalIffEqual(o: Dict<string, Json>, r: Dict<string, Json>)
    requires UniqueKeys(o) && UniqueKeys(r)
    ensures CompareSpec(JObject(o), JObject(r)).Ok?
    ensures CompareSpec(JObject(o), JObject(r)).value.identical <==> PyEq(JObject(o), JObject(r))
  {
    var c := CompareSpec(JObject(o), JObject(r)).value;
    assert c.identical <==> Missing(o, r) == [] && Missing(r, o) == [] && Differences(o, r) == [];
    NoneMissing(o, r);
    NoneMissing(r, o);
    NoneDifferent(o, r);
    FieldsInEach(o, r);
    KeySetSub(o, r);
    KeySetSub(r, o);
    KeySetSize(o);
    KeySetSize(r);
    assert PyEq(JObject(o), JObject(r)) <==> |o| == |r| && FieldsIn(o, r);
    if c.identical {
      assert KeySet(o) == KeySet(r);
    }
    if PyEq(JObject(o), JObject(r)) {
      SubsetSameSize(KeySet(o), KeySet(r));
      assert KeySet(r) <= KeySet(o);
    }
  }

  /** `stats` counts the entries of each side and the identical keys, which with the differences make up the shared ones. */
  lemma {:induction false} StatsCount(original: Json, response: Json)
    requires original.JObject? && response.JObject?
    ensures var c := CompareSpec(original, response).value;
            && c.originalKeys == |original.fields| && c.responseKeys == |response.fields|
            && c.identicalKeys + |c.differentValues| == c.originalKeys - |c.missingKeys|
  {
    KeysPartitioned(original.fields, response.fields);
  }

  // ---------------------------------------------------------------------------
  // load_agent_response
  // ---------------------------------------------------------------------------

  /** The answer text once stripped of white space and of a ```` ```json ```` or ```` ``` ```` fence. */
  function Unfenced(text: string): string {
    var c0 := Strip(text);
    var c1 := if StartsWith(c0, "```json") then c0[7..] else c0;
    var c2 := if StartsWith(c1, "```") then c1[3..] else c1;
    var c3 := if EndsWith(c2, "```") then c2[..|c2| - 3] else c2;
    Strip(c3)
  }

  /** `load_agent_response`, given the file's text: the fence removed by successive reassignments, then decoded. */
  method LoadAgentResponse(text: string, decode: Decoder) returns (r: Result<Json>)
    ensures r == Loads(decode, JStr(Unfenced(text)))
  {
    var content := Strip(text);
    if StartsWith(content, "```json") {
      content := content[7..];
    }
    if StartsWith(content, "```") {
      content := content[3..];
    }
    if EndsWith(content, "```") {
      content := content[..|content| - 3];
    }
    content := Strip(content);
    r := Loads(decode, JStr(content));
  }

  /** A text with no white space at either end. */
  predicate Trimmed(s: string) {
    s == [] || (!IsSpace(s[0]) && !IsSpace(s[|s| - 1]))
  }

  /** One line break around a trimmed text is stripped away. */
  lemma {:induction false} StripNewlines(s: string)
    requires Trimmed(s)
    ensures Strip("\n" + s + "\n") == s
  {
    var t := "\n" + s + "\n";
    assert t[0] == '\n' && t[|t| - 1] == '\n';
    if s == [] {
      assert SkipSpace(t, 1) == SkipSpace(t, 2) == 2;
    } else {
      assert t[1] == s[0] && t[|s|] == s[|s| - 1];
      assert SkipSpace(t, 0) == SkipSpace(t, 1) == 1;
      assert TrimEnd(t, 1, |s| + 2) == TrimEnd(t, 1, |s| + 1) == |s| + 1;
      assert t[1..|s| + 1] == s;
    }
  }

  /** A ```` ```json ```` fenced answer gives back the text inside the fence. */
  lemma {:induction false} JsonFencedAnswer(s: string)
    requires Trimmed(s)
    ensures Unfenced("```json\n" + s + "\n```") == s
  {
    var f := "```json\n" + s + "\n```";
    StripStripped(f);
    assert f[..7] == "```json";
    var c1 := f[7..];
    assert c1 == "\n" + s + "\n```";
    assert c1[0] == '\n';
    assert !StartsWith(c1, "```");
    assert c1[|c1| - 3..] == "```";
    assert c1[..|c1| - 3] == "\n" + s + "\n";
    StripNewlines(s);
  }

  /** So does an answer in a bare ```` ``` ```` fence. */
  lemma {:induction false} BareFencedAnswer(s: string)
    requires Trimmed(s)
    ensures Unfenced("```\n" + s + "\n```") == s
  {
    var g := "```\n" + s + "\n```";
    StripStripped(g);
    assert !StartsWith(g, "```json") by { assert g[3] == '\n'; }
    assert g[..3] == "```";
    var c2 := g[3..];
    assert c2 == "\n" + s + "\n```";
    assert c2[|c2| - 3..] == "```";
    assert c2[..|c2| - 3] == "\n" + s + "\n";
    StripNewlines(s);
  }

  /** An answer without a fence is decoded as it is. */
  lemma {:induction false} UnfencedAnswer(s: string)
    requires Trimmed(s) && !StartsWith(s, "```") && !EndsWith(s, "```")
    ensures Unfenced(s) == s
  {
    StripStripped(s);
  }

  // ---------------------------------------------------------------------------
  // load_latest_mcp_json
  // ---------------------------------------------------------------------------

  /**
   * `load_latest_mcp_json(ticker)` on the log directory: `None` is the exit
   * taken when no file matches; otherwise the last line of the newest file is
   * decoded and `response["content"][0]["text"]` is decoded in turn, any
   * missing piece raising.
   */
  function LoadLatestMcpJson(fs: FileSystem, ticker: string, decode: Decoder): (r: Result<Option<Json>>)
    ensures r == Ok(None) <==> LogReader.TickerFiles(fs, ticker) == []
  {
    match LogReader.LatestFile(fs, ticker)
    case None => Ok(None)
    case Some(p) =>
      var lines := Lines(fs, p);
      if lines == [] then Err(IndexError)
      else
        var entry :- Loads(decode, JStr(lines[|lines| - 1]));
        var raw :- Subscript(entry, "response");
        var content :- Subscript(raw, "content");
        var first :- First(content);
        var text :- Subscript(first, "text");
        var data :- Loads(decode, text);
        Ok(Some(data))
  }

  /**
   * Where the strict loader finds a payload, the agent-side reader finds the
   * same one, given that the empty text does not decode.
   */
  lemma {:induction false} LoaderAgreesWithReader(fs: FileSystem, ticker: string, decode: Decoder, v: Json)
    requires decode("").None?
    requires LoadLatestMcpJson(fs, ticker, decode) == Ok(Some(v))
    ensures LogReader.ReadLatestMcpResponse(fs, ticker, decode) == Ok(v)
  {
    var p := LogReader.LatestFile(fs, ticker).value;
    var lines := Lines(fs, p);
    var entry := decode(lines[|lines| - 1]).value;
    var raw := Subscript(entry, "response").value;
    StrictUnwrapAgrees(raw, decode, v);
    assert LogReader.ReadRecord(lines[|lines| - 1], decode) == Ok(v);
  }

  /** The strict path through a response (`content`, its first item, its `text`) is also the one the reader takes. */
  lemma {:induction false} StrictUnwrapAgrees(raw: Json, decode: Decoder, v: Json)
    requires decode("").None?
    requires var content := Subscript(raw, "content");
             && content.Ok? && First(content.value).Ok? && Subscript(First(content.value).value, "text").Ok?
             && Loads(decode, Subscript(First(content.value).value, "text").value) == Ok(v)
    ensures LogReader.Unwrap(raw, decode) == Ok(v)
  {
    HasKeyIn(raw.fields, "content");
    var content := Subscript(raw, "content").value;
    var first := First(content).value;
    var text := Subscript(first, "text").value;
    assert text.JStr? && text.s != [];
  }
}
