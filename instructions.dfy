/**
 * The deterministic helpers of the analysis pipeline (`other_agent.py`):
 * the code check of the Stage-0 JSON, the `- **key**: value` metadata of an
 * instruction file, the resolution of a versioned instruction file name, and
 * the modification-time rule that decides when the instructions are reloaded.
 */
module Instructions {
  import opened Wrappers
  import opened Dict
  import opened Text
  import opened Values
  import opened Files

  // ---------------------------------------------------------------------------
  // _validate_stage_0_json
  // ---------------------------------------------------------------------------

  /** `s[i..j]` is a non-empty run of white space (`\s+`). */
  predicate Spaces(s: string, i: nat, j: nat) {
    i < j <= |s| && forall m :: i <= m < j ==> IsSpace(s[m])
  }

  /** `s[i..j]` holds no line break (`.*`). */
  predicate NoBreak(s: string, i: nat, j: nat) {
    i <= j <= |s| && forall m :: i <= m < j ==> s[m] != '\n'
  }

  /**
   * `s[..n]` is `#`, spaces, any text, spaces, `(`, any text, `)`, spaces,
   * `-`, spaces, any text, with the pieces cut at `a` to `f`.
   */
  predicate TitleAt(s: string, n: nat, a: nat, b: nat, c: nat, d: nat, e: nat, f: nat) {
    n <= |s| && 0 < n && s[0] == '#' && Spaces(s, 1, a) && NoBreak(s, a, b) && Spaces(s, b, c)
    && c < n && s[c] == '(' && NoBreak(s, c + 1, d) && d < n && s[d] == ')' && Spaces(s, d + 1, e)
    && e < n && s[e] == '-' && Spaces(s, e + 1, f) && NoBreak(s, f, n)
  }

  predicate TitleUpTo(s: string, n: nat)
    requires n <= |s|
  {
    exists a: nat, b: nat, c: nat, d: nat, e: nat, f: nat
      | a <= n && b <= n && c <= n && d <= n && e <= n && f <= n :: TitleAt(s, n, a, b, c, d, e, f)
  }

  /**
   * `re.match(r"^#\s+.*\s+\(.*\)\s+-\s+.*$", s)`: the whole title has the
   * shape, or all of it but a final line break (where `$` also matches).
   */
  predicate TitleMatches(s: string) {
    TitleUpTo(s, |s|) || (s != [] && s[|s| - 1] == '\n' && TitleUpTo(s, |s| - 1))
  }

  /**
   * `# name (ticker) - rest` has the shape, whatever the three parts, as long
   * as none breaks the line: the documented `# Apple Inc. (AAPL) - 投資分析報告`
   * is one such title.
   */
  lemma {:induction false} TitleOfParts(name: string, ticker: string, rest: string)
    requires '\n' !in name && '\n' !in ticker && '\n' !in rest
    ensures TitleMatches("# " + name + " (" + ticker + ") - " + rest)
  {
    var head := "# " + name + " (";
    var mid := head + ticker + ") - ";
    var s := mid + rest;
    var b := 2 + |name|;
    var d := b + 2 + |ticker|;
    assert s[0] == '#' && s[1] == ' ' && s[b] == ' ' && s[b + 1] == '(';
    assert s[d] == ')' && s[d + 1] == ' ' && s[d + 2] == '-' && s[d + 3] == ' ';
    forall m | 2 <= m < b ensures s[m] != '\n' {
      assert s[m] == name[m - 2];
    }
    forall m | b + 2 <= m < d ensures s[m] != '\n' {
      assert s[m] == ticker[m - b - 2];
    }
    forall m | d + 4 <= m < |s| ensures s[m] != '\n' {
      assert s[m] == rest[m - d - 4];
    }
    assert TitleAt(s, |s|, 2, b, b + 1, d, d + 2, d + 4);
  }

  /** A title without parentheses never has the shape. */
  lemma {:induction false} TitleNeedsParentheses(s: string)
    requires '(' !in s
    ensures !TitleMatches(s)
  {
    forall n: nat, a: nat, b: nat, c: nat, d: nat, e: nat, f: nat | n <= |s| ensures !TitleAt(s, n, a, b, c, d, e, f) {
      if c < n <= |s| {
        assert s[c] in s;
      }
    }
  }

  const RequiredSections: seq<string> := ["Part A:", "Part B:", "Appendix", "目錄"]

  /** The required sections the table of contents does not contain, in their order. */
  function MissingSections(toc: string): (r: seq<string>)
    ensures forall x :: x in r <==> x in RequiredSections && !Contains(toc, x)
  {
    MissingAmong(RequiredSections, toc)
  }

  function MissingAmong(sections: seq<string>, toc: string): (r: seq<string>)
    ensures forall x :: x in r <==> x in sections && !Contains(toc, x)
  {
    if sections == [] then []
    else
      var last := sections[|sections| - 1];
      var init := MissingAmong(sections[..|sections| - 1], toc);
      assert forall x :: x in sections <==> x in sections[..|sections| - 1] || x == last;
      init + (if Contains(toc, last) then [] else [last])
  }

  /** `repr()` of a list of strings that hold no quote or backslash. */
  function ListRepr(items: seq<string>): string {
    "[" + Join(", ", seq(|items|, i requires 0 <= i < |items| => "'" + items[i] + "'")) + "]"
  }

  // Each message below is one literal in the source. Its opening words are a
  // separate literal here only so that `MessagesDistinct` can read the
  // characters that tell the messages apart from a short string.
  function TitleError(title: string): string {
    "❌ Invalid" + " 'report_title': '" + title + "'. Must match format '# Company (Ticker) - ...'"
  }

  function SectionsError(missing: seq<string>): string {
    "❌ Missing" + " sections in 'table_of_contents': " + ListRepr(missing)
  }

  const BoldError := "❌ Markdown bold" + " syntax '**' found. Use Clean Text format."
  const ListError := "❌ Markdown list" + " syntax '- ' or '* ' found in TOC. Use indented numbers (e.g., '   1.1 ...')."

  /** A table-of-contents line that, stripped, starts as a Markdown list item. */
  predicate IsBullet(line: string) {
    StartsWith(Strip(line), "- ") || StartsWith(Strip(line), "* ")
  }

  predicate HasBulletLine(toc: string) {
    exists line :: line in Split(toc, '\n') && IsBullet(line)
  }

  /**
   * The errors collected for a title and a table of contents, in the order
   * of the checks.
   */
  function Stage0Errors(title: string, toc: string): (r: seq<string>)
    ensures |r| <= 4
  {
    TitleErrors(title) + SectionsErrors(toc) + BoldErrors(title, toc) + ListErrors(toc)
  }

  function TitleErrors(title: string): seq<string> {
    if TitleMatches(title) then [] else [TitleError(title)]
  }

  function SectionsErrors(toc: string): seq<string> {
    var missing := MissingSections(toc);
    if missing == [] then [] else [SectionsError(missing)]
  }

  function BoldErrors(title: string, toc: string): seq<string> {
    if Contains(toc, "**") || Contains(title, "**") then [BoldError] else []
  }

  function ListErrors(toc: string): seq<string> {
    if HasBulletLine(toc) then [ListError] else []
  }

  /** The four messages differ from each other, whatever the title and the missing sections. */
  lemma {:induction false} MessagesDistinct(title: string, missing: seq<string>)
    ensures TitleError(title)[2] == 'I' && SectionsError(missing)[2] == 'M' && BoldError[2] == 'M' && ListError[2] == 'M'
    ensures SectionsError(missing)[3] == 'i' && BoldError[3] == 'a' && ListError[3] == 'a'
    ensures BoldError[11] == 'b' && ListError[11] == 'l'
  {
  }

  lemma {:induction false} InFour<T>(a: seq<T>, b: seq<T>, c: seq<T>, d: seq<T>, x: T)
    ensures x in a + b + c + d <==> x in a || x in b || x in c || x in d
  {
  }

  /** Each check adds its error exactly when it fails, and every error comes from one of them. */
  lemma {:induction false} Stage0ErrorsIff(title: string, toc: string)
    ensures var r := Stage0Errors(title, toc);
            && (TitleError(title) in r <==> !TitleMatches(title))
            && ((exists m :: SectionsError(m) in r) <==> MissingSections(toc) != [])
            && (BoldError in r <==> Contains(toc, "**") || Contains(title, "**"))
            && (ListError in r <==> HasBulletLine(toc))
            && (r == [] <==> TitleMatches(title) && MissingSections(toc) == [] && !Contains(toc, "**")
                             && !Contains(title, "**") && !HasBulletLine(toc))
  {
    var a, b, c, d := TitleErrors(title), SectionsErrors(toc), BoldErrors(title, toc), ListErrors(toc);
    var missing := MissingSections(toc);
    MessagesDistinct(title, missing);
    InFour(a, b, c, d, TitleError(title));
    InFour(a, b, c, d, BoldError);
    InFour(a, b, c, d, ListError);
    forall m ensures SectionsError(m) in a + b + c + d <==> SectionsError(m) in b {
      MessagesDistinct(title, m);
      InFour(a, b, c, d, SectionsError(m));
    }
    if missing != [] {
      assert SectionsError(missing) in b;
    }
  }

  /**
   * The check of a decoded Stage-0 JSON: missing fields count as empty
   * strings; a value that is not a dict, or a title or table of contents
   * that is not a string, raises.
   */
  function Stage0Verdict(data: Json): Result<(bool, string)> {
    var title :- GetOr(data, "report_title", JStr(""));
    if !title.JStr? then Err(TypeError)
    else
      var toc :- GetOr(data, "table_of_contents", JStr(""));
      if !toc.JStr? then (if toc.JList? || toc.JObject? then Err(AttributeError) else Err(TypeError))
      else
        var errors := Stage0Errors(title.s, toc.s);
        if errors == [] then Ok((true, "PASS")) else Ok((false, Join("\n", errors)))
  }

  /** The line loop: true at the first line that is a list item, which ends the scan. */
  method ScanForBullet(lines: seq<string>) returns (found: bool)
    ensures found <==> exists line :: line in lines && IsBullet(line)
  {
    var i := 0;
    while i < |lines|
      invariant 0 <= i <= |lines|
      invariant forall k :: 0 <= k < i ==> !IsBullet(lines[k])
    {
      if IsBullet(lines[i]) {
        assert lines[i] in lines;
        return true;
      }
      i := i + 1;
    }
    assert forall line :: line in lines ==> exists k :: 0 <= k < |lines| && lines[k] == line;
    return false;
  }

  /** `_validate_stage_0_json(data)`: the checks in turn, the line scan stopping at the first list item. */
  method ValidateStage0Json(data: Json) returns (r: Result<(bool, string)>)
    ensures r == Stage0Verdict(data)
  {
    var t := GetOr(data, "report_title", JStr(""));
    if t.Err? {
      return Err(t.error);
    }
    var title := t.value;
    if !title.JStr? {
      return Err(TypeError);
    }
    var c := GetOr(data, "table_of_contents", JStr(""));
    var toc := c.value;
    if !toc.JStr? {
      return if toc.JList? || toc.JObject? then Err(AttributeError) else Err(TypeError);
    }
    var errors := [];
    if !TitleMatches(title.s) {
      errors := errors + [TitleError(title.s)];
    }
    assert errors == TitleErrors(title.s);
    var missing := MissingSections(toc.s);
    if missing != [] {
      errors := errors + [SectionsError(missing)];
    }
    assert errors == TitleErrors(title.s) + SectionsErrors(toc.s);
    if Contains(toc.s, "**") || Contains(title.s, "**") {
      errors := errors + [BoldError];
    }
    assert errors == TitleErrors(title.s) + SectionsErrors(toc.s) + BoldErrors(title.s, toc.s);
    var listed := ScanForBullet(Split(toc.s, '\n'));
    if listed {
      errors := errors + [ListError];
    }
    assert errors == Stage0Errors(title.s, toc.s);
    if errors != [] {
      return Ok((false, Join("\n", errors)));
    }
    return Ok((true, "PASS"));
  }

  /**
   * A Stage-0 JSON passes exactly when its title has the shape, its table of
   * contents names every required section, neither holds `**` and no line of
   * the table of contents is a list item; otherwise the message lists the errors.
   */
  lemma {:induction false} Stage0PassIff(fields: Dict<string, Json>, title: string, toc: string)
    requires Get(fields, "report_title") == Some(JStr(title)) && Get(fields, "table_of_contents") == Some(JStr(toc))
    ensures var r := Stage0Verdict(JObject(fields));
            && r.Ok?
            && (r.value.0 <==> TitleMatches(title) && MissingSections(toc) == [] && !Contains(toc, "**")
                               && !Contains(title, "**") && !HasBulletLine(toc))
            && (r.value.0 ==> r.value.1 == "PASS")
            && (!r.value.0 ==> r.value.1 == Join("\n", Stage0Errors(title, toc)))
  {
    Stage0ErrorsIff(title, toc);
  }

  /** The required sections that are all absent are all named, in order. */
  lemma {:induction false} AllAbsent(sections: seq<string>, toc: string)
    requires forall k :: 0 <= k < |sections| ==> !Contains(toc, sections[k])
    ensures MissingAmong(sections, toc) == sections
  {
    if sections != [] {
      AllAbsent(sections[..|sections| - 1], toc);
      assert sections[..|sections| - 1] + [sections[|sections| - 1]] == sections;
    }
  }

  /** A dict without the two fields fails the title check and names every required section. */
  lemma {:induction false} EmptyStage0()
    ensures Stage0Errors("", "") == [TitleError(""), SectionsError(RequiredSections)]
    ensures Stage0Verdict(JObject([])) == Ok((false, Join("\n", Stage0Errors("", ""))))
  {
    assert !TitleMatches("");
    EmptySections();
    EmptyBullets();
    assert !Contains("", "**");
    var errs := [TitleError("")] + [SectionsError(RequiredSections)] + [] + [];
    assert Stage0Errors("", "") == errs;
    assert !HasKey<string, Json>([], "report_title") && !HasKey<string, Json>([], "table_of_contents");
    assert errs != [];
  }

  lemma {:induction false} EmptySections()
    ensures SectionsErrors("") == [SectionsError(RequiredSections)]
  {
    forall k | 0 <= k < |RequiredSections| ensures !Contains("", RequiredSections[k]) {
      assert RequiredSections[k] != [];
    }
    AllAbsent(RequiredSections, "");
  }

  lemma {:induction false} EmptyBullets()
    ensures !HasBulletLine("")
  {
    assert Split("", '\n') == [""];
    assert !IsBullet("") by {
      assert Strip("") == "";
    }
  }

  // ---------------------------------------------------------------------------
  // parse_markdown_metadata
  // ---------------------------------------------------------------------------

  /** The first index at or after `i` holding `*` or a line break, or `|s|`. */
  function StopAt(s: string, i: nat): (k: nat)
    requires i <= |s|
    ensures i <= k <= |s|
    ensures forall m :: i <= m < k ==> s[m] != '*' && s[m] != '\n'
    ensures k < |s| ==> s[k] == '*' || s[k] == '\n'
    decreases |s| - i
  {
    if i == |s| || s[i] == '*' || s[i] == '\n' then i else StopAt(s, i + 1)
  }

  /**
   * The cuts of a match of `^[-*]\s+\*\*([^*\n]+)\*\*:\s*(.+)$` on a line
   * without line breaks: the bullet, spaces up to `p`, `**`, the key up to
   * `q`, `**:`, spaces up to `r`, and the value to the end.
   */
  predicate MetaAt(s: string, p: nat, q: nat, r: nat) {
    0 < |s| && (s[0] == '-' || s[0] == '*') && Spaces(s, 1, p) && p + 2 < q && q + 3 <= r < |s|
    && s[p..p + 2] == "**" && (forall m :: p + 2 <= m < q ==> s[m] != '*' && s[m] != '\n') && s[q..q + 3] == "**:" && (forall m :: q + 3 <= m < r ==> IsSpace(s[m]))
    && NoBreak(s, r, |s|)
  }

  /**
   * The two groups of the match, as the regex engine finds them: the spaces
   * before the value are taken greedily, giving one back when nothing else
   * is left for `.+`.
   */
  function MatchMeta(s: string): (g: Option<(string, string)>)
    requires '\n' !in s
  {
    if s == [] || (s[0] != '-' && s[0] != '*') then None
    else
      var p := SkipSpace(s, 1);
      if p == 1 || p + 2 > |s| || s[p..p + 2] != "**" then None
      else
        var q := StopAt(s, p + 2);
        if q == p + 2 || q + 3 > |s| || s[q..q + 3] != "**:" then None
        else
          var r := SkipSpace(s, q + 3);
          if r < |s| then Some((s[p + 2..q], s[r..]))
          else if q + 3 < |s| then Some((s[p + 2..q], s[|s| - 1..]))
          else None
  }

  /** Each group found is cut out of a match of the pattern. */
  lemma {:induction false} MatchMetaSound(s: string)
    requires '\n' !in s && MatchMeta(s).Some?
    ensures exists p: nat, q: nat, r: nat :: MetaAt(s, p, q, r) && MatchMeta(s).value == (s[p + 2..q], s[r..])
  {
    var p := SkipSpace(s, 1);
    SkipSpaceSpec(s, 1);
    var q := StopAt(s, p + 2);
    var r0 := SkipSpace(s, q + 3);
    SkipSpaceSpec(s, q + 3);
    var r := if r0 < |s| then r0 else |s| - 1;
    assert forall m :: 0 <= m < |s| ==> s[m] != '\n' by {
      forall m | 0 <= m < |s| ensures s[m] != '\n' { assert s[m] in s; }
    }
    assert MetaAt(s, p, q, r);
  }

  /** Every line with the shape is matched, with the key the pattern delimits. */
  lemma {:induction false} MatchMetaComplete(s: string, p: nat, q: nat, r: nat)
    requires '\n' !in s && MetaAt(s, p, q, r)
    ensures MatchMeta(s).Some? && MatchMeta(s).value.0 == s[p + 2..q]
  {
    SkipSpaceTo(s, 1, p);
    StopAtTo(s, p + 2, q);
    SkipSpaceSpec(s, q + 3);
  }

  lemma {:induction false} StopAtTo(s: string, i: nat, k: nat)
    requires i <= k < |s| && (s[k] == '*' || s[k] == '\n')
    requires forall m :: i <= m < k ==> s[m] != '*' && s[m] != '\n'
    ensures StopAt(s, i) == k
    decreases k - i
  {
    if i < k {
      StopAtTo(s, i + 1, k);
    }
  }

  /** The lower-cased keys the parser recognises, and the field each one fills. */
  function FieldOf(key: string): Option<string> {
    if key in ["用途", "purpose", "description", "說明"] then Some("description")
    else if key in ["name", "名稱", "title"] then Some("name")
    else if key in ["alias", "aliases", "別名"] then Some("aliases")
    else None
  }

  /** `[a.strip() for a in value.split(',')]`. */
  function Aliases(value: string): (r: seq<Json>)
    ensures |r| == |Split(value, ',')|
    ensures forall k :: 0 <= k < |r| ==> r[k] == JStr(Strip(Split(value, ',')[k]))
  {
    var parts := Split(value, ',');
    seq(|parts|, k requires 0 <= k < |parts| => JStr(Strip(parts[k])))
  }

  /** The field a line sets and the value it sets it to, if the line is a recognised metadata line. */
  function Classify(line: string): Option<(string, Json)>
    requires '\n' !in line
  {
    var s := Strip(line);
    assert '\n' !in s by { StripInside(line); }
    match MatchMeta(s)
    case None => None
    case Some(g) =>
      var value := Strip(g.1);
      match FieldOf(Lower(g.0))
      case None => None
      case Some(f) => Some((f, if f == "aliases" then JList(Aliases(value)) else JStr(value)))
  }

  /** `strip()` keeps a part of the string. */
  lemma {:induction false} StripInside(s: string)
    ensures forall c :: c in Strip(s) ==> c in s
  {
    StripSpec(s);
    var i: nat, j: nat :| StrippedAt(s, i, j) && Strip(s) == s[i..j];
    forall c | c in Strip(s) ensures c in s {
      var k :| 0 <= k < |Strip(s)| && Strip(s)[k] == c;
      assert s[i + k] == c;
    }
  }

  /** The lines of `content`, as `split('\n')` cuts it. */
  predicate NoBreaks(lines: seq<string>) {
    forall k :: 0 <= k < |lines| ==> '\n' !in lines[k]
  }

  /** The fields the recognised lines set, in order, applied one after the other. */
  function Fill(cs: seq<Option<(string, Json)>>): (m: Dict<string, Json>) {
    if cs == [] then []
    else
      var m := Fill(cs[..|cs| - 1]);
      match cs[|cs| - 1]
      case None => m
      case Some(fv) => Put(m, fv.0, fv.1)
  }

  /** Assignment `i` sets `f` to `v` and no later one sets `f`. */
  predicate LastSets(cs: seq<Option<(string, Json)>>, i: nat, f: string, v: Json) {
    i < |cs| && cs[i] == Some((f, v)) && forall j :: i < j < |cs| ==> cs[j].None? || cs[j].value.0 != f
  }

  /** An assignment sequence fills key `f` with `v` exactly when its last assignment to `f` is `v`. */
  lemma {:induction false} FillLastWins(cs: seq<Option<(string, Json)>>, f: string, v: Json)
    ensures Get(Fill(cs), f) == Some(v) <==> exists i: nat :: LastSets(cs, i, f, v)
  {
    if cs != [] {
      var n := |cs| - 1;
      FillLastWins(cs[..n], f, v);
      if cs[n].Some? && cs[n].value.0 == f {
        FillLastSets(cs, f, v);
      } else {
        FillLastSkips(cs, cs[..n], f, v);
      }
    }
  }

  /** When the last assignment sets `f`, it is the one that counts. */
  lemma {:induction false} FillLastSets(cs: seq<Option<(string, Json)>>, f: string, v: Json)
    requires cs != [] && cs[|cs| - 1].Some? && cs[|cs| - 1].value.0 == f
    ensures Get(Fill(cs), f) == Some(v) <==> exists i: nat :: LastSets(cs, i, f, v)
  {
    var n := |cs| - 1;
    assert Get(Fill(cs), f) == Some(cs[n].value.1);
    if Get(Fill(cs), f) == Some(v) {
      assert LastSets(cs, n, f, v);
    }
    if exists i: nat :: LastSets(cs, i, f, v) {
      var i: nat :| LastSets(cs, i, f, v);
      assert i == n;
    }
  }

  /** When the last assignment does not set `f`, `f` is as the earlier ones leave it. */
  lemma {:induction false} FillLastSkips(cs: seq<Option<(string, Json)>>, init: seq<Option<(string, Json)>>, f: string, v: Json)
    requires cs != [] && init == cs[..|cs| - 1] && !(cs[|cs| - 1].Some? && cs[|cs| - 1].value.0 == f)
    ensures Get(Fill(cs), f) == Get(Fill(init), f)
    ensures (exists i: nat :: LastSets(cs, i, f, v)) <==> exists i: nat :: LastSets(init, i, f, v)
  {
    var n := |cs| - 1;
    if exists i: nat :: LastSets(cs, i, f, v) {
      var i: nat :| LastSets(cs, i, f, v);
      assert i < n;
      assert LastSets(init, i, f, v);
    }
    if exists i: nat :: LastSets(init, i, f, v) {
      var i: nat :| LastSets(init, i, f, v);
      assert LastSets(cs, i, f, v);
    }
  }

  /** Only the keys assigned are present. */
  lemma {:induction false} FillKeys(cs: seq<Option<(string, Json)>>, k: string)
    requires HasKey(Fill(cs), k)
    ensures exists i :: 0 <= i < |cs| && cs[i].Some? && cs[i].value.0 == k
  {
    var n := |cs| - 1;
    var init := cs[..n];
    if !(cs[n].Some? && cs[n].value.0 == k) {
      FillKeys(init, k);
      var i :| 0 <= i < |init| && init[i].Some? && init[i].value.0 == k;
      assert cs[i] == init[i];
    }
  }

  lemma {:induction false} FillUnique(cs: seq<Option<(string, Json)>>)
    ensures UniqueKeys(Fill(cs))
  {
    if cs != [] {
      FillUnique(cs[..|cs| - 1]);
    }
  }

  /** What each line sets, if anything. */
  function Classes(lines: seq<string>): (cs: seq<Option<(string, Json)>>)
    requires NoBreaks(lines)
    ensures |cs| == |lines| && forall k :: 0 <= k < |lines| ==> cs[k] == Classify(lines[k])
    ensures forall k :: 0 <= k < |cs| && cs[k].Some? ==> cs[k].value.0 in ["description", "name", "aliases"]
  {
    seq(|lines|, k requires 0 <= k < |lines| => Classify(lines[k]))
  }

  /** The metadata the lines give, each recognised line overriding what an earlier one set. */
  function MetadataOf(lines: seq<string>): (m: Dict<string, Json>)
    requires NoBreaks(lines)
    ensures UniqueKeys(m)
    ensures forall k :: HasKey(m, k) ==> k in ["description", "name", "aliases"]
  {
    FillUnique(Classes(lines));
    forall k | HasKey(Fill(Classes(lines)), k) ensures k in ["description", "name", "aliases"] {
      FillKeys(Classes(lines), k);
    }
    Fill(Classes(lines))
  }

  /** The lines examined: `content.split('\n')[:50]`. */
  function HeadLines(content: string): (lines: seq<string>)
    ensures NoBreaks(lines) && |lines| <= 50
  {
    var all := Split(content, '\n');
    if |all| <= 50 then all else all[..50]
  }

  /** `parse_markdown_metadata(content)`: the metadata dict, filled line by line. */
  method ParseMarkdownMetadata(content: string) returns (metadata: Dict<string, Json>)
    ensures metadata == MetadataOf(HeadLines(content))
  {
    var lines := HeadLines(content);
    metadata := [];
    var i := 0;
    while i < |lines|
      invariant 0 <= i <= |lines|
      invariant metadata == Fill(Classes(lines[..i]))
    {
      FillStep(lines, i);
      var line := lines[i];
      var s := Strip(line);
      StripInside(line);
      var g := MatchMeta(s);
      ghost var before := metadata;
      if g.Some? {
        var key := Lower(g.value.0);
        var value := Strip(g.value.1);
        if key in ["用途", "purpose", "description", "說明"] {
          metadata := Put(metadata, "description", JStr(value));
        } else if key in ["name", "名稱", "title"] {
          metadata := Put(metadata, "name", JStr(value));
        } else if key in ["alias", "aliases", "別名"] {
          metadata := Put(metadata, "aliases", JList(Aliases(value)));
        }
        assert Classify(line) == (match FieldOf(key)
                                  case None => None
                                  case Some(f) => Some((f, if f == "aliases" then JList(Aliases(value)) else JStr(value))));
      }
      assert metadata == (match Classify(line) case None => before case Some(fv) => Put(before, fv.0, fv.1));
      i := i + 1;
    }
    assert lines[..i] == lines;
  }

  lemma {:induction false} FillStep(lines: seq<string>, i: nat)
    requires NoBreaks(lines) && i < |lines|
    ensures Fill(Classes(lines[..i + 1]))
            == match Classify(lines[i])
               case None => Fill(Classes(lines[..i]))
               case Some(fv) => Put(Fill(Classes(lines[..i])), fv.0, fv.1)
  {
    assert lines[..i + 1][..i] == lines[..i];
    assert Classes(lines[..i + 1])[..i] == Classes(lines[..i]);
  }

  /**
   * A field's value comes from the last recognised line that sets it, and a
   * field no line sets is absent.
   */
  lemma {:induction false} LastLineWins(lines: seq<string>, f: string, v: Json)
    requires NoBreaks(lines)
    ensures Get(MetadataOf(lines), f) == Some(v) <==> exists i: nat :: LastSets(Classes(lines), i, f, v)
  {
    FillLastWins(Classes(lines), f, v);
  }

  /** Lines after the fiftieth are never read. */
  lemma {:induction false} OnlyFiftyLines(head: string, rest: string)
    requires |Split(head, '\n')| >= 50
    ensures HeadLines(head + "\n" + rest) == HeadLines(head)
  {
    SplitAround(head, '\n', rest);
    assert head + "\n" + rest == head + ['\n'] + rest;
    var a := Split(head, '\n');
    assert (a + Split(rest, '\n'))[..50] == a[..50];
  }

  /** A stripped string is its own strip. */
  lemma {:induction false} StripIdempotent(s: string)
    ensures Strip(Strip(s)) == Strip(s)
  {
    StripSpec(s);
    StripStripped(Strip(s));
  }

  /** Every alias is kept without white space at its ends, and the aliases are the comma-separated parts. */
  lemma {:induction false} AliasesStripped(value: string)
    ensures var r := Aliases(value);
            && |r| == |Split(value, ',')|
            && forall k :: 0 <= k < |r| ==> r[k].JStr? && Strip(r[k].s) == r[k].s && r[k].s == Strip(Split(value, ',')[k])
  {
    var parts := Split(value, ',');
    forall k | 0 <= k < |parts| ensures Strip(Strip(parts[k])) == Strip(parts[k]) {
      StripIdempotent(parts[k]);
    }
  }

  // ---------------------------------------------------------------------------
  // resolve_instruction_file
  // ---------------------------------------------------------------------------

  /** `filename.replace('.md', '')`. */
  function BaseName(filename: string): string {
    ReplaceAll(filename, ".md", "")
  }

  predicate IsCandidate(name: string, base: string) {
    StartsWith(name, base) && EndsWith(name, ".md")
  }

  /** The names in `dir`, in listing order, that start with `base` and end with `.md`. */
  function Candidates(fs: FileSystem, dir: string, base: string): (r: seq<string>)
    ensures forall n :: n in r <==> exists k :: 0 <= k < |fs| && fs[k].0 == Path(dir, n) && IsCandidate(n, base)
  {
    if fs == [] then []
    else
      var init := fs[..|fs| - 1];
      var p := fs[|fs| - 1].0;
      var r := Candidates(init, dir, base) + (if p.dir == dir && IsCandidate(p.name, base) then [p.name] else []);
      assert forall k :: 0 <= k < |init| ==> init[k] == fs[k];
      assert forall n :: (exists k :: 0 <= k < |fs| && fs[k].0 == Path(dir, n) && IsCandidate(n, base))
                         ==> (exists k :: 0 <= k < |init| && init[k].0 == Path(dir, n) && IsCandidate(n, base))
                             || (p == Path(dir, n) && IsCandidate(n, base));
      r
  }

  /** `sorted(names)[-1]`: the greatest name in code-point order. */
  function Greatest(names: seq<string>): (r: string)
    requires names != []
    ensures r in names && forall n :: n in names ==> n == r || Less(n, r)
  {
    if |names| == 1 then names[0]
    else
      var g := Greatest(names[1..]);
      assert forall n :: n in names ==> n == names[0] || n in names[1..];
      if Less(names[0], g) then g
      else
        AboveGreatest(names[0], g, names[1..]);
        names[0]
  }

  /** A name not below the greatest of the rest is the greatest of all. */
  lemma {:induction false} AboveGreatest(h: string, g: string, rest: seq<string>)
    requires g in rest && (forall n :: n in rest ==> n == g || Less(n, g)) && !Less(h, g)
    ensures forall n :: n in rest ==> n == h || Less(n, h)
  {
    if h != g {
      LessTotal(h, g);
      forall n | n in rest && n != g ensures Less(n, h) {
        LessTransitive(n, g, h);
      }
    }
  }

  /** The greatest name depends only on which names there are, not on the order of the listing. */
  lemma {:induction false} GreatestOrderFree(a: seq<string>, b: seq<string>)
    requires a != [] && b != [] && forall n :: n in a <==> n in b
    ensures Greatest(a) == Greatest(b)
  {
    var x, y := Greatest(a), Greatest(b);
    if x != y {
      assert Less(x, y) && Less(y, x);
      LessAsymmetric(x, y);
    }
  }

  /** Code-point order is not version order: a two-digit minor version sorts below a one-digit one. */
  lemma {:induction false} VersionsSortAsText()
    ensures Greatest(["guide_v3.10.0.md", "guide_v3.9.0.md"]) == "guide_v3.9.0.md"
  {
    assert Less("guide_v3.10.0.md", "guide_v3.9.0.md") by {
      var a, b := "guide_v3.10.0.md", "guide_v3.9.0.md";
      assert a[..9] == b[..9] && a[9] < b[9];
      LessPrefix(a, b, 9);
    }
  }

  /** Strings that agree up to `k` and differ at `k` are ordered by that character. */
  lemma {:induction false} LessPrefix(a: string, b: string, k: nat)
    requires k < |a| && k < |b| && a[..k] == b[..k] && a[k] < b[k]
    ensures Less(a, b)
  {
    if k > 0 {
      assert a[1..][..k - 1] == b[1..][..k - 1];
      LessPrefix(a[1..], b[1..], k - 1);
    }
  }

  /**
   * `resolve_instruction_file(dir, filename)`: the exact file when it
   * exists; otherwise the greatest versioned name that starts with the base
   * name; otherwise the exact path, left to fail later.
   */
  method ResolveInstructionFile(fs: FileSystem, dir: string, filename: string) returns (p: Path)
    ensures HasKey(fs, Path(dir, filename)) ==> p == Path(dir, filename)
    ensures !HasKey(fs, Path(dir, filename)) && Candidates(fs, dir, BaseName(filename)) == [] ==> p == Path(dir, filename)
    ensures !HasKey(fs, Path(dir, filename)) && Candidates(fs, dir, BaseName(filename)) != []
            ==> p == Path(dir, Greatest(Candidates(fs, dir, BaseName(filename))))
  {
    var exact := Path(dir, filename);
    if HasKey(fs, exact) {
      return exact;
    }
    var base := BaseName(filename);
    var candidates := [];
    var i := 0;
    while i < |fs|
      invariant 0 <= i <= |fs|
      invariant candidates == Candidates(fs[..i], dir, base)
    {
      assert fs[..i + 1][..i] == fs[..i];
      var f := fs[i].0;
      if f.dir == dir && IsCandidate(f.name, base) {
        candidates := candidates + [f.name];
      }
      i := i + 1;
    }
    assert fs[..i] == fs;
    if candidates != [] {
      return Path(dir, Greatest(candidates));
    }
    return exact;
  }

  /**
   * Resolution, stated whole: the answer is the exact path or a candidate in
   * the directory, and a candidate is chosen only when the exact file is
   * missing, it being greater than every other candidate.
   */
  lemma {:induction false} ResolvedFile(fs: FileSystem, dir: string, filename: string, n: string)
    requires !HasKey(fs, Path(dir, filename))
    requires n in Candidates(fs, dir, BaseName(filename))
    ensures var g := Greatest(Candidates(fs, dir, BaseName(filename)));
            && HasKey(fs, Path(dir, g)) && IsCandidate(g, BaseName(filename))
            && (n == g || Less(n, g))
  {
    var g := Greatest(Candidates(fs, dir, BaseName(filename)));
    var k :| 0 <= k < |fs| && fs[k].0 == Path(dir, g) && IsCandidate(g, BaseName(filename));
    HasKeyAt(fs, Path(dir, g));
  }

  // ---------------------------------------------------------------------------
  // has_instructions_changed and get_instructions
  // ---------------------------------------------------------------------------

  /**
   * The reload rule: nothing recorded yet, a different number of
   * instruction files, or a file that is new or has another modification time.
   */
  predicate Changed(stored: map<string, real>, current: map<string, real>) {
    stored == map[] || |stored| != |current| || exists f :: f in current && (f !in stored || stored[f] != current[f])
  }

  /** The files count as unchanged exactly when a non-empty record equals the current times. */
  lemma {:induction false} UnchangedIff(stored: map<string, real>, current: map<string, real>)
    ensures !Changed(stored, current) <==> stored != map[] && stored == current
  {
    if !Changed(stored, current) {
      assert current.Keys <= stored.Keys;
      assert |current.Keys| == |current| && |stored.Keys| == |stored|;
      SubsetSameSize(current.Keys, stored.Keys);
      assert forall f :: f in stored ==> f in current && stored[f] == current[f];
    }
  }

  /** The module globals `_instruction_cache` and `_instruction_mtime`. */
  class InstructionCache {
    var cache: Option<string>
    var mtimes: map<string, real>

    constructor ()
      ensures cache == None && mtimes == map[]
    {
      cache := None;
      mtimes := map[];
    }

    /** `has_instructions_changed`, given the current modification times of the `.md` files. */
    method HasInstructionsChanged(current: map<string, real>) returns (changed: bool)
      ensures changed == Changed(mtimes, current)
    {
      if mtimes == map[] || |mtimes| != |current| {
        return true;
      }
      var pending := current.Keys;
      while pending != {}
        invariant pending <= current.Keys
        invariant forall f :: f in current && f !in pending ==> f in mtimes && mtimes[f] == current[f]
        decreases |pending|
      {
        var f :| f in pending;
        if f !in mtimes || mtimes[f] != current[f] {
          return true;
        }
        pending := pending - {f};
      }
      return false;
    }

    /**
     * `get_instructions`: reload, and record the current times, when forced,
     * when nothing is cached, or when detection is on and the files changed;
     * otherwise answer from the cache.  `loaded` is what loading the files
     * now gives.
     */
    method GetInstructions(forceReload: bool, autoDetect: bool, current: map<string, real>, loaded: string)
      returns (text: string)
      modifies this
      ensures var reload := forceReload || old(cache).None? || (autoDetect && Changed(old(mtimes), current));
              && (reload ==> cache == Some(loaded) && mtimes == current && text == loaded)
              && (!reload ==> cache == old(cache) && mtimes == old(mtimes) && text == old(cache).value)
    {
      var needReload := forceReload || cache.None?;
      if !needReload && autoDetect {
        needReload := HasInstructionsChanged(current);
      }
      if needReload {
        cache := Some(loaded);
        mtimes := current;
      }
      text := cache.value;
    }
  }

  /**
   * After a load that recorded at least one file, an auto-detecting call
   * with the same times answers from the cache; with no instruction file
   * at all, every auto-detecting call reloads.
   */
  lemma {:induction false} ReloadOnlyOnChange(current: map<string, real>)
    ensures current != map[] ==> !Changed(current, current)
    ensures forall stored :: Changed(stored, current) <==> stored == map[] || stored != current
  {
    forall stored ensures Changed(stored, current) <==> stored == map[] || stored != current {
      UnchangedIff(stored, current);
    }
  }
}
