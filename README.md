# adk-azure-agent: the log, verification and instruction core in Dafny

adk-azure-agent is an analyst agent built on Google ADK. It calls MCP tools for
market data and web search. Every tool call is appended as one JSON line to a
log file under `mcp_logs/`. Other parts of the agent read those logs back: the
number verifier checks that each figure in a drafted message comes from a
recent log, and the key-message validator wraps that verdict with a length
check. The log reader prints the latest record, and the comparison script
diffs a logged answer against the agent's own JSON. The orchestrator
(`other_agent.py`) validates the stage-0 plan, reads metadata out of
instruction files, resolves versioned instruction file names and caches the
instructions it loads.

This project models that core:

- the data it handles (`Json` values, log paths, a log directory as an ordered
  map from path to lines, date-times);
- each operation, as a function or as a method with loops proved equal to a
  specification function;
- the properties the code promises, as lemmas.

Modules:

| module | file | models |
|---|---|---|
| `Wrappers`, `Dict`, `Text`, `Numbers` | wrappers, dict, text, numbers | `Option`/`Result`, Python dict semantics (insertion order, overwrite in place), `str` methods, `float()` and `str()` of numbers |
| `Values`, `PyValues` | values, pyvalues | JSON values, and Python's `in`, `[]`, `.get`, `==` on them with the exceptions they raise; arbitrary Python values as responses |
| `Clock`, `Files` | clock, files | `datetime` (ordinal arithmetic, `strftime`, `strptime`, `isoformat`), log paths, `glob`, path order, `sorted(set(...))` |
| `Flatten`, `NumScan` | flatten, numscan | `flatten_json`, and `re.findall` of the number pattern |
| `PromptVerifier` | prompt_verifier | `get_recent_logs`, `_matches_tool`, `analyze_step2_logs`, `extract_data_for_prompt`, `verify_prompt_data` |
| `KeyMessage` | key_message | `validate_key_message` |
| `McpLogger` | mcp_logger | `McpCallLogger` and `get_mcp_logger` |
| `Recorder` | recorder | `mcp_toolset_wrapper.py`: the per-ticker `log_call`, `_serialize`, the patched `run_async` and `_get_declaration` |
| `LogReader` | log_reader | `read_latest_mcp_response`, `format_mcp_response` |
| `Compare` | compare | `load_latest_mcp_json`, `load_agent_response`, `compare_json` |
| `Instructions` | instructions | `_validate_stage_0_json`, `parse_markdown_metadata`, `resolve_instruction_file`, `has_instructions_changed`, `get_instructions` |

Parameters stand in for things the code gets from outside:

- the clock: one `now` per operation;
- the JSON text codec: `decode`/`encode`;
- the log directory's contents and the instruction directory's contents;
- the original tool call: its `Outcome`;
- the number formatting the log reader delegates to f-strings;
- modification times and loaded instruction text.

Apart from what "## Left out" lists, the model follows the code as written,
including these behaviours:

- A digit is any Unicode decimal digit (general category Nd), as `\d` in a
  `str` pattern, `float()`, `int()` and `strptime` read it (`Text.IsDigit`).
  Full-width `１２３` in a drafted message is a number to be sourced
  (`PromptVerifier.WideDigitsUnsourced`). `strptime("%Y%m%d%H%M%S")` reads
  some positions with `\d` and others with ASCII ranges (`Clock.StrptimeLayout`).
- `get_recent_logs` sorts by path, not by time.
- `extract_data_for_prompt` reads every line of a log, not only the last one.
- A present but falsy `ticker` argument hides `symbol`.
- The log reader's `mcp_{ticker}_*.jsonl` pattern never sees the per-ticker
  subdirectories the wrapper writes (`LogReader.SubdirectoryFilesUnseen`).
- Version names are sorted as text, so `v3.9.0` counts as later than `v3.10.0`
  (`Instructions.VersionsSortAsText`).
- With no `.md` files at all, auto-detection reloads on every call.

## Model

| member | source | states |
|---|---|---|
| Clock.ParseStamp | adk-azure-agent/my_agent/tools/prompt_verifier.py:54 | `strptime("%Y%m%d%H%M%S")` gives only real date-times with no microseconds, and only when the positions its pattern matches with ASCII ranges hold ASCII digits |
| Clock.WideYearStamp | adk-azure-agent/my_agent/tools/prompt_verifier.py:54 | a year written in full-width digits, which `%Y` reads with `\d`, parses like its ASCII spelling |
| Clock.WideMonthRefused | adk-azure-agent/my_agent/tools/prompt_verifier.py:54 | a full-width digit in the month, which `%m` matches only with ASCII ranges, makes the stamp refused |
| Clock.StampRoundTrip | adk-azure-agent/my_agent/tools/prompt_verifier.py:47-54 | the fourteen digits written by `strftime` parse back to the same date-time truncated to the second |
| Clock.MicrosOrder | adk-azure-agent/my_agent/tools/prompt_verifier.py:56 | comparing date-times (`file_dt > cutoff_time`) is comparing their microsecond counts, both ways |
| Clock.TruncatedMicros | adk-azure-agent/my_agent/mcp_toolset_wrapper.py:50 | a one-second stamp lies less than a second before the moment it was taken |
| Files.AppendLine | adk-azure-agent/my_agent/mcp_toolset_wrapper.py:78-79 | appending adds the line to one file and leaves every other file as it was |
| Files.Glob | adk-azure-agent/my_agent/tools/prompt_verifier.py:26-30 | `glob` lists exactly the files directly in the directory whose names match the pattern |
| Files.SortedSet | adk-azure-agent/my_agent/tools/prompt_verifier.py:69 | `sorted(set(...))` is strictly ascending and holds exactly the elements of its input |
| Files.SortedUnique | adk-azure-agent/my_agent/tools/prompt_verifier.py:69 | two strictly sorted lists with the same elements are equal |
| Files.GreatestPath | adk-azure-agent/my_agent/mcp_log_reader.py:34 | `sorted(...)[-1]` is a member above every other member |
| Files.Stem | adk-azure-agent/my_agent/tools/prompt_verifier.py:39 | the stem of `x.jsonl` is `x` |
| Flatten.FlattenJson | adk-azure-agent/my_agent/tools/prompt_verifier.py:122-139 | the method's result is the leaves of the walk stored in order |
| Flatten.FlattenInto | adk-azure-agent/my_agent/tools/prompt_verifier.py:126-136 | the recursive walk stores exactly its leaf pairs into `out`, in order |
| Flatten.FlattenedSpec | adk-azure-agent/my_agent/tools/prompt_verifier.py:122-139 | keys are exactly the leaf paths; every value is a scalar found at its path |
| Flatten.PutAllLastWins | adk-azure-agent/my_agent/tools/prompt_verifier.py:136 | when a path is stored twice, the later value wins |
| Flatten.ObjectLeaves | adk-azure-agent/my_agent/tools/prompt_verifier.py:127-129 | an object's leaves are exactly its entries' leaves under `name + key + "."` |
| Flatten.ListLeaves | adk-azure-agent/my_agent/tools/prompt_verifier.py:130-134 | a list's leaves are exactly those of its first twenty elements, under `name + index + "."` |
| Flatten.ListTruncation | adk-azure-agent/my_agent/tools/prompt_verifier.py:133 | elements from index 20 on contribute nothing |
| Flatten.ScalarAtTop | adk-azure-agent/my_agent/tools/prompt_verifier.py:136 | a scalar at the top is stored under `""` |
| Numbers.WideDigitsParse | adk-azure-agent/my_agent/tools/prompt_verifier.py:309 | `float()` reads full-width digits as the digits they stand for |
| NumScan.TokensParse | adk-azure-agent/my_agent/tools/prompt_verifier.py:283-309 | every token `findall` returns, commas removed, reads as a float, so the `except` at line 334 is never taken |
| NumScan.WideDigitsFound | adk-azure-agent/my_agent/tools/prompt_verifier.py:283 | `\d` matches every Unicode decimal digit: full-width `１２３` inside Chinese text is one token |
| NumScan.IntFound | adk-azure-agent/my_agent/tools/prompt_verifier.py:283 | `str(i)` of an int is found as one whole token |
| NumScan.GroupedFound | adk-azure-agent/my_agent/tools/prompt_verifier.py:283 | `f"{i:,}"` of an int is found as one whole token |
| NumScan.GroupedValue | adk-azure-agent/my_agent/tools/prompt_verifier.py:302-309 | removing the commas of `f"{n:,}"` reads back as `n` |
| PromptVerifier.NameStamp | adk-azure-agent/my_agent/tools/prompt_verifier.py:39-54 | a stamp read from a name is always a real date-time: impossible dates are refused |
| PromptVerifier.RelevantOf | adk-azure-agent/my_agent/tools/prompt_verifier.py:33-64 | the kept files are exactly the candidates that are fresh and that lie in the ticker directory, or in the root with the ticker in their name |
| PromptVerifier.GetRecentLogs | adk-azure-agent/my_agent/tools/prompt_verifier.py:10-69 | the loop returns the relevant candidates, each once, ascending by path |
| PromptVerifier.OnlyTickerAndRoot | adk-azure-agent/my_agent/tools/prompt_verifier.py:24-30 | every returned file lies in the ticker's directory or in the root |
| PromptVerifier.FreshTickerFileKept | adk-azure-agent/my_agent/tools/prompt_verifier.py:56-60 | a `.jsonl` file in the ticker directory with a stamp after the cut-off is returned |
| PromptVerifier.RootFileNeedsTicker | adk-azure-agent/my_agent/tools/prompt_verifier.py:62-64 | a root file is returned only when the ticker occurs in its name |
| PromptVerifier.MatchesTool | adk-azure-agent/my_agent/tools/prompt_verifier.py:71-76 | falsy names do not match; a non-string raises; otherwise some keyword occurs in the lower-cased name |
| PromptVerifier.AnalyzeStep2Logs | adk-azure-agent/my_agent/tools/prompt_verifier.py:78-120 | the counting loops give the step-2 report of the spec function |
| PromptVerifier.UndecodableLineStops | adk-azure-agent/my_agent/tools/prompt_verifier.py:93-103 | a line that does not decode ends the counting of its file |
| PromptVerifier.CountFileBounds | adk-azure-agent/my_agent/tools/prompt_verifier.py:95-101 | the counts never go down, and grow by at most one per line and kind |
| PromptVerifier.WebSearchCounted | adk-azure-agent/my_agent/tools/prompt_verifier.py:97-101 | a `web_search` call adds one web search and no fetch |
| PromptVerifier.StructuredContentFirst | adk-azure-agent/my_agent/tools/prompt_verifier.py:165-173 | `structuredContent.result` is used before `content` |
| PromptVerifier.EmptyContentYieldsNothing | adk-azure-agent/my_agent/tools/prompt_verifier.py:176-182 | an empty `content` list yields no payload, and the response is not used instead |
| PromptVerifier.NullResponseRaises | adk-azure-agent/my_agent/tools/prompt_verifier.py:159-165 | a record whose response is `null` raises and abandons its file |
| PromptVerifier.LastLeafAttributed | adk-azure-agent/my_agent/tools/prompt_verifier.py:194-208 | each text's source is the file and path of the last leaf with that text |
| PromptVerifier.UntouchedAfter | adk-azure-agent/my_agent/tools/prompt_verifier.py:194-208 | a text that no leaf has keeps its earlier source |
| PromptVerifier.Absorb | adk-azure-agent/my_agent/tools/prompt_verifier.py:187-208 | a falsy payload changes nothing; a non-empty string that does not decode is kept under `file:raw_text` and adds no source |
| PromptVerifier.ExtractDataForPrompt | adk-azure-agent/my_agent/tools/prompt_verifier.py:141-237 | the nested loops give the extraction of the spec function |
| PromptVerifier.SourcesNameUsedLogs | adk-azure-agent/my_agent/tools/prompt_verifier.py:197-235 | every entry of `source_map` names one of the logs listed in `logs_used` |
| PromptVerifier.BuildFloatSources | adk-azure-agent/my_agent/tools/prompt_verifier.py:289-297 | the loop builds `float_sources` from `source_map` as the spec function does |
| PromptVerifier.FloatSourcesKeys | adk-azure-agent/my_agent/tools/prompt_verifier.py:290-297 | a value is a key of `float_sources` exactly when some cleaned text reads as it |
| PromptVerifier.FloatSourceIsLast | adk-azure-agent/my_agent/tools/prompt_verifier.py:295 | among texts with the same value, the last one gives the source |
| PromptVerifier.Classify | adk-azure-agent/my_agent/tools/prompt_verifier.py:313-326 | a direct match within 0.01 is taken first, then a percentage match, each the first such entry |
| PromptVerifier.FindSource | adk-azure-agent/my_agent/tools/prompt_verifier.py:314-326 | the search loop finds the first entry near the value, or reports none |
| PromptVerifier.MatchNumbers | adk-azure-agent/my_agent/tools/prompt_verifier.py:300-335 | the loop's `matched` and `unmatched` are those of the spec functions |
| PromptVerifier.MatchedPlusUnmatched | adk-azure-agent/my_agent/tools/prompt_verifier.py:300-332 | every checked token lands in exactly one of `matched` and `unmatched` |
| PromptVerifier.FoundTokensChecked | adk-azure-agent/my_agent/tools/prompt_verifier.py:302-306 | a token is skipped exactly when it is one character long without its commas |
| PromptVerifier.PassMessageIffVerified | adk-azure-agent/my_agent/tools/prompt_verifier.py:340-352 | the message is the pass message exactly when the verdict is positive |
| PromptVerifier.WideDigitsUnsourced | adk-azure-agent/my_agent/tools/prompt_verifier.py:283-363 | `float()` reads `１２３` as 123, and with nothing harvested the message `營收１２３億` is refused with that number unmatched |
| PromptVerifier.NothingHarvested | adk-azure-agent/my_agent/tools/prompt_verifier.py:290-363 | with an empty source map a message with one checked number is refused, listing that number, with the one-number message |
| PromptVerifier.VerifiedIffAllSourced | adk-azure-agent/my_agent/tools/prompt_verifier.py:276-363 | a message verifies exactly when every checked number has a source; otherwise the message counts the numbers without one |
| PromptVerifier.IntMessageVerified | adk-azure-agent/my_agent/tools/prompt_verifier.py:283-352 | `str(i)` on its own verifies once a logged text reads as `i` |
| PromptVerifier.GroupedMessageVerified | adk-azure-agent/my_agent/tools/prompt_verifier.py:283-352 | `f"{n:,}"` on its own verifies once a logged text reads as `n` |
| PromptVerifier.SingleTokenSourced | adk-azure-agent/my_agent/tools/prompt_verifier.py:300-352 | a one-number message verifies once a logged text reads as its value |
| PromptVerifier.VerifyPromptData | adk-azure-agent/my_agent/tools/prompt_verifier.py:239-367 | returns the verdict of the spec function and appends exactly its audit record to the history file |
| PromptVerifier.HistoryNameStamped | adk-azure-agent/my_agent/tools/prompt_verifier.py:255-261 | the history file's name carries the stamp of the moment it was written, so the recent-log search can date it |
| PromptVerifier.HistoryRecordInert | adk-azure-agent/my_agent/tools/prompt_verifier.py:263-269 | a history record read back is neither harvested nor counted |
| PromptVerifier.AuditFields | adk-azure-agent/my_agent/tools/prompt_verifier.py:263-269 | the record has no `response` and its tool name is `validate_key_message` |
| KeyMessage.Len | adk-azure-agent/my_agent/tools/format_key_message.py:41 | `len()` is defined exactly on strings, lists and dicts |
| KeyMessage.KeyReportOf | adk-azure-agent/my_agent/tools/format_key_message.py:21-45 | the report succeeds exactly when the verdict is a dict holding `verified` if it is needed; gives the stripped length, the 80-120 check, `is_valid`, and the alerts from the verdict |
| KeyMessage.ReportOfVerdict | adk-azure-agent/my_agent/tools/format_key_message.py:24-45 | on the verifier's verdict the report never raises; valid iff the length is in range and the verdict is positive |
| KeyMessage.ValidateKeyMessage | adk-azure-agent/my_agent/tools/format_key_message.py:5-47 | the report of the verifier's verdict on the unchanged content, with the verifier's audit record appended |
| KeyMessage.NoAlerts | adk-azure-agent/my_agent/tools/prompt_verifier.py:217-236 | the verifier never raises a suspicious-data alert |
| KeyMessage.KeyMessageValidIff | adk-azure-agent/my_agent/tools/format_key_message.py:21-45 | valid iff the stripped length is within 80 to 120 and every checked number is traced to a recent log; hygiene always passes |
| McpLogger.SerializeResponse | adk-azure-agent/my_agent/mcp_logger.py:63-84 | dicts and lists keep their keys and lengths; a tuple becomes its `str()` |
| McpLogger.SerializeResponseJson | adk-azure-agent/my_agent/mcp_logger.py:65-77 | a value that is already JSON is logged unchanged |
| McpLogger.SerializeResponseIdempotent | adk-azure-agent/my_agent/mcp_logger.py:63-84 | serialising twice is serialising once |
| McpLogger.CallEntryFields | adk-azure-agent/my_agent/mcp_logger.py:49-57 | each field of the record reads back as the argument given; there is no `ticker` field |
| McpLogger.McpCallLogger.constructor | adk-azure-agent/my_agent/mcp_logger.py:14-27 | the file is `mcp_calls_<stamp>.jsonl`, stamped when the logger is created |
| McpLogger.McpCallLogger.LogCall | adk-azure-agent/my_agent/mcp_logger.py:29-61 | exactly one record line is appended, to this logger's file only |
| McpLogger.LoggerRegistry.GetMcpLogger | adk-azure-agent/my_agent/mcp_logger.py:88-96 | the first call creates the logger and later calls return the same one |
| Recorder.ResolveTicker | adk-azure-agent/my_agent/mcp_toolset_wrapper.py:36-47 | a truthy `ticker` (or `symbol`), else the query's first word, else "unknown"; always truthy |
| Recorder.SafeToolName | adk-azure-agent/my_agent/mcp_toolset_wrapper.py:52 | same length, no path separators, every other character kept |
| Recorder.Serialize | adk-azure-agent/my_agent/mcp_toolset_wrapper.py:81-95 | dicts, lists and tuples keep their shape; a tuple becomes a list |
| Recorder.SerializeJson | adk-azure-agent/my_agent/mcp_toolset_wrapper.py:83-90 | a value that is already JSON is logged unchanged |
| Recorder.SerializersAgree | adk-azure-agent/my_agent/mcp_toolset_wrapper.py:81-95 | without tuples this serialiser and the call logger's agree |
| Recorder.LogCall | adk-azure-agent/my_agent/mcp_toolset_wrapper.py:25-79 | a string ticker gets one record appended to `{ticker}/{tool}_{stamp}.jsonl`, or to the root `mcp_unknown_...` file; a non-string ticker raises and writes nothing |
| Recorder.RecordedCallListed | adk-azure-agent/my_agent/mcp_toolset_wrapper.py:56-64 | a call recorded under a plain ticker is among that ticker's recent logs while its stamp is fresh |
| Recorder.NextCursor | adk-azure-agent/my_agent/mcp_toolset_wrapper.py:130-138 | a known ticker is never forgotten |
| Recorder.LoggedArgsTicker | adk-azure-agent/my_agent/mcp_toolset_wrapper.py:141 | the logged arguments resolve to the cursor |
| Recorder.ArgumentCopies | adk-azure-agent/my_agent/mcp_toolset_wrapper.py:127-146 | the logged copy has `ticker` set, the execution copy has none, and every other key is unchanged |
| Recorder.CursorCarriesOver | adk-azure-agent/my_agent/mcp_toolset_wrapper.py:132-138 | a call with no ticker is logged under the ticker of the call before it |
| Recorder.ToolRecorder.constructor | adk-azure-agent/my_agent/mcp_toolset_wrapper.py:103 | the cursor starts as "unknown" |
| Recorder.ToolRecorder.LoggedRun | adk-azure-agent/my_agent/mcp_toolset_wrapper.py:118-180 | updates the cursor, runs the tool on the stripped arguments, appends one record for success or failure, and returns the tool's outcome |
| Recorder.DeclarationWithoutProperties | adk-azure-agent/my_agent/mcp_toolset_wrapper.py:193-204 | without a dict `parameters.properties` the declaration is returned as it was |
| Recorder.DeclarationGainsTicker | adk-azure-agent/my_agent/mcp_toolset_wrapper.py:195-200 | `ticker` joins the properties; every other property, `required` and every other key stay as they were |
| Recorder.DeclarationIdempotent | adk-azure-agent/my_agent/mcp_toolset_wrapper.py:187-204 | patching twice is patching once |
| LogReader.LatestFile | adk-azure-agent/my_agent/mcp_log_reader.py:27-34 | no file exactly when nothing matches; otherwise a matching file |
| LogReader.ReadLatestMcpResponse | adk-azure-agent/my_agent/mcp_log_reader.py:10-70 | `None` when no file matches |
| LogReader.AppendedRecordRead | adk-azure-agent/my_agent/mcp_log_reader.py:34-44 | after a line is appended to the newest file, that line alone decides the answer |
| LogReader.ContentFirst | adk-azure-agent/my_agent/mcp_log_reader.py:53-57 | the text of `content[0]` wins over `structuredContent` |
| LogReader.StructuredWithoutContent | adk-azure-agent/my_agent/mcp_log_reader.py:59-63 | `structuredContent.result` is read when `content` is missing |
| LogReader.EmptyTextGivesRaw | adk-azure-agent/my_agent/mcp_log_reader.py:53-66 | an empty first text gives the raw response |
| LogReader.UndecodableReadsNone | adk-azure-agent/my_agent/mcp_log_reader.py:44-70 | a line or payload that does not decode reads as `None` |
| LogReader.SubdirectoryFilesUnseen | adk-azure-agent/my_agent/mcp_log_reader.py:27-28 | a file in a ticker's subdirectory is never among the matching files |
| LogReader.FormatMcpResponse | adk-azure-agent/my_agent/mcp_log_reader.py:73-147 | the loop gives the heading and each field's lines, joined by newlines; a falsy response gives the not-found line |
| LogReader.BuildItemLines | adk-azure-agent/my_agent/mcp_log_reader.py:121-134 | list items are numbered from 1, with the fields of dict items listed below them |
| LogReader.BuildDictLines | adk-azure-agent/my_agent/mcp_log_reader.py:136-141 | one line per entry of a dict value |
| LogReader.BuildFieldLines | adk-azure-agent/my_agent/mcp_log_reader.py:91-145 | the lines one field contributes, by the type of its value |
| LogReader.NoneFieldsSkipped | adk-azure-agent/my_agent/mcp_log_reader.py:92-93 | `None` fields leave no trace, and the rest keep their order |
| LogReader.IntFieldGrouped | adk-azure-agent/my_agent/mcp_log_reader.py:112-113 | an int is written with comma groups, and the number scan reads that back as one token of the same value |
| Compare.CompareJson | adk-azure-agent/compare_agent_response.py:56-99 | the three loops give the spec comparison; an AttributeError when either side is not a dict |
| Compare.MissingIff | adk-azure-agent/compare_agent_response.py:71-73 | a key is missing iff the original has it and the response does not |
| Compare.DifferencesIff | adk-azure-agent/compare_agent_response.py:81-88 | a difference is listed iff the key is in both and its two values are not `==` |
| Compare.KeysPartitioned | adk-azure-agent/compare_agent_response.py:71-90 | each original key is missing, different or identical, exactly one of the three |
| Compare.IdenticalIffEqual | adk-azure-agent/compare_agent_response.py:93-97 | for dicts with distinct keys, `identical` iff the two dicts are `==` |
| Compare.StatsCount | adk-azure-agent/compare_agent_response.py:63-67 | the key counts are the dicts' sizes |
| Compare.LoadAgentResponse | adk-azure-agent/compare_agent_response.py:37-53 | decodes the unfenced text |
| Compare.JsonFencedAnswer | adk-azure-agent/compare_agent_response.py:43-51 | a ```` ```json ```` block is read as its inside |
| Compare.BareFencedAnswer | adk-azure-agent/compare_agent_response.py:46-51 | a bare ```` ``` ```` block is read as its inside |
| Compare.UnfencedAnswer | adk-azure-agent/compare_agent_response.py:43-51 | an already bare answer is left as it is |
| Compare.LoadLatestMcpJson | adk-azure-agent/compare_agent_response.py:12-34 | exits (no data) exactly when no file matches; an empty file raises |
| Compare.LoaderAgreesWithReader | adk-azure-agent/compare_agent_response.py:22-32 | when the loader succeeds, the log reader returns the same data |
| Instructions.TitleOfParts | adk-azure-agent/other_agent.py:837-840 | every `# name (ticker) - rest` whose parts hold no line break matches the title pattern, the documented example among them |
| Instructions.TitleNeedsParentheses | adk-azure-agent/other_agent.py:839-840 | a title without `(` does not match |
| Instructions.MissingSections | adk-azure-agent/other_agent.py:845-846 | exactly the required sections that the TOC does not contain |
| Instructions.Stage0ErrorsIff | adk-azure-agent/other_agent.py:833-859 | each message is reported iff its check fails; no errors iff all four checks pass |
| Instructions.ScanForBullet | adk-azure-agent/other_agent.py:856-859 | finds a bullet iff some TOC line, stripped, starts with `- ` or `* ` |
| Instructions.ValidateStage0Json | adk-azure-agent/other_agent.py:826-864 | the verdict of the spec function, including the TypeError or AttributeError on non-string fields |
| Instructions.Stage0PassIff | adk-azure-agent/other_agent.py:861-864 | `(True, "PASS")` iff no check fails, otherwise the errors joined by newlines |
| Instructions.EmptyStage0 | adk-azure-agent/other_agent.py:836-862 | missing fields count as empty strings: an empty dict fails with exactly two errors, the invalid title and all four sections missing |
| Instructions.MatchMetaSound | adk-azure-agent/other_agent.py:286 | a match has the shape of the pattern and gives its two groups |
| Instructions.MatchMetaComplete | adk-azure-agent/other_agent.py:286 | a line of the pattern's shape is matched, with that key |
| Instructions.Aliases | adk-azure-agent/other_agent.py:296-297 | one stripped string per comma-separated part |
| Instructions.MetadataOf | adk-azure-agent/other_agent.py:285-297 | keys are distinct and are only `description`, `name` and `aliases` |
| Instructions.HeadLines | adk-azure-agent/other_agent.py:283 | at most fifty lines, none holding a newline |
| Instructions.ParseMarkdownMetadata | adk-azure-agent/other_agent.py:274-299 | the loop gives the metadata of the first fifty lines |
| Instructions.LastLineWins | adk-azure-agent/other_agent.py:287-297 | a field holds a value iff the last line that sets that field gives it |
| Instructions.OnlyFiftyLines | adk-azure-agent/other_agent.py:283 | text after the fiftieth line changes nothing |
| Instructions.AliasesStripped | adk-azure-agent/other_agent.py:297 | every alias is already stripped |
| Instructions.Candidates | adk-azure-agent/other_agent.py:633-637 | exactly the names in the directory that start with the base name and end with `.md` |
| Instructions.Greatest | adk-azure-agent/other_agent.py:640 | `sorted(...)[-1]` is a member, above every other member |
| Instructions.GreatestOrderFree | adk-azure-agent/other_agent.py:640 | the listing order does not matter |
| Instructions.VersionsSortAsText | adk-azure-agent/other_agent.py:639-640 | `guide_v3.9.0.md` is chosen over `guide_v3.10.0.md` |
| Instructions.ResolveInstructionFile | adk-azure-agent/other_agent.py:615-645 | an existing exact file wins; otherwise the greatest candidate; otherwise the exact path |
| Instructions.ResolvedFile | adk-azure-agent/other_agent.py:630-642 | the chosen file is a candidate, sorted last among all candidates |
| Instructions.UnchangedIff | adk-azure-agent/other_agent.py:499-508 | no change iff the stored times are non-empty and equal to the current ones |
| Instructions.InstructionCache.constructor | adk-azure-agent/other_agent.py:527 | no cached text and no stored times at start |
| Instructions.InstructionCache.HasInstructionsChanged | adk-azure-agent/other_agent.py:493-508 | the loop reports a change exactly as the `Changed` predicate does |
| Instructions.InstructionCache.GetInstructions | adk-azure-agent/other_agent.py:511-546 | reloads iff forced, not cached, or auto-detect sees a change; a reload stores the text and times; otherwise nothing changes and the cached text is returned |
| Instructions.ReloadOnlyOnChange | adk-azure-agent/other_agent.py:500-508 | after a reload with at least one file, the same times count as unchanged; an empty directory always counts as changed |

## Left out

- Printing, logging to the console and `sys.exit` are not modelled. A
  `sys.exit` is an `Ok(None)` result of `Compare.LoadLatestMcpJson`.
- Directory existence checks and `mkdir` are not modelled. A missing directory
  is an empty one, and `os.path.exists` of a file is presence in the directory
  map. `target_dir.mkdir(exist_ok=True)` has no `parents=True`, so a ticker
  with a `/` in it (`BRK/B`) makes the source's `log_call` raise
  `FileNotFoundError` when `mcp_logs/BRK` is missing. Inside the wrapper's
  `try` that error is logged again, re-raised, and the tool's result is lost.
  `Recorder.LogCall` and `Recorder.ToolRecorder.LoggedRun` instead append the
  record and return the result.
- Reading a file is total: `IOError` and encoding errors are not modelled.
- `json.loads` and `json.dumps` are the parameters `decode` and `encode`.
  Their own correctness is not proved.
- `KeyMessage.ValidateKeyMessage` drops the `json.loads(json.dumps(...))` the
  source passes the verdict through. On the verdict's values, which are all
  JSON already, that round trip is the identity.
- The clock is a parameter `now`, one per operation. The source reads the
  clock several times in one call (`log_call` takes the stamp and the
  timestamp separately).
- Float formatting is not modelled:
  - the log reader's float branches (`.2f`, scaled `T`/`B`/`M`, percentages)
    and its `str()` of containers are taken as given functions;
  - a float is held as the decimal its `repr` prints, so `Numbers.FloatRepr`
    models how `repr` lays out those digits (positional or scientific) but not
    how Python picks the shortest digits of a binary value.
- Float comparison is done on exact decimals: `abs(a - b) < 0.01` uses real
  arithmetic, not binary floating point.
- `Numbers.ParseFloat` refuses `inf`, `infinity` and `nan` (in any case, with
  or without a sign), which `float()` accepts. A harvested text spelling one would add a
  non-finite key to `float_sources`, so `PromptVerifier.FloatSourcesKeys` does
  not list such keys. No verdict depends on them: an infinite or NaN key is
  never within 0.01 of a finite number, directly or times 100.
- `Text.IsDigit` uses the decimal digits of Unicode 15.1, the database of
  Python 3.13; Python 3.12's Unicode 15.0 has the same digits. Python 3.11 and
  earlier know fewer.
- `Text.Lower` folds ASCII letters only. Every key name it is compared with is
  ASCII or CJK, so the matches it decides are the same.
- `McpLogger.SerializeResponse`, `Recorder.Serialize`: an object with a
  `__dict__` is taken to be given as its dict. Any other object is its
  `str()`, which is a parameter.
- `Recorder.ToolRecorder.LoggedRun`: the monkey-patching itself and `async`
  are not modelled. The original tool is a parameter `run`, and the duration
  is a parameter.
- `Recorder.DeclarationGainsTicker`: the declaration is updated as a value,
  not in place. Aliasing with other holders of the same schema object is not
  captured.
- `get_instruction_files_mtime` and `load_instructions` are the parameters
  `current` and `loaded` of `Instructions.InstructionCache.GetInstructions`.
  One snapshot serves both the change check and the stored times.
- `parse_frontmatter`, `extract_modules_from_instructions`, `load_mcp_tools`,
  `reload_agent`, the stage agents and the LLM pipeline of `other_agent.py`
  are not part of this model. Neither are `calculate_upside.py` and the
  other tools.
- `print_comparison_report` and `main` of `compare_agent_response.py` are
  left out: they only print.
- `LogReader.ReadLatestMcpResponse`: its own contract covers only the no-file
  case. The other cases are stated by the lemmas beside it
  (`AppendedRecordRead`, `ContentFirst`, `StructuredWithoutContent`,
  `EmptyTextGivesRaw`, `UndecodableReadsNone`).
