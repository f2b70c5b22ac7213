/**
 * The length gate for a generated key message (`validate_key_message`): the
 * stripped text must have between 80 and 120 characters, and the verdict of
 * the provenance check on the unstripped text is folded into the report.
 */
module KeyMessage {
  import opened Wrappers
  import opened Dict
  import opened Text
  import opened Values
  import opened Clock
  import opened Files
  import opened NumScan
  import opened PromptVerifier

  const MinLength := 80
  const MaxLength := 120
  const Required := "80-120"

  /** The character count the gate accepts, both ends included. */
  predicate LengthOk(n: nat) {
    MinLength <= n <= MaxLength
  }

  /** `len(v)`: only strings, lists and dicts have a length. */
  function Len(v: Json): (r: Result<nat>)
    ensures r.Ok? <==> v.JStr? || v.JList? || v.JObject?
    ensures v.JList? ==> r == Ok(|v.items|)
  {
    match v
    case JStr(s) => Ok(|s|)
    case JList(items) => Ok(|items|)
    case JObject(fields) => Ok(|fields|)
    case _ => Err(TypeError)
  }

  /**
   * The report, field by field: `isValid` is the value of
   * `length_valid and verify_result["verified"]`, which is `False` itself when
   * the length is wrong and otherwise whatever the verdict holds.
   */
  datatype KeyReport = KeyReport(isValid: Json, lengthValid: bool, current: nat, dataSource: Json,
                                 hygieneValid: bool, alerts: Json)

  /** The report as the dict `final_result` that is returned as JSON text. */
  function ReportJson(r: KeyReport): Json {
    JObject([("is_valid", r.isValid),
             ("checks", JObject([("length", JObject([("valid", JBool(r.lengthValid)), ("current", JInt(r.current)),
                                                     ("required", JStr(Required))])),
                                 ("data_source", r.dataSource),
                                 ("hygiene", JObject([("valid", JBool(r.hygieneValid)), ("alerts", r.alerts)]))]))])
  }

  /** The alerts the report copies: the verdict's `suspicious_alerts`, an empty list when it has none. */
  function AlertsOf(verdict: Json): Json
    requires verdict.JObject?
  {
    if HasKey(verdict.fields, "suspicious_alerts") then ValueAt(verdict.fields, "suspicious_alerts") else JList([])
  }

  /**
   * The report built from `content` and the decoded verdict.  Reading
   * `verified` is skipped when the length is already wrong; a verdict that is
   * not a dict, lacks `verified` when it is needed, or holds alerts without a
   * length raises.
   */
  function KeyReportOf(content: string, verdict: Json): (r: Result<KeyReport>)
    ensures r.Ok? <==> verdict.JObject? && (LengthOk(|Strip(content)|) ==> HasKey(verdict.fields, "verified"))
                       && Len(AlertsOf(verdict)).Ok?
    ensures r.Ok? ==> r.value.current == |Strip(content)| && (r.value.lengthValid <==> LengthOk(r.value.current))
    ensures r.Ok? ==> r.value.dataSource == verdict && r.value.alerts == AlertsOf(verdict)
    ensures r.Ok? ==> (r.value.hygieneValid <==> Len(r.value.alerts) == Ok(0))
    ensures r.Ok? && !r.value.lengthValid ==> r.value.isValid == JBool(false)
    ensures r.Ok? && r.value.lengthValid ==> Get(verdict.fields, "verified") == Some(r.value.isValid)
  {
    var count := |Strip(content)|;
    var lengthValid := LengthOk(count);
    var isValid :- if lengthValid then Subscript(verdict, "verified") else Ok(JBool(false));
    var alerts :- GetOr(verdict, "suspicious_alerts", JList([]));
    var alertCount :- Len(alerts);
    Ok(KeyReport(isValid, lengthValid, count, verdict, alertCount == 0, alerts))
  }

  /**
   * On the verdict the verifier produces, the report never raises: the
   * message is valid exactly when its length is in range and the verdict is
   * positive, and the hygiene flag says that the verdict has no alerts.
   */
  lemma {:induction false} ReportOfVerdict(content: string, v: Verdict)
    ensures var n := |Strip(content)|;
            KeyReportOf(content, VerdictJson(v))
            == Ok(KeyReport(JBool(LengthOk(n) && v.verified), LengthOk(n), n, VerdictJson(v),
                            v.suspiciousAlerts == [], JList(Texts(v.suspiciousAlerts))))
  {
    var j := VerdictJson(v);
    VerdictKeysUnique(v);
    assert j.fields[4] == ("suspicious_alerts", JList(Texts(v.suspiciousAlerts)));
    HasKeyAt(j.fields, "suspicious_alerts");
    GetAt(j.fields, 4);
  }

  lemma {:induction false} VerdictKeysUnique(v: Verdict)
    ensures UniqueKeys(VerdictJson(v).fields)
  {
    var d := VerdictJson(v).fields;
    forall i, j | 0 <= i < j < |d| ensures d[i].0 != d[j].0 {
      assert d[i].0[..2] != d[j].0[..2] || d[i].0 != d[j].0;
    }
    DistinctUnique(d);
  }

  /**
   * `validate_key_message(content, ticker)`: the verifier checks the text as
   * given, writing its audit record, and the report wraps the verdict.
   */
  method ValidateKeyMessage(store: LogStore, content: string, ticker: string, now: DateTime, decode: Decoder,
                            encode: Json -> string)
    returns (report: KeyReport)
    requires ValidDateTime(now)
    modifies store
    ensures var v := VerdictSpec(old(store.files), ticker, content, now, decode);
            && KeyReportOf(content, VerdictJson(v)) == Ok(report)
            && store.files == AppendLine(old(store.files), HistoryPath(ticker, now), encode(AuditRecord(ticker, content, now, v)))
  {
    var v := VerifyPromptData(store, ticker, content, now, decode, encode);
    ReportOfVerdict(content, v);
    var r := KeyReportOf(content, VerdictJson(v));
    report := r.value;
  }

  lemma {:induction false} ReportOfClearVerdict(content: string, v: Verdict, sourced: bool)
    requires v.verified == sourced && v.suspiciousAlerts == []
    ensures var r := KeyReportOf(content, VerdictJson(v));
            && r.Ok?
            && (r.value.isValid == JBool(true) <==> LengthOk(|Strip(content)|) && sourced)
            && r.value.hygieneValid && r.value.alerts == JList([])
  {
    ReportOfVerdict(content, v);
  }

  lemma {:induction false} NoAlerts(fs: FileSystem, ticker: string, content: string, now: DateTime, decode: Decoder)
    requires ValidDateTime(now)
    ensures VerdictSpec(fs, ticker, content, now, decode).suspiciousAlerts == []
  {
    var data := ExtractSpec(fs, ticker, now, decode);
    assert data.suspiciousAlerts == [];
  }

  /** Every number of two or more characters in `content` is traced to a log read for `ticker`. */
  ghost predicate NumbersSourced(fs: FileSystem, ticker: string, content: string, now: DateTime, decode: Decoder)
    requires ValidDateTime(now)
  {
    var fsrc := FloatSources([], ExtractSpec(fs, ticker, now, decode).sourceMap);
    forall t :: t in FindNumbers(content) && Checked(t) ==> Classify(fsrc, TokenValue(t)) != NoSource
  }

  /**
   * End to end: the key message passes exactly when its stripped length is
   * within 80 to 120 and every number of two or more characters in it is
   * traced to a recent log; the hygiene check always passes, since no alerts
   * are ever raised.
   */
  lemma {:induction false} KeyMessageValidIff(fs: FileSystem, ticker: string, content: string, now: DateTime, decode: Decoder)
    requires ValidDateTime(now)
    ensures var r := KeyReportOf(content, VerdictJson(VerdictSpec(fs, ticker, content, now, decode)));
            && r.Ok?
            && (r.value.isValid == JBool(true) <==> LengthOk(|Strip(content)|) && NumbersSourced(fs, ticker, content, now, decode))
            && r.value.hygieneValid && r.value.alerts == JList([])
  {
    var v := VerdictSpec(fs, ticker, content, now, decode);
    VerifiedIffAllSourced(fs, ticker, content, now, decode);
    NoAlerts(fs, ticker, content, now, decode);
    ReportOfClearVerdict(content, v, NumbersSourced(fs, ticker, content, now, decode));
  }
}
