/**
  The scheduled-reports API client, which talks to the backend directly: the
  "no report yet" rule of the latest-report call, the query of the report list,
  the choice between the seed and the regular download, and the body of the
  generate calls.
 */
module ReportsClient {
  import opened JsValue
  import opened Http
  import JsText
  import JsonStrings

  /** A stored report, with the fields the report dialog reads. */
  datatype Report = Report(reportId: string, status: string, generatedAt: string)

  // ---------------------------------------------------------------------------
  // Error handling
  // ---------------------------------------------------------------------------

  /** The calls that throw a fixed message on any failed response. */
  datatype Call =
    | LatestReport | ListReports | ReportInfo | GenerateReport | GenerateAdhocReport
    | SchedulerStatus | AvailableIndustries | CleanupOrphanedReports

  function FailureMessage(c: Call): (m: string)
    ensures m != ""
  {
    match c
    case LatestReport => "Failed to fetch latest report"
    case ListReports => "Failed to fetch reports"
    case ReportInfo => "Failed to fetch report info"
    case GenerateReport => "Failed to generate report"
    case GenerateAdhocReport => "Failed to generate ad-hoc report"
    case SchedulerStatus => "Failed to fetch scheduler status"
    case AvailableIndustries => "Failed to fetch available industries"
    case CleanupOrphanedReports => "Failed to cleanup orphaned reports"
  }

  /** A call other than the latest-report one: the error body is never read, so any failure throws the fixed message. */
  function Complete<T>(c: Call, x: Exchange<T>): (r: Outcome<T>)
    requires c != LatestReport
    ensures x.Answered? && !x.response.ok ==> r == Thrown(FailureMessage(c))
    ensures x.Answered? && x.response.ok ==> r == ReadJson(x.response.body)
    ensures x.TransportError? ==> r == Thrown(x.message)
  {
    FixedCall(x, FailureMessage(c))
  }

  // ---------------------------------------------------------------------------
  // getLatestReport
  // ---------------------------------------------------------------------------

  function LatestReportTarget(industry: string, useCase: string): (t: Target)
    ensures t.path == "/api/reports/latest/" + industry + "/" + useCase && t.query == []
  {
    Target("/api/reports/latest/" + industry + "/" + useCase, [])
  }

  /** `getLatestReport`: a 404 means there is no report yet (`null`); any other failure throws. */
  function GetLatestReport<T>(x: Exchange<T>): (r: Outcome<Option<T>>)
    ensures x.Answered? && !x.response.ok ==> (r == Returned(None) <==> x.response.status == 404)
    ensures x.Answered? && !x.response.ok && x.response.status != 404 ==> r == Thrown(FailureMessage(LatestReport))
    ensures x.Answered? && x.response.ok && x.response.body.Json? ==> r == Returned(Some(x.response.body.data))
    ensures x.Answered? && x.response.ok && x.response.body.Malformed? ==> r == Thrown(x.response.body.syntaxError)
    ensures x.TransportError? ==> r == Thrown(x.message)
  {
    match x
    case TransportError(m) => Thrown(m)
    case Answered(resp) =>
      if !resp.ok then (if resp.status == 404 then Returned(None) else Thrown(FailureMessage(LatestReport)))
      else match ReadJson(resp.body)
        case Returned(v) => Returned(Some(v))
        case Thrown(m) => Thrown(m)
  }

  /** "No report" is reported only for an answer with status 404; a successful answer always carries a report. */
  lemma NoReportOnlyOn404<T>(x: Exchange<T>)
    ensures GetLatestReport(x) == Returned(None) <==> x.Answered? && !x.response.ok && x.response.status == 404
  {
  }

  // ---------------------------------------------------------------------------
  // listReports
  // ---------------------------------------------------------------------------

  /** The optional filters of `listReports`; each one left out may be absent or empty. */
  datatype Filters = Filters(industry: Option<string>, useCase: Option<string>, status: Option<string>, limit: Option<int>)

  /** A number is truthy in JavaScript unless it is zero. */
  predicate TruthyNumber(n: Option<int>) {
    n.Some? && n.value != 0
  }

  /** The place of each filter's parameter in the query. */
  function Rank(key: string): nat {
    if key == "industry" then 0 else if key == "use_case" then 1 else if key == "status" then 2 else 3
  }

  /** One parameter when the filter is truthy, none otherwise. */
  function StringParam(key: string, value: Option<string>): (ps: seq<Param>)
    ensures Truthy(value) ==> ps == [(key, value.value)]
    ensures !Truthy(value) ==> ps == []
  {
    if Truthy(value) then [(key, value.value)] else []
  }

  /** A server reads a string filter's value back under its own key only, and only when it is truthy. */
  lemma StringParamValues(name: string, value: Option<string>, key: string)
    ensures ValuesOf(StringParam(name, value), key) == if Truthy(value) && name == key then [value.value] else []
  {
    if Truthy(value) {
      assert StringParam(name, value)[1..] == [];
    }
  }

  /** The `limit` parameter: present exactly when the limit is a non-zero number. */
  function LimitParam(limit: Option<int>): (ps: seq<Param>)
    ensures TruthyNumber(limit) ==> ps == [("limit", JsText.IntToString(limit.value))]
    ensures !TruthyNumber(limit) ==> ps == []
  {
    if TruthyNumber(limit) then [("limit", JsText.IntToString(limit.value))] else []
  }

  lemma LimitParamValues(limit: Option<int>, key: string)
    ensures ValuesOf(LimitParam(limit), key) == if TruthyNumber(limit) && key == "limit" then [JsText.IntToString(limit.value)] else []
  {
    if TruthyNumber(limit) {
      assert LimitParam(limit)[1..] == [];
    }
  }

  lemma ValuesOfConcat4(a: seq<Param>, b: seq<Param>, c: seq<Param>, d: seq<Param>, key: string)
    ensures ValuesOf(a + b + c + d, key) == ValuesOf(a, key) + ValuesOf(b, key) + ValuesOf(c, key) + ValuesOf(d, key)
  {
    ValuesOfAppend(a, b, key);
    ValuesOfAppend(a + b, c, key);
    ValuesOfAppend(a + b + c, d, key);
  }

  /** The query of `listReports`, filters in the order industry, use_case, status, limit. */
  function ListQuery(f: Filters): seq<Param> {
    StringParam("industry", f.industry) + StringParam("use_case", f.useCase) + StringParam("status", f.status)
    + LimitParam(f.limit)
  }

  lemma ListQueryValues(f: Filters, key: string)
    ensures ValuesOf(ListQuery(f), key) ==
      (if Truthy(f.industry) && key == "industry" then [f.industry.value] else [])
      + (if Truthy(f.useCase) && key == "use_case" then [f.useCase.value] else [])
      + (if Truthy(f.status) && key == "status" then [f.status.value] else [])
      + (if TruthyNumber(f.limit) && key == "limit" then [JsText.IntToString(f.limit.value)] else [])
  {
    ValuesOfConcat4(StringParam("industry", f.industry), StringParam("use_case", f.useCase),
                    StringParam("status", f.status), LimitParam(f.limit), key);
    StringParamValues("industry", f.industry, key);
    StringParamValues("use_case", f.useCase, key);
    StringParamValues("status", f.status, key);
    LimitParamValues(f.limit, key);
  }

  /**
    `listReports(filters)`: only the truthy filters become parameters; a limit of 0 is left
    out like a missing one. A server reads each key back at most once, with the filter's value.
   */
  function ListReportsTarget(f: Filters): (t: Target)
    ensures t.path == "/api/reports/list"
    ensures ValuesOf(t.query, "industry") == if Truthy(f.industry) then [f.industry.value] else []
    ensures ValuesOf(t.query, "use_case") == if Truthy(f.useCase) then [f.useCase.value] else []
    ensures ValuesOf(t.query, "status") == if Truthy(f.status) then [f.status.value] else []
    ensures ValuesOf(t.query, "limit") == if TruthyNumber(f.limit) then [JsText.IntToString(f.limit.value)] else []
  {
    ListQueryValues(f, "industry");
    ListQueryValues(f, "use_case");
    ListQueryValues(f, "status");
    ListQueryValues(f, "limit");
    Target("/api/reports/list", ListQuery(f))
  }

  /** The query holds only the four filter keys, each at most once, in a fixed order. */
  lemma ListQueryOrdered(f: Filters)
    ensures var q := ListReportsTarget(f).query;
      && (forall i :: 0 <= i < |q| ==> q[i].0 in {"industry", "use_case", "status", "limit"})
      && (forall i, j :: 0 <= i < j < |q| ==> Rank(q[i].0) < Rank(q[j].0))
  {
    var a, b := StringParam("industry", f.industry), StringParam("use_case", f.useCase);
    var c, d := StringParam("status", f.status), LimitParam(f.limit);
    assert forall p :: p in a ==> p.0 == "industry";
    assert forall p :: p in b ==> p.0 == "use_case";
    assert forall p :: p in c ==> p.0 == "status";
    assert forall p :: p in d ==> p.0 == "limit";
    RanksIncrease(a, b, c, d);
  }

  /** Four parts of at most one parameter each, whose keys rank 0, 1, 2 and 3, concatenate in rank order. */
  lemma RanksIncrease(a: seq<Param>, b: seq<Param>, c: seq<Param>, d: seq<Param>)
    requires |a| <= 1 && |b| <= 1 && |c| <= 1 && |d| <= 1
    requires forall p :: p in a ==> p.0 == "industry"
    requires forall p :: p in b ==> p.0 == "use_case"
    requires forall p :: p in c ==> p.0 == "status"
    requires forall p :: p in d ==> p.0 == "limit"
    ensures var q := a + b + c + d;
      && (forall i :: 0 <= i < |q| ==> q[i].0 in {"industry", "use_case", "status", "limit"})
      && (forall i, j :: 0 <= i < j < |q| ==> Rank(q[i].0) < Rank(q[j].0))
  {
    var q := a + b + c + d;
    var part := seq(|q|, i requires 0 <= i < |q| =>
      if i < |a| then 0 else if i < |a| + |b| then 1 else if i < |a| + |b| + |c| then 2 else 3);
    forall i | 0 <= i < |q| ensures Rank(q[i].0) == part[i] && q[i].0 in {"industry", "use_case", "status", "limit"} {
      if i < |a| {
        assert q[i] in a;
      } else if i < |a| + |b| {
        assert q[i] == b[i - |a|] && q[i] in b;
      } else if i < |a| + |b| + |c| {
        assert q[i] == c[i - |a| - |b|] && q[i] in c;
      } else {
        assert q[i] == d[i - |a| - |b| - |c|] && q[i] in d;
      }
    }
  }

  /** No filters at all gives the bare list path. */
  lemma NoFiltersNoQuery()
    ensures ListReportsTarget(Filters(None, Some(""), None, Some(0))).query == []
  {
  }

  // ---------------------------------------------------------------------------
  // downloadReport
  // ---------------------------------------------------------------------------

  /** The seed report is downloaded from its own path only when industry and use case are both given. */
  predicate UsesSeedDownload(reportId: string, industry: Option<string>, useCase: Option<string>) {
    reportId == "seed" && Truthy(industry) && Truthy(useCase)
  }

  function DownloadTarget(reportId: string, industry: Option<string>, useCase: Option<string>): (t: Target)
    ensures UsesSeedDownload(reportId, industry, useCase) ==>
      t.path == "/api/reports/seed/" + industry.value + "/" + useCase.value + "/download"
    ensures !UsesSeedDownload(reportId, industry, useCase) ==> t.path == "/api/reports/" + reportId + "/download"
    ensures t.query == []
  {
    if UsesSeedDownload(reportId, industry, useCase) then
      Target("/api/reports/seed/" + industry.value + "/" + useCase.value + "/download", [])
    else Target("/api/reports/" + reportId + "/download", [])
  }

  /** What `fetch` produced for a binary download: no response, or a status and the bytes. */
  datatype Download = DownloadTransportError(message: string) | DownloadAnswered(ok: bool, status: int, blob: seq<bv8>)

  /** `downloadReport`: the blob of a successful answer; the seed and the regular download fail with their own messages. */
  function DownloadReport(reportId: string, industry: Option<string>, useCase: Option<string>, x: Download): (r: Outcome<seq<bv8>>)
    ensures x.DownloadAnswered? && x.ok ==> r == Returned(x.blob)
    ensures x.DownloadAnswered? && !x.ok ==>
      r == Thrown(if UsesSeedDownload(reportId, industry, useCase) then "Failed to download seed report" else "Failed to download report")
    ensures x.DownloadTransportError? ==> r == Thrown(x.message)
  {
    match x
    case DownloadTransportError(m) => Thrown(m)
    case DownloadAnswered(ok, _, blob) =>
      if ok then Returned(blob)
      else if UsesSeedDownload(reportId, industry, useCase) then Thrown("Failed to download seed report")
      else Thrown("Failed to download report")
  }

  /** A report with id `seed` but no use case goes to the regular path, with `seed` as the id. */
  lemma SeedWithoutUseCaseUsesRegularPath(industry: Option<string>)
    ensures DownloadTarget("seed", industry, None).path == "/api/reports/seed/download"
  {
  }

  // ---------------------------------------------------------------------------
  // generateReport, generateAdhocReport
  // ---------------------------------------------------------------------------

  /** The text before the industry, and the text between the industry's closing quote and the use case. */
  const IndustryField := "{\"industry\":\""
  const UseCaseField := ",\"use_case\":\""

  /** `JSON.stringify({industry, use_case: useCase})` for two strings. */
  function GenerateBody(industry: string, useCase: string): string {
    IndustryField + (JsonStrings.EscapeString(industry) + "\"" + (UseCaseField + (JsonStrings.EscapeString(useCase) + "\"" + "}")))
  }

  /** The target and body of `generateReport` (`adhoc` false) and `generateAdhocReport` (`adhoc` true). */
  function GenerateRequest(adhoc: bool, industry: string, useCase: string): (r: (Target, string))
    ensures r.0.path == (if adhoc then "/api/reports/generate-adhoc" else "/api/reports/generate")
    ensures r.1 == GenerateBody(industry, useCase)
  {
    (Target(if adhoc then "/api/reports/generate-adhoc" else "/api/reports/generate", []), GenerateBody(industry, useCase))
  }

  /** The rest of `s` after the literal `prefix`, if `s` starts with it. */
  function After(prefix: string, s: string): (rest: Option<string>)
    ensures rest.Some? <==> prefix <= s
    ensures rest.Some? ==> s == prefix + rest.value
  {
    if prefix <= s then Some(s[|prefix|..]) else None
  }

  lemma AfterPrefix(prefix: string, rest: string)
    ensures After(prefix, prefix + rest) == Some(rest)
  {
    assert (prefix + rest)[|prefix|..] == rest;
  }

  /** How the backend reads the body: the two string members, in the order written. */
  function ReadGenerateBody(s: string): Option<(string, string)> {
    match After(IndustryField, s)
    case None => None
    case Some(t) =>
      match JsonStrings.ReadString(t)
      case None => None
      case Some((industry, rest)) =>
        match After(UseCaseField, rest)
        case None => None
        case Some(u) =>
          match JsonStrings.ReadString(u)
          case None => None
          case Some((useCase, tail)) => if tail == "}" then Some((industry, useCase)) else None
  }

  /** Whatever characters the industry and use case hold, the backend reads back exactly those two strings. */
  lemma GenerateBodyRoundTrip(industry: string, useCase: string)
    ensures ReadGenerateBody(GenerateBody(industry, useCase)) == Some((industry, useCase))
  {
    var u := JsonStrings.EscapeString(useCase) + "\"" + "}";
    var rest := UseCaseField + u;
    var t := JsonStrings.EscapeString(industry) + "\"" + rest;
    AfterPrefix(IndustryField, t);
    JsonStrings.ReadEscapedString(industry, rest);
    AfterPrefix(UseCaseField, u);
    JsonStrings.ReadEscapedString(useCase, "}");
    ReadGenerateBodySteps(GenerateBody(industry, useCase), t, industry, rest, u, useCase);
  }

  /** The reader's steps, one match at a time. */
  lemma ReadGenerateBodySteps(s: string, t: string, industry: string, rest: string, u: string, useCase: string)
    requires After(IndustryField, s) == Some(t)
    requires JsonStrings.ReadString(t) == Some((industry, rest))
    requires After(UseCaseField, rest) == Some(u)
    requires JsonStrings.ReadString(u) == Some((useCase, "}"))
    ensures ReadGenerateBody(s) == Some((industry, useCase))
  {
  }
}
