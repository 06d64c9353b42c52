/**
  The documents API client: the request each call builds (query parameters,
  ingestion source paths, workflow identifier) and how each call turns the HTTP
  exchange into a returned value or a thrown error. All paths go through the
  front end's own `/api` proxy.
 */
module DocumentsClient {
  import opened JsValue
  import opened Http
  import JsText

  const ApiBase := "/api"
  const DefaultIndustry := "fsi"

  // ---------------------------------------------------------------------------
  // Error handling shared by the calls
  // ---------------------------------------------------------------------------

  /** The calls of the client that fail on a non-OK status. */
  datatype Call =
    | ListDocuments | DocumentMetadata | RawDocument | RawChunk | DeleteDocument
    | CollectionStats | DocumentExists | StartIngestion | IngestionStatus

  /** The message thrown when a failed response carries no usable `detail`. */
  function FallbackMessage(c: Call): (m: string)
    ensures m != ""
  {
    match c
    case ListDocuments => "Failed to fetch documents"
    case DocumentMetadata => "Failed to fetch document metadata"
    case RawDocument => "Failed to fetch raw document"
    case RawChunk => "Failed to fetch raw chunk"
    case DeleteDocument => "Failed to delete document"
    case CollectionStats => "Failed to fetch collection stats"
    case DocumentExists => "Failed to check document existence"
    case StartIngestion => "Failed to start ingestion"
    case IngestionStatus => "Failed to fetch ingestion status"
  }

  /** The existence, ingestion-start and ingestion-status calls read a failed body with `.catch(() => ({}))`. */
  predicate ReadsErrorBodyTolerantly(c: Call) {
    c == DocumentExists || c == StartIngestion || c == IngestionStatus
  }

  /**
    The result of a call once `fetch` has settled: transport failures propagate,
    a non-OK status throws the body's `detail` or the call's fallback message,
    and an OK response returns its parsed body.
   */
  function Complete<T>(c: Call, x: Exchange<T>): (r: Outcome<T>)
    ensures x.TransportError? ==> r == Thrown(x.message)
    ensures x.Answered? && x.response.ok ==> r == ReadJson(x.response.body)
    ensures x.Answered? && !x.response.ok ==> r.Thrown?
  {
    match x
    case TransportError(m) => Thrown(m)
    case Answered(resp) =>
      if resp.ok then ReadJson(resp.body)
      else if ReadsErrorBodyTolerantly(c) then Thrown(TolerantFailure(resp.body, FallbackMessage(c)))
      else Thrown(StrictFailure(resp.body, FallbackMessage(c)))
  }

  /**
    For the tolerant calls a failed response always throws a non-empty message that is
    either the body's `detail` or the fixed fallback: an unreadable error body yields the
    fallback, never a parse error.
   */
  lemma TolerantFailureMessage<T>(c: Call, resp: Response<T>)
    requires ReadsErrorBodyTolerantly(c) && !resp.ok
    ensures Complete(c, Answered(resp)).Thrown?
    ensures var m := Complete(c, Answered(resp)).message;
      m != "" &&
      (m == FallbackMessage(c) || (resp.body.Json? && resp.body.detail == Some(m))) &&
      (resp.body.Malformed? ==> m == FallbackMessage(c))
  {
  }

  /** The older calls read a failed body with a plain `response.json()`, so an unreadable body surfaces as its syntax error. */
  lemma StrictFailureMessage<T>(c: Call, resp: Response<T>)
    requires !ReadsErrorBodyTolerantly(c) && !resp.ok
    ensures resp.body.Malformed? ==> Complete(c, Answered(resp)) == Thrown(resp.body.syntaxError)
    ensures resp.body.Json? ==> Complete(c, Answered(resp)) == Thrown(OrElse(resp.body.detail, FallbackMessage(c)))
  {
  }

  // ---------------------------------------------------------------------------
  // listDocuments
  // ---------------------------------------------------------------------------

  /** One entry of the document list, with the fields the pages read. */
  datatype Document = Document(documentId: string, documentName: string, fileExtension: string, sourcePath: string)

  /** The body of a successful `listDocuments`; its `documents` field may be missing. */
  datatype DocumentList = DocumentList(documents: Option<seq<Document>>)

  /** One `sources` parameter per selector, in list order. */
  function SourceParams(sources: seq<string>): (ps: seq<Param>)
    ensures |ps| == |sources|
    ensures forall i :: 0 <= i < |ps| ==> ps[i] == ("sources", sources[i])
  {
    if sources == [] then [] else [("sources", sources[0])] + SourceParams(sources[1..])
  }

  /**
    The request of `listDocuments`: `use_case`, then `status`, `limit` and `skip` with their
    defaults (`completed`, 100, 0) applied to omitted arguments, then the selectors.
   */
  function ListDocumentsTarget(useCase: string, sources: seq<string>, status: Option<string>,
                               limit: Option<int>, skip: Option<int>): (t: Target)
    ensures t.path == ApiBase + "/documents/list"
    ensures |t.query| == 4 + |sources|
    ensures t.query[0] == ("use_case", useCase)
    ensures t.query[1] == ("status", Default(status, "completed"))
    ensures t.query[2] == ("limit", JsText.IntToString(Default(limit, 100)))
    ensures t.query[3] == ("skip", JsText.IntToString(Default(skip, 0)))
  {
    Target(ApiBase + "/documents/list",
           [("use_case", useCase), ("status", Default(status, "completed")),
            ("limit", JsText.IntToString(Default(limit, 100))),
            ("skip", JsText.IntToString(Default(skip, 0)))]
           + SourceParams(sources))
  }

  lemma {:induction false} ValuesOfSourceParams(sources: seq<string>)
    ensures ValuesOf(SourceParams(sources), "sources") == sources
  {
    if sources != [] {
      var ps := SourceParams(sources);
      assert ps[1..] == SourceParams(sources[1..]);
      ValuesOfSourceParams(sources[1..]);
    }
  }

  /** The backend reading the `sources` parameters back gets exactly the selector list, in order. */
  lemma ListDocumentsSourcesRoundTrip(useCase: string, sources: seq<string>, status: Option<string>,
                                      limit: Option<int>, skip: Option<int>)
    ensures ValuesOf(ListDocumentsTarget(useCase, sources, status, limit, skip).query, "sources") == sources
    ensures ValuesOf(ListDocumentsTarget(useCase, sources, status, limit, skip).query, "use_case") == [useCase]
  {
    var t := ListDocumentsTarget(useCase, sources, status, limit, skip);
    var head := t.query[..4];
    assert t.query == head + SourceParams(sources);
    ValuesOfAppend(head, SourceParams(sources), "sources");
    ValuesOfAppend(head, SourceParams(sources), "use_case");
    ValuesOfSourceParams(sources);
    NoOtherKeys(SourceParams(sources), "use_case");
    NoOtherKeys(head, "sources");
    assert head == [head[0]] + head[1..];
    ValuesOfAppend([head[0]], head[1..], "use_case");
    NoOtherKeys(head[1..], "use_case");
    assert ValuesOf([head[0]], "use_case") == [useCase] by {
      assert [head[0]][1..] == [];
    }
  }

  // ---------------------------------------------------------------------------
  // startIngestion
  // ---------------------------------------------------------------------------

  predicate IsSelector(s: string) {
    s == "@local" || s == "@s3" || s == "@gdrive"
  }

  /**
    The canonical source path for one selector: local sources name the container
    directory `/docs/<industry>/<useCase>`, S3 and Google Drive name `<industry>/<useCase>`.
    Unrecognised strings have no path.
   */
  function SourcePath(selector: string, industry: string, useCase: string): (p: Option<string>)
    ensures p.Some? <==> IsSelector(selector)
    ensures p.Some? ==> selector + "@" <= p.value
    ensures selector == "@local" ==> p == Some("@local@/docs/" + industry + "/" + useCase)
    ensures selector == "@s3" ==> p == Some("@s3@" + industry + "/" + useCase)
    ensures selector == "@gdrive" ==> p == Some("@gdrive@" + industry + "/" + useCase)
  {
    if selector == "@local" then Some("@local@/docs/" + industry + "/" + useCase)
    else if selector == "@s3" then Some("@s3@" + industry + "/" + useCase)
    else if selector == "@gdrive" then Some("@gdrive@" + industry + "/" + useCase)
    else None
  }

  /** The paths of the recognised selectors, in order; the rest contribute nothing. */
  function SourcePaths(sources: seq<string>, industry: string, useCase: string): (ps: seq<string>)
    ensures |ps| <= |sources|
  {
    if sources == [] then []
    else
      (match SourcePath(sources[0], industry, useCase)
       case Some(p) => [p]
       case None => [])
      + SourcePaths(sources[1..], industry, useCase)
  }

  /** Path construction is an in-order image: the paths of a concatenation are the concatenated paths. */
  lemma {:induction false} SourcePathsAppend(a: seq<string>, b: seq<string>, industry: string, useCase: string)
    ensures SourcePaths(a + b, industry, useCase) == SourcePaths(a, industry, useCase) + SourcePaths(b, industry, useCase)
  {
    if a == [] {
      assert a + b == b;
    } else {
      assert (a + b)[0] == a[0];
      assert (a + b)[1..] == a[1..] + b;
      SourcePathsAppend(a[1..], b, industry, useCase);
    }
  }

  /** When every selector is recognised there is exactly one path per selector, position by position (repeats included). */
  lemma {:induction false} SourcePathsAllRecognised(sources: seq<string>, industry: string, useCase: string)
    requires forall i :: 0 <= i < |sources| ==> IsSelector(sources[i])
    ensures |SourcePaths(sources, industry, useCase)| == |sources|
    ensures forall i :: 0 <= i < |sources| ==>
              Some(SourcePaths(sources, industry, useCase)[i]) == SourcePath(sources[i], industry, useCase)
  {
    if sources != [] {
      SourcePathsAllRecognised(sources[1..], industry, useCase);
      var ps := SourcePaths(sources, industry, useCase);
      assert ps == [SourcePath(sources[0], industry, useCase).value] + SourcePaths(sources[1..], industry, useCase);
      forall i | 1 <= i < |sources|
        ensures Some(ps[i]) == SourcePath(sources[i], industry, useCase)
      {
        assert ps[i] == SourcePaths(sources[1..], industry, useCase)[i - 1];
        assert sources[i] == sources[1..][i - 1];
      }
    }
  }

  /** `<industry>_<useCase>_<milliseconds since the epoch>`. */
  function WorkflowId(industry: string, useCase: string, nowMillis: nat): string {
    industry + "_" + useCase + "_" + JsText.NatToString(nowMillis)
  }

  /** Two starts of the same selection at different instants get different workflow identifiers. */
  lemma WorkflowIdInjective(industry: string, useCase: string, t1: nat, t2: nat)
    requires WorkflowId(industry, useCase, t1) == WorkflowId(industry, useCase, t2)
    ensures t1 == t2
  {
    var prefix := industry + "_" + useCase + "_";
    assert WorkflowId(industry, useCase, t1)[|prefix|..] == JsText.NatToString(t1);
    assert WorkflowId(industry, useCase, t2)[|prefix|..] == JsText.NatToString(t2);
    JsText.NatToStringInjective(t1, t2);
  }

  /** The body `{source_paths, workflow_id}` of `POST /api/ingestion/start`. */
  datatype IngestionStart = IngestionStart(sourcePaths: seq<string>, workflowId: string)

  /** The result returned by the backend for a started workflow. */
  datatype StartedWorkflow = StartedWorkflow(workflowId: string, status: string, message: string)

  /** A call that always issues its request, with the request and what the call produced. */
  datatype Sent<Req, T> = Sent(request: Req, outcome: Outcome<T>)

  /**
    `startIngestion`: industry defaults to `fsi` when omitted, absent sources count as none,
    the workflow identifier is stamped with the supplied clock reading, and the request is
    issued whatever the selection holds.
   */
  function StartIngestionCall(useCase: string, sources: Option<seq<string>>, industry: Option<string>,
                              nowMillis: nat, x: Exchange<StartedWorkflow>): (r: Sent<IngestionStart, StartedWorkflow>)
    ensures r.request.sourcePaths == SourcePaths(sources.GetOr([]), Default(industry, DefaultIndustry), useCase)
    ensures r.request.workflowId == WorkflowId(Default(industry, DefaultIndustry), useCase, nowMillis)
    ensures r.outcome == Complete(StartIngestion, x)
  {
    var ind := Default(industry, DefaultIndustry);
    Sent(IngestionStart(SourcePaths(sources.GetOr([]), ind, useCase), WorkflowId(ind, useCase, nowMillis)),
         Complete(StartIngestion, x))
  }

  /** An absent or empty source list still issues the start request, with no source paths. */
  lemma EmptySourcesStillSent(useCase: string, sources: Option<seq<string>>, industry: Option<string>,
                              nowMillis: nat, x: Exchange<StartedWorkflow>)
    requires sources.None? || sources == Some([])
    ensures StartIngestionCall(useCase, sources, industry, nowMillis, x).request.sourcePaths == []
  {
  }

  /** A local selection starts one path under `/docs/<industry>/<useCase>`, stamped `<industry>_<useCase>_<millis>`. */
  lemma LocalSelectionScenario(industry: string, useCase: string, nowMillis: nat, x: Exchange<StartedWorkflow>)
    ensures var r := StartIngestionCall(useCase, Some(["@local"]), Some(industry), nowMillis, x);
      r.request.sourcePaths == ["@local@/docs/" + industry + "/" + useCase]
      && r.request.workflowId == industry + "_" + useCase + "_" + JsText.NatToString(nowMillis)
  {
    OneSourcePath("@local", industry, useCase);
  }

  lemma OneSourcePath(selector: string, industry: string, useCase: string)
    requires IsSelector(selector)
    ensures SourcePaths([selector], industry, useCase) == [SourcePath(selector, industry, useCase).value]
  {
    assert [selector][1..] == [];
  }

  // ---------------------------------------------------------------------------
  // documentExists, getIngestionStatus, getIngestionLogs
  // ---------------------------------------------------------------------------

  /** What the existence check reports. */
  datatype Existence = Existence(existsInDb: bool, ready: bool)

  function DocumentExistsTarget(documentName: string): Target {
    Target(ApiBase + "/documents/exists", [("document_name", documentName)])
  }

  function IngestionStatusTarget(workflowId: string): Target {
    Target(ApiBase + "/ingestion/status/" + workflowId, [])
  }

  datatype LogLine = LogLine(timestamp: string, agent: Option<string>, message: string)
  datatype LogsPage = LogsPage(logs: seq<LogLine>)

  /** `getIngestionLogs(workflowId, limit = 200)`: the limit is always sent. */
  function IngestionLogsTarget(workflowId: string, limit: Option<int>): (t: Target)
    ensures t.query == [("limit", JsText.IntToString(Default(limit, 200)))]
  {
    Target(ApiBase + "/ingestion/logs/" + workflowId, [("limit", JsText.IntToString(Default(limit, 200)))])
  }

  /** Any non-OK status degrades to an empty page; transport failures are not caught. */
  function IngestionLogs(x: Exchange<LogsPage>): (r: Outcome<LogsPage>)
    ensures x.Answered? && !x.response.ok ==> r == Returned(LogsPage([]))
  {
    match x
    case TransportError(m) => Thrown(m)
    case Answered(resp) => if resp.ok then ReadJson(resp.body) else Returned(LogsPage([]))
  }

  /**
    The log fetch throws only when the network fails or an OK body cannot be parsed; an
    HTTP failure of any status reads as "no lines yet".
   */
  lemma IngestionLogsThrowsOnlyWithoutStatus(x: Exchange<LogsPage>)
    ensures IngestionLogs(x).Thrown? <==>
      x.TransportError? || (x.response.ok && x.response.body.Malformed?)
    ensures IngestionLogs(x).Returned? && x.Answered? && x.response.ok ==>
      IngestionLogs(x).value == x.response.body.data
  {
  }
}
