/**
  The upload API client, which talks to the backend directly: the single-file
  rule and the form fields of `uploadDocuments`, the industry list, and the
  target of `listUploadedDocuments`.
 */
module UploadClient {
  import opened JsValue
  import opened Http

  /** A browser `File`, with the fields the upload flow reads. */
  datatype File = File(name: string, mimeType: string, size: nat)

  /** The multipart form of `POST /api/upload/documents`: `files`, `industry`, `use_case`. */
  datatype UploadForm = UploadForm(file: File, industry: string, useCase: string)

  /** A call that may refuse before issuing its request: the request, if any, and what the call produced. */
  datatype Upload<T> = Upload(request: Option<UploadForm>, outcome: Outcome<T>)

  const NoFilesSelected := "No files selected"
  const OneFileAtATime := "Only one file can be uploaded at a time"
  const UploadFailed := "Failed to upload documents"

  /**
    `uploadDocuments({files, industry = 'fsi', useCase = 'credit_rating'})`: no list or an
    empty one and a list of more than one file are refused before any request; a single
    file is sent with the industry and use case, defaults applied to omitted ones.
   */
  function UploadDocuments<T>(files: Option<seq<File>>, industry: Option<string>, useCase: Option<string>,
                              x: Exchange<T>): (r: Upload<T>)
    ensures files.None? || files == Some([]) ==> r == Upload(None, Thrown(NoFilesSelected))
    ensures files.Some? && |files.value| > 1 ==> r == Upload(None, Thrown(OneFileAtATime))
    ensures files.Some? && |files.value| == 1 ==>
      && r.request == Some(UploadForm(files.value[0], Default(industry, "fsi"), Default(useCase, "credit_rating")))
      && r.outcome == StrictCall(x, UploadFailed)
  {
    if files.None? || |files.value| == 0 then Upload(None, Thrown(NoFilesSelected))
    else if |files.value| > 1 then Upload(None, Thrown(OneFileAtATime))
    else Upload(Some(UploadForm(files.value[0], Default(industry, "fsi"), Default(useCase, "credit_rating"))),
                StrictCall(x, UploadFailed))
  }

  /** A request leaves exactly when one file is given, and it carries that file. */
  lemma UploadSentIffSingleFile<T>(files: Option<seq<File>>, industry: Option<string>, useCase: Option<string>,
                                   x: Exchange<T>)
    ensures UploadDocuments(files, industry, useCase, x).request.Some? <==> files.Some? && |files.value| == 1
    ensures UploadDocuments(files, industry, useCase, x).request.Some? ==>
      UploadDocuments(files, industry, useCase, x).request.value.file == files.value[0]
    ensures UploadDocuments(files, industry, useCase, x).request.None? ==>
      UploadDocuments(files, industry, useCase, x).outcome.Thrown?
  {
  }

  /** The body of `GET /api/upload/industries`; `industries` may be missing. */
  datatype Industries = Industries(industries: Option<seq<string>>)

  /** `getIndustries()`: the list the backend returns, or none when the field is missing. */
  function GetIndustries(x: Exchange<Industries>): (r: Outcome<seq<string>>)
    ensures x.Answered? && x.response.ok && x.response.body.Json? ==>
      r == Returned(x.response.body.data.industries.GetOr([]))
    ensures x.Answered? && !x.response.ok ==> r == Thrown(StrictFailure(x.response.body, "Failed to fetch industries"))
    ensures x.TransportError? ==> r == Thrown(x.message)
  {
    match StrictCall(x, "Failed to fetch industries")
    case Thrown(m) => Thrown(m)
    case Returned(data) => Returned(data.industries.GetOr([]))
  }

  /** Whatever the backend answers, a successful fetch of the industries is a list, never absent. */
  lemma IndustriesMissingFieldIsEmpty(resp: Response<Industries>)
    requires resp.ok && resp.body.Json? && resp.body.data.industries.None?
    ensures GetIndustries(Answered(resp)) == Returned([])
  {
  }

  /** `listUploadedDocuments(industry, useCase)`: the `use_case` parameter is added only for a non-empty use case. */
  function ListUploadedTarget(industry: string, useCase: Option<string>): (t: Target)
    ensures t.path == "/api/upload/list/" + industry
    ensures Truthy(useCase) ==> t.query == [("use_case", useCase.value)]
    ensures !Truthy(useCase) ==> t.query == []
  {
    Target("/api/upload/list/" + industry, if Truthy(useCase) then [("use_case", useCase.value)] else [])
  }

  /** The body of a successful `listUploadedDocuments`, passed through as the backend wrote it. */
  datatype UploadedList = UploadedList(documents: seq<string>)

  function ListUploadedDocuments(industry: string, useCase: Option<string>, x: Exchange<UploadedList>): (r: (Target, Outcome<UploadedList>))
    ensures r.0 == ListUploadedTarget(industry, useCase)
    ensures x.Answered? && !x.response.ok ==> r.1 == Thrown(StrictFailure(x.response.body, "Failed to list documents"))
    ensures x.Answered? && x.response.ok ==> r.1 == ReadJson(x.response.body)
  {
    (ListUploadedTarget(industry, useCase), StrictCall(x, "Failed to list documents"))
  }
}
