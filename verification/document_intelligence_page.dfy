/**
  The document-intelligence page: it waits for the selection store to load,
  sends an incomplete selection back to the use-case page, fetches the documents
  of a complete one, and keeps the set of documents chosen for the assistant.
 */
module DocumentIntelligencePage {
  import opened JsValue
  import opened Http
  import opened Selection
  import Lists
  import DocumentsClient

  /** The page's own state. */
  datatype Page = Page(documents: seq<DocumentsClient.Document>, selectedDocuments: seq<string>,
                       loading: bool, error: Option<string>)

  const Initial: Page := Page([], [], true, None)

  /** What the page's two effects do for the current selection state. */
  datatype Reaction = Wait | RedirectToUseCase | FetchDocuments

  /**
    The redirect and fetch effects: nothing while the store is loading; then a
    complete selection is fetched and an incomplete one redirected, never both.
   */
  function React(app: App): (r: Reaction)
    ensures r == Wait <==> app.isLoading
    ensures r == FetchDocuments <==> !app.isLoading && IsSelectionComplete(app)
    ensures r == RedirectToUseCase <==> !app.isLoading && !IsSelectionComplete(app)
  {
    if app.isLoading then Wait
    else if IsSelectionComplete(app) then FetchDocuments
    else RedirectToUseCase
  }

  /** The page renders only once loaded with a complete selection: exactly when it fetches. */
  predicate Renders(app: App) {
    !app.isLoading && IsSelectionComplete(app)
  }

  lemma RendersIffFetches(app: App)
    ensures Renders(app) <==> React(app) == FetchDocuments
    ensures !Renders(app) && !app.isLoading ==> React(app) == RedirectToUseCase
  {
  }

  /** `router.replace('/use-case')` when the reaction says so. */
  function Redirect(app: App): (r: App)
    ensures React(app) == RedirectToUseCase ==> r == app.(route := "/use-case")
    ensures React(app) != RedirectToUseCase ==> r == app
  {
    if React(app) == RedirectToUseCase then app.(route := "/use-case") else app
  }

  /** The request `fetchDocuments` sends: the selection's use case and selectors, completed documents only. */
  function FetchRequest(app: App): (t: Target)
    requires IsSelectionComplete(app)
    ensures |t.query| >= 2 && t.query[0] == ("use_case", app.useCase.value)
    ensures t.query[1] == ("status", "completed")
    ensures ValuesOf(t.query, "sources") == app.sources
  {
    DocumentsClient.ListDocumentsSourcesRoundTrip(app.useCase.value, app.sources, Some("completed"), None, None);
    DocumentsClient.ListDocumentsTarget(app.useCase.value, app.sources, Some("completed"), None, None)
  }

  /**
    `fetchDocuments` once the list call settles: the documents of a successful call,
    `[]` when the field is missing; the thrown message on failure, keeping the old list.
    Loading ends either way.
   */
  function Fetched(page: Page, x: Exchange<DocumentsClient.DocumentList>): (r: Page)
    ensures !r.loading && r.selectedDocuments == page.selectedDocuments
    ensures DocumentsClient.Complete(DocumentsClient.ListDocuments, x).Returned? ==>
      r.error == None && r.documents == DocumentsClient.Complete(DocumentsClient.ListDocuments, x).value.documents.GetOr([])
    ensures DocumentsClient.Complete(DocumentsClient.ListDocuments, x).Thrown? ==>
      r.error == Some(DocumentsClient.Complete(DocumentsClient.ListDocuments, x).message) && r.documents == page.documents
  {
    match DocumentsClient.Complete(DocumentsClient.ListDocuments, x)
    case Returned(list) => page.(documents := list.documents.GetOr([]), loading := false, error := None)
    case Thrown(m) => page.(loading := false, error := Some(m))
  }

  /** An OK response without a `documents` field leaves the page with no documents and no error. */
  lemma MissingDocumentsFieldIsEmpty(page: Page, status: int, detail: Option<string>)
    ensures Fetched(page, Answered(Response(true, status, Json(detail, DocumentsClient.DocumentList(None))))).documents == []
  {
  }

  /** `handleDocumentToggle(id)`: an absent id is appended, a present one removed. */
  function HandleDocumentToggle(page: Page, id: string): (r: Page)
    ensures id in r.selectedDocuments <==> id !in page.selectedDocuments
    ensures forall y :: y != id ==> (y in r.selectedDocuments <==> y in page.selectedDocuments)
    ensures id !in page.selectedDocuments ==> r.selectedDocuments == page.selectedDocuments + [id]
    ensures r.documents == page.documents && r.loading == page.loading && r.error == page.error
  {
    page.(selectedDocuments := Lists.Toggle(page.selectedDocuments, id))
  }

  /** The chosen documents never hold an id twice, and a double toggle of a new id is no change. */
  lemma ToggleKeepsSelectionClean(page: Page, id: string)
    requires Lists.NoDup(page.selectedDocuments)
    ensures Lists.NoDup(HandleDocumentToggle(page, id).selectedDocuments)
    ensures id !in page.selectedDocuments ==> HandleDocumentToggle(HandleDocumentToggle(page, id), id) == page
  {
    Lists.ToggleNoDup(page.selectedDocuments, id);
    if id !in page.selectedDocuments {
      Lists.ToggleTwiceAbsent(page.selectedDocuments, id);
    }
  }
}
