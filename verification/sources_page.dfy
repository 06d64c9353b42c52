/**
  The sources page: it requires a chosen use case, turns the picker's connector
  identifiers into the selectors the ingestion client understands, and lets the
  user go back to the use-case page.
 */
module SourcesPage {
  import opened JsValue
  import opened Selection
  import DataSources
  import DocumentsClient

  /** `sourceMap[source] || source`: the three connectors get their selectors, other identifiers pass through. */
  function FormatSource(id: string): (selector: string)
    ensures id == "local" ==> selector == "@local"
    ensures id == "s3" ==> selector == "@s3"
    ensures id == "google-drive" ==> selector == "@gdrive"
    ensures id != "local" && id != "s3" && id != "google-drive" ==> selector == id
  {
    if id == "local" then "@local"
    else if id == "s3" then "@s3"
    else if id == "google-drive" then "@gdrive"
    else id
  }

  /** The mapping keeps the list's length and order. */
  function FormatSources(ids: seq<string>): (selectors: seq<string>)
    ensures |selectors| == |ids|
    ensures forall i :: 0 <= i < |ids| ==> selectors[i] == FormatSource(ids[i])
  {
    if ids == [] then [] else [FormatSource(ids[0])] + FormatSources(ids[1..])
  }

  /**
    Every connector the picker offers becomes a selector the ingestion client
    recognises, so each selected connector yields exactly one source path.
   */
  lemma OfferedSourcesYieldOnePathEach(ids: seq<string>, industry: string, useCase: string)
    requires forall k :: 0 <= k < |ids| ==> ids[k] in DataSources.SourceIds
    ensures |DocumentsClient.SourcePaths(FormatSources(ids), industry, useCase)| == |ids|
    ensures forall k :: 0 <= k < |ids| ==>
      Some(DocumentsClient.SourcePaths(FormatSources(ids), industry, useCase)[k])
        == DocumentsClient.SourcePath(FormatSources(ids)[k], industry, useCase)
  {
    var sel := FormatSources(ids);
    forall k | 0 <= k < |sel| ensures DocumentsClient.IsSelector(sel[k]) {
      assert ids[k] == "local" || ids[k] == "s3" || ids[k] == "google-drive";
    }
    DocumentsClient.SourcePathsAllRecognised(sel, industry, useCase);
  }

  /**
    `handleContinue(selection)`: the formatted connectors become the selection's
    sources (persisted when there is at least one) and the document-intelligence page
    opens. An example-only choice sets no sources.
   */
  function Continue(app: App, choice: DataSources.Choice): (r: App)
    ensures r.sources == FormatSources(choice.sources) && r.useCase == app.useCase
    ensures r.session == app.session && r.route == "/document-intelligence"
    ensures choice.sources == [] ==> r.local == app.local
    ensures Synced(app) ==> Synced(r)
  {
    SetSources(app, FormatSources(choice.sources)).(route := "/document-intelligence")
  }

  /** `handleBack`: only the chat session is retired; the selection and `localStorage` stay. */
  function Back(app: App): (r: App)
    ensures SessionKey !in r.session
    ensures forall k :: k != SessionKey ==> Get(r.session, k) == Get(app.session, k)
    ensures r.useCase == app.useCase && r.sources == app.sources && r.local == app.local
    ensures r.route == "/use-case"
  {
    app.(session := Remove(app.session, SessionKey), route := "/use-case")
  }

  /** The page renders only once a use case is chosen. */
  predicate Renders(app: App) {
    Truthy(app.useCase)
  }

  /** The redirect effect: without a use case the browser is sent to the use-case page. */
  function Guard(app: App): (r: App)
    ensures Renders(app) ==> r == app
    ensures !Renders(app) ==> r == app.(route := "/use-case")
  {
    if Truthy(app.useCase) then app else app.(route := "/use-case")
  }
}
