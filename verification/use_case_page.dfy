/**
  The use-case page: landing on it always starts over, and continuing records the
  chosen use case and moves on to the sources page.
 */
module UseCasePage {
  import opened JsValue
  import opened Selection

  /**
    The page's mount effect: `clearSelection()`, then the chat session id is removed
    from `sessionStorage`. Afterwards the selection is incomplete and neither store
    holds a session id.
   */
  function Mount(app: App): (r: App)
    ensures r.useCase == None && r.sources == [] && !IsSelectionComplete(r)
    ensures SessionKey !in r.local && SessionKey !in r.session
    ensures UseCaseKey !in r.local && SourcesKey !in r.local
    ensures forall k :: k != SessionKey ==> Get(r.session, k) == Get(app.session, k)
    ensures r.route == app.route && r.isLoading == app.isLoading
    ensures Synced(r)
  {
    var cleared := ClearSelection(app);
    cleared.(session := Remove(cleared.session, SessionKey))
  }

  /** Mounting twice is mounting once. */
  lemma MountIdempotent(app: App)
    ensures Mount(Mount(app)) == Mount(app)
  {
    var m := Mount(app);
    assert Mount(m).local == m.local;
    assert Mount(m).session == m.session;
  }

  /** `handleContinue(selectedCase)`: the use case is set (and persisted) and the sources page opens. */
  function Continue(app: App, selectedCase: string): (r: App)
    ensures r.useCase == Some(selectedCase) && r.sources == app.sources
    ensures Synced(app) && selectedCase != "" ==> Get(r.local, UseCaseKey) == Some(selectedCase)
    ensures r.session == app.session && r.route == "/sources"
    ensures Synced(app) ==> Synced(r)
  {
    SetUseCase(app, Some(selectedCase)).(route := "/sources")
  }
}
