/**
  The selection store shared by every page (`SelectionProvider`): the chosen use
  case, the chosen source selectors and a loading flag, mirrored into the
  browser's `localStorage`. The browser's two storage areas are kept apart:
  `local` is `localStorage`, `session` is `sessionStorage`, and the chat session
  id lives only in the latter. The current route and the header's "Start Over"
  dialog flag complete the state the navigation handlers act on.

  React's state updates and the persist effects that follow them are folded into
  one transition per setter: the effect for `useCase` runs when the value
  changed, the one for `sources` after every `setSources` (each call passes a
  new array).
 */
module Selection {
  import opened JsValue
  import JsonStrings

  const UseCaseKey: string := "selectedUseCase"
  const SourcesKey: string := "selectedSources"
  const SessionKey: string := "di_session_id"

  /** One browser storage area, `localStorage` or `sessionStorage`. */
  type Store = map<string, string>

  /** `storage.getItem(key)`: `null` for a missing key. */
  function Get(s: Store, key: string): (r: Option<string>)
    ensures r.Some? <==> key in s
    ensures r.Some? ==> r.value == s[key]
  {
    if key in s then Some(s[key]) else None
  }

  /** `storage.removeItem(key)`: only that key disappears. */
  function Remove(s: Store, key: string): (r: Store)
    ensures key !in r
    ensures forall k :: k != key ==> Get(r, k) == Get(s, k)
  {
    s - {key}
  }

  datatype App = App(
    useCase: Option<string>,
    sources: seq<string>,
    isLoading: bool,
    local: Store,
    session: Store,
    route: string,
    startOverModal: bool)

  /**
    Memory is mirrored in `localStorage`: a truthy use case and a non-empty source
    list are stored under their keys, the list as `JSON.stringify` writes it.
   */
  predicate Synced(app: App) {
    && (Truthy(app.useCase) ==> Get(app.local, UseCaseKey) == app.useCase)
    && (|app.sources| > 0 ==> Get(app.local, SourcesKey) == Some(JsonStrings.Stringify(app.sources)))
  }

  /** `isSelectionComplete()`: a truthy use case and at least one source. */
  predicate IsSelectionComplete(app: App) {
    Truthy(app.useCase) && |app.sources| > 0
  }

  /** The provider's state when it is first rendered, before its mount effect. */
  function Fresh(local: Store, session: Store, route: string): (r: App)
    ensures r.isLoading && r.useCase == None && r.sources == []
    ensures r.local == local && r.session == session && r.route == route
    ensures Synced(r) && !IsSelectionComplete(r)
  {
    App(None, [], true, local, session, route, false)
  }

  /**
    `setUseCase(u)` and the persist effect: a changed, truthy use case is written to
    `localStorage`; an empty or absent one leaves whatever was stored.
   */
  function SetUseCase(app: App, u: Option<string>): (r: App)
    ensures r.useCase == u
    ensures r.sources == app.sources && r.isLoading == app.isLoading
    ensures r.session == app.session && r.route == app.route && r.startOverModal == app.startOverModal
    ensures Truthy(u) ==> Get(r.local, UseCaseKey) == u || (u == app.useCase && r.local == app.local)
    ensures forall k :: k != UseCaseKey ==> Get(r.local, k) == Get(app.local, k)
    ensures !Truthy(u) ==> r.local == app.local
    ensures Synced(app) ==> Synced(r)
  {
    var local := if u != app.useCase && Truthy(u) then app.local[UseCaseKey := u.value] else app.local;
    app.(useCase := u, local := local)
  }

  /**
    `setSources(xs)` and the persist effect: a non-empty list is written to
    `localStorage` as JSON; an empty one leaves whatever was stored.
   */
  function SetSources(app: App, xs: seq<string>): (r: App)
    ensures r.sources == xs
    ensures r.useCase == app.useCase && r.isLoading == app.isLoading
    ensures r.session == app.session && r.route == app.route && r.startOverModal == app.startOverModal
    ensures |xs| > 0 ==> SourcesKey in r.local && JsonStrings.Parse(r.local[SourcesKey]) == Some(xs)
    ensures forall k :: k != SourcesKey ==> Get(r.local, k) == Get(app.local, k)
    ensures xs == [] ==> r.local == app.local
    ensures Synced(app) ==> Synced(r)
  {
    var local := if |xs| > 0 then app.local[SourcesKey := JsonStrings.Stringify(xs)] else app.local;
    JsonStrings.ParseStringify(xs);
    app.(sources := xs, local := local)
  }

  /** The sources kept from a stored value: its parse when it parses, else none. */
  function Restored(saved: Option<string>): (xs: seq<string>)
    ensures Truthy(saved) && JsonStrings.Parse(saved.value).Some? ==> xs == JsonStrings.Parse(saved.value).value
    ensures !Truthy(saved) || JsonStrings.Parse(saved.value).None? ==> xs == []
  {
    if Truthy(saved) then JsonStrings.Parse(saved.value).GetOr([]) else []
  }

  /**
    The provider after its mount effect: a stored non-empty use case and a stored
    source list that parses are restored, a list that does not parse is dropped,
    and loading is over whatever storage held. The persist effects then write the
    restored values back; `sessionStorage` is not read.
   */
  function Load(local: Store, session: Store, route: string): (r: App)
    ensures !r.isLoading && r.session == session && r.route == route && !r.startOverModal
    ensures Truthy(Get(local, UseCaseKey)) ==> r.useCase == Get(local, UseCaseKey)
    ensures !Truthy(Get(local, UseCaseKey)) ==> r.useCase == None
    ensures r.sources == Restored(Get(local, SourcesKey))
    ensures forall k :: k != SourcesKey ==> Get(r.local, k) == Get(local, k)
    ensures Synced(r)
  {
    var saved := Get(local, UseCaseKey);
    var useCase := if Truthy(saved) then saved else None;
    var start := Fresh(local, session, route);
    var loaded := SetSources(SetUseCase(start, useCase), Restored(Get(local, SourcesKey)));
    loaded.(isLoading := false)
  }

  /**
    `clearSelection()`: memory is emptied and the three `localStorage` keys are
    removed; `sessionStorage`, where the chat session id actually lives, is left
    alone.
   */
  function ClearSelection(app: App): (r: App)
    ensures r.useCase == None && r.sources == []
    ensures UseCaseKey !in r.local && SourcesKey !in r.local && SessionKey !in r.local
    ensures forall k :: k != UseCaseKey && k != SourcesKey && k != SessionKey ==> Get(r.local, k) == Get(app.local, k)
    ensures r.session == app.session
    ensures r.isLoading == app.isLoading && r.route == app.route && r.startOverModal == app.startOverModal
    ensures Synced(r) && !IsSelectionComplete(r)
  {
    var cleared := SetSources(SetUseCase(app, None), []);
    cleared.(local := Remove(Remove(Remove(cleared.local, UseCaseKey), SourcesKey), SessionKey))
  }

  /** After a reload, a complete selection that was kept in step with storage comes back unchanged. */
  lemma ReloadRestoresSelection(app: App, route: string)
    requires Synced(app) && IsSelectionComplete(app)
    ensures Load(app.local, app.session, route).useCase == app.useCase
    ensures Load(app.local, app.session, route).sources == app.sources
    ensures IsSelectionComplete(Load(app.local, app.session, route))
  {
    JsonStrings.ParseStringify(app.sources);
  }

  /**
    Storage is not kept in step with memory the other way round: emptying the
    sources leaves the old list stored, and a reload brings it back.
   */
  lemma EmptiedSourcesReturnOnReload()
    ensures var before := SetSources(SetUseCase(Load(map[], map[], "/sources"), Some("credit_rating")), ["@local"]);
            var after := SetSources(before, []);
            && Synced(after) && after.sources == []
            && Load(after.local, after.session, "/sources").sources == ["@local"]
  {
    JsonStrings.ParseStringify(["@local"]);
  }
}
