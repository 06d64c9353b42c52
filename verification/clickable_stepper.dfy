/**
  The header's three-step stepper (Use Case, Sources, Document Intelligence):
  clicking an earlier step goes back and resets what that step chose; later
  steps and the current one are inert, and the whole stepper is inert on the
  document-intelligence page.
 */
module ClickableStepper {
  import opened JsValue
  import opened Selection
  import JsText

  /** `pathname.includes('/document-intelligence')`: the final page, where the stepper does not react. */
  predicate OnFinalStep(route: string) {
    JsText.Contains(route, "/document-intelligence")
  }

  /**
    `handleStepClick(stepIndex)` with the stepper showing `currentStep`. Going back to
    step 1 clears the whole selection and retires the chat session; going back to step 2
    keeps the use case but forgets the sources, in memory and in storage, and retires the
    chat session; step 3 only navigates, and only for a complete selection.
   */
  function HandleStepClick(app: App, currentStep: int, stepIndex: int): (r: App)
    ensures stepIndex >= currentStep ==> r == app
    ensures stepIndex < currentStep && stepIndex == 1 ==>
      && r.useCase == None && r.sources == []
      && UseCaseKey !in r.local && SourcesKey !in r.local && SessionKey !in r.local
      && (forall k :: k != UseCaseKey && k != SourcesKey && k != SessionKey ==> Get(r.local, k) == Get(app.local, k))
      && SessionKey !in r.session
      && (forall k :: k != SessionKey ==> Get(r.session, k) == Get(app.session, k))
      && r.route == "/use-case"
    ensures stepIndex < currentStep && stepIndex == 2 ==>
      && r.useCase == app.useCase && r.sources == []
      && SourcesKey !in r.local
      && (forall k :: k != SourcesKey ==> Get(r.local, k) == Get(app.local, k))
      && SessionKey !in r.session
      && (forall k :: k != SessionKey ==> Get(r.session, k) == Get(app.session, k))
      && r.route == "/sources"
    ensures stepIndex < currentStep && stepIndex == 3 ==>
      r == if IsSelectionComplete(app) then app.(route := "/document-intelligence") else app
    ensures stepIndex != 1 && stepIndex != 2 && stepIndex != 3 ==> r == app
    ensures r.isLoading == app.isLoading && r.startOverModal == app.startOverModal
    ensures Synced(app) ==> Synced(r)
  {
    if stepIndex > currentStep || stepIndex == currentStep then app
    else if stepIndex == 1 then
      ClearSelection(app).(session := Remove(app.session, SessionKey), route := "/use-case")
    else if stepIndex == 2 then
      var emptied := SetSources(app, []);
      emptied.(local := Remove(emptied.local, SourcesKey), session := Remove(app.session, SessionKey), route := "/sources")
    else if stepIndex == 3 then
      if IsSelectionComplete(app) then app.(route := "/document-intelligence") else app
    else app
  }

  /** With at most three steps, the step-3 branch is dead: no click on step 3 changes anything. */
  lemma FinalStepBranchUnreachable(app: App, currentStep: int)
    requires currentStep <= 3
    ensures HandleStepClick(app, currentStep, 3) == app
  {
  }

  /**
    `handleStepperClick`: the DOM walk is summarised by `clicked`, the 0-based position
    of the clicked step among the stepper's steps (`None` when no step was hit). A step
    found at position `i` is dispatched as step `i + 1`.
   */
  function HandleStepperClick(app: App, currentStep: int, clicked: Option<nat>): (r: App)
    ensures OnFinalStep(app.route) || clicked.None? ==> r == app
    ensures r != app ==> clicked.Some? && clicked.value + 1 < currentStep && !OnFinalStep(app.route)
    ensures Synced(app) ==> Synced(r)
  {
    if OnFinalStep(app.route) then app
    else match clicked
      case None => app
      case Some(i) => HandleStepClick(app, currentStep, i + 1)
  }

  /** A stepper click on any route that is not the final page acts exactly as the step it hit. */
  lemma StepperDispatchesPosition(app: App, currentStep: int, i: nat)
    requires !OnFinalStep(app.route)
    ensures HandleStepperClick(app, currentStep, Some(i)) == HandleStepClick(app, currentStep, i + 1)
  {
  }
}
