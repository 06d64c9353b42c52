/**
  The progress indicator: three numbered steps, each drawn as completed, active
  or inactive relative to the current step, with connectors after the first
  two; only completed steps can be clicked, and a click goes to that step's page.
 */
module ProgressIndicator {
  import opened JsValue

  datatype Step = Step(id: nat, name: string, path: string)

  const Steps: seq<Step> := [
    Step(1, "Use Case", "/use-case"),
    Step(2, "Sources", "/sources"),
    Step(3, "Document Intelligence", "/document-intelligence")
  ]

  /** `handleStepClick(step)`: navigate to the step's page when it lies before the current step. */
  function HandleStepClick(step: Step, currentStep: int): (route: Option<string>)
    ensures route.Some? <==> step.id < currentStep
    ensures route.Some? ==> route.value == step.path
  {
    if step.id < currentStep then Some(step.path) else None
  }

  datatype Circle = Completed | Active | Inactive

  /** The circle's class: completed before the current step, active on it, inactive after it. */
  function CircleState(step: Step, currentStep: int): (c: Circle)
    ensures c == Completed <==> step.id < currentStep
    ensures c == Active <==> step.id == currentStep
    ensures c == Inactive <==> step.id > currentStep
  {
    if step.id < currentStep then Completed else if step.id == currentStep then Active else Inactive
  }

  /** The label is highlighted for the current step and the ones before it. */
  predicate LabelActive(step: Step, currentStep: int) {
    step.id <= currentStep
  }

  datatype Connector = ConnectorCompleted | ConnectorInactive

  /** The connector after the step at `index`: none after the last step, completed when the step lies before the current one. */
  function ConnectorAfter(index: nat, currentStep: int): (c: Option<Connector>)
    requires index < |Steps|
    ensures c.Some? <==> index < |Steps| - 1
    ensures c.Some? ==> (c.value == ConnectorCompleted <==> Steps[index].id < currentStep)
  {
    if index < |Steps| - 1 then
      Some(if Steps[index].id < currentStep then ConnectorCompleted else ConnectorInactive)
    else None
  }

  /** A step is clickable exactly when it shows as completed, and then its label is highlighted too. */
  lemma ClickableIffCompleted(i: nat, currentStep: int)
    requires i < |Steps|
    ensures HandleStepClick(Steps[i], currentStep).Some? <==> CircleState(Steps[i], currentStep) == Completed
    ensures CircleState(Steps[i], currentStep) != Inactive <==> LabelActive(Steps[i], currentStep)
  {
  }

  /** On a valid step exactly one circle is active and the steps before it are completed. */
  lemma OneActiveStep(currentStep: int)
    requires 1 <= currentStep <= 3
    ensures forall i :: 0 <= i < |Steps| ==> (CircleState(Steps[i], currentStep) == Active <==> i == currentStep - 1)
    ensures forall i :: 0 <= i < currentStep - 1 ==> CircleState(Steps[i], currentStep) == Completed
  {
  }
}
