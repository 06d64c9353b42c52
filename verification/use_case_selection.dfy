/**
  The use-case picker: five cards, one selected at a time, and a Continue button
  that reports the selected card's identifier.
 */
module UseCaseSelection {
  import opened JsValue

  /** The identifiers of the five cards, in display order. */
  const UseCaseIds: seq<string> :=
    ["credit_rating", "payment_exception", "investment_research", "kyc_onboarding", "loan_origination"]

  /** The cards are five distinct, non-empty identifiers. */
  lemma UseCaseIdsDistinct()
    ensures |UseCaseIds| == 5
    ensures forall i, j :: 0 <= i < j < |UseCaseIds| ==> UseCaseIds[i] != UseCaseIds[j]
    ensures forall i :: 0 <= i < |UseCaseIds| ==> UseCaseIds[i] != ""
  {
    assert UseCaseIds[0][0] == 'c' && UseCaseIds[1][0] == 'p' && UseCaseIds[2][0] == 'i';
    assert UseCaseIds[3][0] == 'k' && UseCaseIds[4][0] == 'l';
  }

  /** `handleCardSelect(caseId)`: the clicked card replaces any earlier choice. */
  function SelectCard(selected: Option<string>, caseId: string): Option<string> {
    Some(caseId)
  }

  /** The Continue button is disabled exactly while nothing is selected. */
  predicate ContinueDisabled(selected: Option<string>) {
    !Truthy(selected)
  }

  /**
    `handleContinue`: the identifier reported to `onContinue`, if the callback fires;
    it fires only for a selection, and the disabled button is exactly the no-fire case.
   */
  function Continue(selected: Option<string>): (reported: Option<string>)
    ensures reported.Some? <==> !ContinueDisabled(selected)
    ensures reported.Some? ==> reported == selected && reported.value != ""
  {
    if Truthy(selected) then selected else None
  }

  /** Clicking a card and then Continue reports that card's identifier. */
  lemma SelectThenContinue(selected: Option<string>, i: nat)
    requires i < |UseCaseIds|
    ensures Continue(SelectCard(selected, UseCaseIds[i])) == Some(UseCaseIds[i])
  {
    UseCaseIdsDistinct();
  }
}
