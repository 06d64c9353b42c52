/**
  The question box of the chat view: when a question may be sent, what is sent,
  and when the suggestions are listed.
 */
module QuestionInput {
  import opened JsValue
  import JsText

  /** `handleSubmit`: the question, untrimmed, goes to `onSubmit` when it is not blank and nothing is loading. */
  function HandleSubmit(question: string, isLoading: bool): (sent: Option<string>)
    ensures sent.Some? <==> !JsText.IsBlank(question) && !isLoading
    ensures sent.Some? ==> sent.value == question
  {
    JsText.TrimEmptyIffBlank(question);
    if JsText.Trim(question) != "" && !isLoading then Some(question) else None
  }

  /** The submit button's `disabled`: a blank question or a pending request. */
  predicate SubmitDisabled(question: string, isLoading: bool) {
    JsText.Trim(question) == "" || isLoading
  }

  /** The button is enabled exactly when pressing it sends the question. */
  lemma ButtonMatchesSubmit(question: string, isLoading: bool)
    ensures !SubmitDisabled(question, isLoading) <==> HandleSubmit(question, isLoading).Some?
  {
    JsText.TrimEmptyIffBlank(question);
  }

  /** The suggestions are listed when there are some and nothing is loading. */
  predicate ShowSuggestions(suggestions: seq<string>, isLoading: bool) {
    |suggestions| > 0 && !isLoading
  }

  /** `handleSuggestionClick(s)`: the typed question is replaced by the suggestion. */
  function SuggestionClick(question: string, suggestion: string): string {
    suggestion
  }

  /** Picking a listed, non-blank suggestion and submitting sends that suggestion verbatim. */
  lemma SuggestionThenSubmit(question: string, suggestions: seq<string>, i: nat, isLoading: bool)
    requires ShowSuggestions(suggestions, isLoading) && i < |suggestions| && !JsText.IsBlank(suggestions[i])
    ensures HandleSubmit(SuggestionClick(question, suggestions[i]), isLoading) == Some(suggestions[i])
  {
  }
}
