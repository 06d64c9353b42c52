/**
  The quick-question buttons of the assistant: which questions are offered for a
  use case, which of them can be pressed, and the accent colour per category.
 */
module PreCannedQuestions {
  import opened JsValue

  datatype Question = Question(id: string, text: string, category: string)

  const Base: seq<Question> := [
    Question("capabilities", "What can you do for me?", "general"),
    Question("about", "What are these documents about?", "analysis"),
    Question("memory", "What questions have I asked you so far?", "memory")
  ]

  const FsiExtra: seq<Question> := [
    Question("risk_assessment", "What are the key risk factors mentioned?", "fsi"),
    Question("compliance", "Are there any compliance issues or regulatory concerns?", "fsi")
  ]

  /** `getPreCannedQuestions()`: the three base questions, then the two FSI questions for use case `fsi` only. */
  function GetPreCannedQuestions(useCase: string): (qs: seq<Question>)
    ensures |qs| >= 3 && qs[..3] == Base
    ensures useCase == "fsi" <==> |qs| == 5
    ensures useCase != "fsi" ==> |qs| == 3
    ensures useCase == "fsi" ==> qs[3..] == FsiExtra
  {
    if useCase == "fsi" then Base + FsiExtra else Base
  }

  /** The offered questions have distinct ids, whatever the use case. */
  lemma QuestionIdsDistinct(useCase: string)
    ensures var qs := GetPreCannedQuestions(useCase);
      forall i, j :: 0 <= i < j < |qs| ==> qs[i].id != qs[j].id
  {
  }

  /**
    `isDisabled`: without selected documents every non-general question is disabled,
    except the memory question once there is a conversation to recall.
   */
  predicate IsDisabled(q: Question, hasSelectedDocuments: bool, hasPreviousMessages: bool) {
    !hasSelectedDocuments && q.category != "general" && (q.id != "memory" || !hasPreviousMessages)
  }

  /** With documents selected nothing is disabled, and a general question is never disabled. */
  lemma EnabledCases(q: Question, hasSelectedDocuments: bool, hasPreviousMessages: bool)
    ensures hasSelectedDocuments ==> !IsDisabled(q, hasSelectedDocuments, hasPreviousMessages)
    ensures q.category == "general" ==> !IsDisabled(q, hasSelectedDocuments, hasPreviousMessages)
  {
  }

  /** Without selected documents: the capabilities question is enabled, the about question disabled, the memory question enabled exactly when there are earlier messages, and the FSI questions disabled. */
  lemma WithoutDocuments(useCase: string, hasPreviousMessages: bool)
    ensures var qs := GetPreCannedQuestions(useCase);
      && !IsDisabled(qs[0], false, hasPreviousMessages)
      && IsDisabled(qs[1], false, hasPreviousMessages)
      && (IsDisabled(qs[2], false, hasPreviousMessages) <==> !hasPreviousMessages)
      && forall i :: 3 <= i < |qs| ==> IsDisabled(qs[i], false, hasPreviousMessages)
  {
    var qs := GetPreCannedQuestions(useCase);
    assert qs[0] == Base[0] && qs[1] == Base[1] && qs[2] == Base[2];
  }

  /** A click selects the question and passes it on, unless the question is disabled. */
  function Click(q: Question, hasSelectedDocuments: bool, hasPreviousMessages: bool): (selected: Option<Question>)
    ensures selected.Some? <==> !IsDisabled(q, hasSelectedDocuments, hasPreviousMessages)
    ensures selected.Some? ==> selected.value == q
  {
    if IsDisabled(q, hasSelectedDocuments, hasPreviousMessages) then None else Some(q)
  }

  /** `getCategoryColor(category)`: a colour per known category, `#666` for any other (such as `memory`). */
  function GetCategoryColor(category: string): (c: string)
    ensures category == "general" ==> c == "#00A651"
    ensures category == "search" ==> c == "#0066CC"
    ensures category == "analysis" ==> c == "#FF6B35"
    ensures category == "fsi" ==> c == "#9B59B6"
    ensures category !in {"general", "search", "analysis", "fsi"} ==> c == "#666"
  {
    if category == "general" then "#00A651"
    else if category == "search" then "#0066CC"
    else if category == "analysis" then "#FF6B35"
    else if category == "fsi" then "#9B59B6"
    else "#666"
  }

  /** Every offered question gets a colour; only the memory question falls back to `#666`. */
  lemma OnlyMemoryIsGrey(useCase: string, i: nat)
    requires i < |GetPreCannedQuestions(useCase)|
    ensures var q := GetPreCannedQuestions(useCase)[i];
      GetCategoryColor(q.category) == "#666" <==> q.id == "memory"
  {
  }
}
