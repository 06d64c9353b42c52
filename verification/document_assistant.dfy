/**
  The chat panel: when a question may be sent, the chat session identifier it is
  sent under, and the two messages every accepted question adds to the
  conversation.
 */
module DocumentAssistant {
  import opened JsValue
  import opened Http
  import opened JsDate
  import JsText
  import Selection
  import DocumentsClient

  // ---------------------------------------------------------------------------
  // Session identifier
  // ---------------------------------------------------------------------------

  /** `HHMMSS`, each field padded to two digits. */
  function TimePart(t: DateTime): string {
    JsText.Pad2(t.hours) + JsText.Pad2(t.minutes) + JsText.Pad2(t.seconds)
  }

  /** `session_YYYYMMDD_HHMMSS` from the local clock. */
  function SessionIdAt(t: DateTime): (id: string)
    ensures |id| > 8 && id[..8] == "session_"
  {
    "session_" + DatePart(t) + "_" + TimePart(t)
  }

  lemma TimePartFields(t: DateTime)
    requires Valid(t)
    ensures var h := TimePart(t);
      && |h| == 6 && JsText.AllDigits(h)
      && JsText.ParseDigits(h[..2]) == t.hours
      && JsText.ParseDigits(h[2..4]) == t.minutes
      && JsText.ParseDigits(h[4..6]) == t.seconds
  {
    var hh, mm, ss := JsText.Pad2(t.hours), JsText.Pad2(t.minutes), JsText.Pad2(t.seconds);
    JsText.Pad2Parse(t.hours);
    JsText.Pad2Parse(t.minutes);
    JsText.Pad2Parse(t.seconds);
    ThreeFields(hh, mm, ss);
  }

  /** For a valid clock reading with a four-digit year, the date and time sit at fixed places and read back. */
  lemma SessionIdLayout(t: DateTime)
    requires Valid(t) && FourDigitYear(t)
    ensures var id := SessionIdAt(t);
      && |id| == 23 && id[16] == '_'
      && id[8..16] == DatePart(t) && id[17..] == TimePart(t)
  {
    DatePartFields(t);
    TimePartFields(t);
    var id := SessionIdAt(t);
    assert id == "session_" + DatePart(t) + "_" + TimePart(t);
  }

  /** Distinct valid clock readings (four-digit years) give distinct session identifiers. */
  lemma SessionIdInjective(t1: DateTime, t2: DateTime)
    requires Valid(t1) && FourDigitYear(t1) && Valid(t2) && FourDigitYear(t2)
    requires SessionIdAt(t1) == SessionIdAt(t2)
    ensures t1 == t2
  {
    SessionIdLayout(t1);
    SessionIdLayout(t2);
    DatePartFields(t1);
    DatePartFields(t2);
    TimePartFields(t1);
    TimePartFields(t2);
  }

  /**
    The get-or-create step: a non-empty identifier already in `sessionStorage` is
    reused as it is; otherwise one is made from the clock and stored there.
   */
  function EnsureSession(session: Selection.Store, now: DateTime): (r: (string, Selection.Store))
    ensures Truthy(Selection.Get(session, Selection.SessionKey)) ==> r == (session[Selection.SessionKey], session)
    ensures !Truthy(Selection.Get(session, Selection.SessionKey)) ==>
      r.0 == SessionIdAt(now) && r.1 == session[Selection.SessionKey := r.0]
    ensures Selection.Get(r.1, Selection.SessionKey) == Some(r.0) && r.0 != ""
  {
    var stored := Selection.Get(session, Selection.SessionKey);
    if Truthy(stored) then (stored.value, session)
    else
      var id := SessionIdAt(now);
      (id, session[Selection.SessionKey := id])
  }

  /** Two questions with no removal in between are sent under the same session, whatever the clock says. */
  lemma SessionStableAcrossQuestions(session: Selection.Store, t1: DateTime, t2: DateTime)
    ensures var (id1, s1) := EnsureSession(session, t1);
            EnsureSession(s1, t2) == (id1, s1)
  {
  }

  // ---------------------------------------------------------------------------
  // Asking a question
  // ---------------------------------------------------------------------------

  /** What the question-answering endpoint returns; every list may be missing. */
  datatype QaAnswer = QaAnswer(answer: string, sourceChunks: Option<seq<string>>,
                               sourceDocuments: Option<seq<string>>, citations: Option<seq<string>>)

  datatype Message =
    | User(content: string)
    | Answer(content: string, sources: seq<string>, documents: seq<string>, citations: seq<string>, messageId: string)
    | Failure(content: string)

  /** The body of `POST /api/qa/query`. */
  datatype QaRequest = QaRequest(query: string, selectedDocuments: seq<string>, maxChunks: int, sessionId: string)

  datatype Chat = Chat(query: string, messages: seq<Message>, loading: bool)

  /** The submit guard: a question with some non-blank text and at least one chosen document. */
  predicate CanSubmit(query: string, selectedDocuments: seq<string>) {
    JsText.Trim(query) != [] && |selectedDocuments| > 0
  }

  const AnswerFallback: string := "Failed to get answer"

  /**
    The assistant's message once the request settles: the answer with missing lists read
    as empty, or `Error: ` and the message of whatever was thrown. A failed status reads
    its body tolerantly; an OK body that does not parse throws its syntax error.
   */
  function Reply(x: Exchange<QaAnswer>, nowMillis: nat): (m: Message)
    ensures m.Answer? <==> x.Answered? && x.response.ok && x.response.body.Json?
    ensures m.Answer? ==>
      var data := x.response.body.data;
      m == Answer(data.answer, data.sourceChunks.GetOr([]), data.sourceDocuments.GetOr([]),
                  data.citations.GetOr([]), "msg_" + JsText.NatToString(nowMillis))
    ensures x.TransportError? ==> m == Failure("Error: " + x.message)
    ensures x.Answered? && !x.response.ok ==>
      m == Failure("Error: " + TolerantFailure(x.response.body, AnswerFallback))
    ensures x.Answered? && x.response.ok && x.response.body.Malformed? ==>
      m == Failure("Error: " + x.response.body.syntaxError)
  {
    match x
    case TransportError(e) => Failure("Error: " + e)
    case Answered(resp) =>
      if !resp.ok then Failure("Error: " + TolerantFailure(resp.body, AnswerFallback))
      else match resp.body
        case Malformed(e) => Failure("Error: " + e)
        case Json(_, data) =>
          Answer(data.answer, data.sourceChunks.GetOr([]), data.sourceDocuments.GetOr([]),
                 data.citations.GetOr([]), "msg_" + JsText.NatToString(nowMillis))
  }

  /** What a submit produced: the chat, `sessionStorage`, and the request sent, if any. */
  datatype Submitted = Submitted(chat: Chat, session: Selection.Store, request: Option<QaRequest>)

  /**
    `handleSubmit`: a refused question changes nothing and sends nothing. An accepted
    one clears the input, appends the user's message, sends the untrimmed question with
    the chosen documents under the session identifier, and appends exactly one assistant
    message; loading is over at the end.
   */
  function HandleSubmit(chat: Chat, selectedDocuments: seq<string>, session: Selection.Store,
                        now: DateTime, nowMillis: nat, x: Exchange<QaAnswer>): (r: Submitted)
    ensures !CanSubmit(chat.query, selectedDocuments) ==> r == Submitted(chat, session, None)
    ensures CanSubmit(chat.query, selectedDocuments) ==>
      && r.chat.query == "" && !r.chat.loading
      && |r.chat.messages| == |chat.messages| + 2
      && r.chat.messages[..|chat.messages|] == chat.messages
      && r.chat.messages[|chat.messages|] == User(chat.query)
      && r.chat.messages[|chat.messages| + 1] == Reply(x, nowMillis)
      && r.request == Some(QaRequest(chat.query, selectedDocuments, 10, EnsureSession(session, now).0))
      && Selection.Get(r.session, Selection.SessionKey) == Some(r.request.value.sessionId)
      && r.session == EnsureSession(session, now).1
      && (forall k :: k != Selection.SessionKey ==> Selection.Get(r.session, k) == Selection.Get(session, k))
  {
    if !CanSubmit(chat.query, selectedDocuments) then Submitted(chat, session, None)
    else
      var (id, session') := EnsureSession(session, now);
      var messages := chat.messages + [User(chat.query)] + [Reply(x, nowMillis)];
      Submitted(Chat("", messages, false), session', Some(QaRequest(chat.query, selectedDocuments, 10, id)))
  }

  /** A blank question is refused even with documents chosen; a question with no documents is refused too. */
  lemma BlankOrNoDocumentsRefused(chat: Chat, selectedDocuments: seq<string>, session: Selection.Store,
                                  now: DateTime, nowMillis: nat, x: Exchange<QaAnswer>)
    requires JsText.IsBlank(chat.query) || selectedDocuments == []
    ensures HandleSubmit(chat, selectedDocuments, session, now, nowMillis, x).request.None?
  {
    JsText.TrimEmptyIffBlank(chat.query);
  }

  // ---------------------------------------------------------------------------
  // Chosen document names
  // ---------------------------------------------------------------------------

  /** `getSelectedDocumentNames()`: the names of the chosen documents, in list order. */
  function GetSelectedDocumentNames(documents: seq<DocumentsClient.Document>, selected: seq<string>): (names: seq<string>)
    ensures |names| <= |documents|
    ensures forall i :: 0 <= i < |documents| && documents[i].documentId in selected ==> documents[i].documentName in names
    ensures forall n :: n in names ==>
      exists i :: 0 <= i < |documents| && documents[i].documentId in selected && documents[i].documentName == n
    ensures (forall i :: 0 <= i < |documents| ==> documents[i].documentId in selected) ==> |names| == |documents|
  {
    if documents == [] then []
    else
      var rest := GetSelectedDocumentNames(documents[1..], selected);
      assert forall i :: 1 <= i < |documents| ==> documents[i] == documents[1..][i - 1];
      if documents[0].documentId in selected then [documents[0].documentName] + rest else rest
  }

  /** One document contributes its name exactly when it is chosen. */
  lemma SelectedNameOfOne(d: DocumentsClient.Document, selected: seq<string>)
    ensures GetSelectedDocumentNames([d], selected) == if d.documentId in selected then [d.documentName] else []
  {
  }

  /**
    The names follow the list: the names of two lists placed one after the other are the
    first list's names followed by the second's, so order and repetitions are the list's.
   */
  lemma {:induction false} SelectedNamesAppend(a: seq<DocumentsClient.Document>, b: seq<DocumentsClient.Document>, selected: seq<string>)
    ensures GetSelectedDocumentNames(a + b, selected) == GetSelectedDocumentNames(a, selected) + GetSelectedDocumentNames(b, selected)
  {
    if a == [] {
      assert a + b == b;
    } else {
      assert (a + b)[0] == a[0];
      assert (a + b)[1..] == a[1..] + b;
      SelectedNamesAppend(a[1..], b, selected);
    }
  }
}
