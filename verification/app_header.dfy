/**
  The application header: which stepper step the route stands for, the
  human-readable use-case label, and the "Start Over" confirmation.
 */
module AppHeader {
  import opened JsValue
  import opened Selection
  import JsText
  import ClickableStepper

  // ---------------------------------------------------------------------------
  // Current step
  // ---------------------------------------------------------------------------

  /** `getCurrentStep()`: the first of `/use-case`, `/sources`, `/document-intelligence` the route contains; step 1 otherwise. */
  function GetCurrentStep(route: string): (step: int)
    ensures 1 <= step <= 3
    ensures step == 2 <==> !JsText.Contains(route, "/use-case") && JsText.Contains(route, "/sources")
    ensures step == 3 <==>
      !JsText.Contains(route, "/use-case") && !JsText.Contains(route, "/sources")
      && JsText.Contains(route, "/document-intelligence")
  {
    if JsText.Contains(route, "/use-case") then 1
    else if JsText.Contains(route, "/sources") then 2
    else if JsText.Contains(route, "/document-intelligence") then 3
    else 1
  }

  /** The three pages of the flow are steps 1, 2 and 3, and the landing page falls back to step 1. */
  lemma PageSteps()
    ensures GetCurrentStep("/use-case") == 1
    ensures GetCurrentStep("/sources") == 2
    ensures GetCurrentStep("/document-intelligence") == 3
    ensures GetCurrentStep("/") == 1
  {
    JsText.ContainsAt("/use-case", "/use-case", 0);
    SourcesPageStep();
    DocumentPageStep();
    LandingPageStep();
  }

  lemma SourcesPageStep()
    ensures GetCurrentStep("/sources") == 2
  {
    JsText.ContainsAt("/sources", "/sources", 0);
    JsText.MissingCharNotContained("/sources", "/use-case", 'a');
  }

  lemma DocumentPageStep()
    ensures GetCurrentStep("/document-intelligence") == 3
  {
    JsText.ContainsAt("/document-intelligence", "/document-intelligence", 0);
    JsText.MissingCharNotContained("/document-intelligence", "/use-case", 's');
    JsText.MissingCharNotContained("/document-intelligence", "/sources", 's');
  }

  lemma LandingPageStep()
    ensures GetCurrentStep("/") == 1
  {
    JsText.MissingCharNotContained("/", "/use-case", 'u');
    JsText.MissingCharNotContained("/", "/sources", 's');
    JsText.MissingCharNotContained("/", "/document-intelligence", 'd');
  }

  /** `showStartOverButton`: only on the document-intelligence page. */
  predicate ShowStartOverButton(route: string) {
    JsText.Contains(route, "/document-intelligence")
  }

  /** Where the header says step 3, the Start Over button is shown and the stepper is inert. */
  lemma StartOverOnFinalStep(route: string)
    requires GetCurrentStep(route) == 3
    ensures ShowStartOverButton(route) && ClickableStepper.OnFinalStep(route)
  {
  }

  /** The header's stepper: on the page it reports as step `s`, only a click on an earlier step acts. */
  lemma HeaderStepperOnlyGoesBack(app: App, clicked: Option<nat>)
    requires ClickableStepper.HandleStepperClick(app, GetCurrentStep(app.route), clicked) != app
    ensures clicked.Some? && clicked.value + 1 < GetCurrentStep(app.route)
    ensures GetCurrentStep(app.route) >= 2 && !ShowStartOverButton(app.route)
  {
  }

  // ---------------------------------------------------------------------------
  // Use-case label
  // ---------------------------------------------------------------------------

  /** `word.charAt(0).toUpperCase() + word.slice(1)`. */
  function Capitalize(w: string): (r: string)
    ensures |r| == |w|
    ensures w != [] ==> r[0] == JsText.UpperAscii(w[0]) && r[1..] == w[1..]
  {
    if w == [] then [] else [JsText.UpperAscii(w[0])] + w[1..]
  }

  function CapitalizeAll(ws: seq<string>): (r: seq<string>)
    ensures |r| == |ws|
  {
    if ws == [] then [] else [Capitalize(ws[0])] + CapitalizeAll(ws[1..])
  }

  /**
    The label read character by character: underscores become spaces and a letter
    that starts the text (when `atStart`) or follows an underscore is upper-cased.
   */
  function Title(s: string, atStart: bool): (r: string)
    ensures |r| == |s|
  {
    if s == [] then []
    else if s[0] == '_' then " " + Title(s[1..], true)
    else [if atStart then JsText.UpperAscii(s[0]) else s[0]] + Title(s[1..], false)
  }

  /** The character `Title` writes at position `i`. */
  function TitleChar(s: string, atStart: bool, i: nat): char
    requires i < |s|
  {
    if s[i] == '_' then ' '
    else if (i == 0 && atStart) || (i > 0 && s[i - 1] == '_') then JsText.UpperAscii(s[i])
    else s[i]
  }

  lemma {:induction false} TitleAt(s: string, atStart: bool)
    ensures forall i :: 0 <= i < |s| ==> Title(s, atStart)[i] == TitleChar(s, atStart, i)
    decreases |s|
  {
    if s != [] {
      TitleAt(s[1..], s[0] == '_');
      forall i | 1 <= i < |s| ensures Title(s, atStart)[i] == TitleChar(s, atStart, i) {
        assert Title(s, atStart)[i] == Title(s[1..], s[0] == '_')[i - 1];
        assert s[1..][i - 1] == s[i];
        if i > 1 {
          assert s[1..][i - 2] == s[i - 1];
        }
      }
    }
  }

  lemma CapitalizeAllCons(w: string, ws: seq<string>)
    ensures CapitalizeAll([w] + ws) == [Capitalize(w)] + CapitalizeAll(ws)
  {
    assert ([w] + ws)[1..] == ws;
  }

  lemma CapitalizeSnoc(word: string, c: char)
    ensures Capitalize(word + [c]) == Capitalize(word) + [if word == [] then JsText.UpperAscii(c) else c]
  {
    if word != [] {
      assert (word + [c])[1..] == word[1..] + [c];
    }
  }

  /** Splitting on `_`, capitalising each piece and joining with spaces is the character-wise label. */
  lemma {:induction false} JoinCapitalizedSplit(s: string, word: string)
    ensures JsText.Join(CapitalizeAll(JsText.SplitFrom(s, '_', word)), " ") == Capitalize(word) + Title(s, word == [])
    decreases |s|
  {
    if s == [] {
      CapitalizeAllCons(word, []);
    } else if s[0] == '_' {
      JoinCapitalizedSplit(s[1..], []);
      SplitAtUnderscore(s, word);
    } else {
      JoinCapitalizedSplit(s[1..], word + [s[0]]);
      SplitAtLetter(s, word);
    }
  }

  /** The step of `JoinCapitalizedSplit` at an underscore: the current word is finished. */
  lemma SplitAtUnderscore(s: string, word: string)
    requires s != [] && s[0] == '_'
    requires JsText.Join(CapitalizeAll(JsText.SplitFrom(s[1..], '_', [])), " ") == Capitalize([]) + Title(s[1..], true)
    ensures JsText.Join(CapitalizeAll(JsText.SplitFrom(s, '_', word)), " ") == Capitalize(word) + Title(s, word == [])
  {
    var rest := JsText.SplitFrom(s[1..], '_', []);
    var tail := Title(s[1..], true);
    assert JsText.Join(CapitalizeAll(rest), " ") == tail;
    JoinCapitalizedCons(word, rest, tail);
    assert JsText.SplitFrom(s, '_', word) == [word] + rest;
    assert Title(s, word == []) == " " + tail;
  }

  /** Joining a capitalised word in front of other capitalised parts puts a space between. */
  lemma JoinCapitalizedCons(word: string, rest: seq<string>, tail: string)
    requires rest != [] && JsText.Join(CapitalizeAll(rest), " ") == tail
    ensures JsText.Join(CapitalizeAll([word] + rest), " ") == Capitalize(word) + (" " + tail)
  {
    CapitalizeAllCons(word, rest);
    JsText.JoinCons(Capitalize(word), CapitalizeAll(rest), " ");
  }

  /** The step of `JoinCapitalizedSplit` at any other character: it extends the current word. */
  lemma SplitAtLetter(s: string, word: string)
    requires s != [] && s[0] != '_'
    requires JsText.Join(CapitalizeAll(JsText.SplitFrom(s[1..], '_', word + [s[0]])), " ")
      == Capitalize(word + [s[0]]) + Title(s[1..], word + [s[0]] == [])
    ensures JsText.Join(CapitalizeAll(JsText.SplitFrom(s, '_', word)), " ") == Capitalize(word) + Title(s, word == [])
  {
    var c := s[0];
    var tail := Title(s[1..], false);
    assert word + [c] != [];
    CapitalizeSnocThen(word, c, tail);
    assert JsText.SplitFrom(s, '_', word) == JsText.SplitFrom(s[1..], '_', word + [c]);
    assert Title(s, word == []) == [if word == [] then JsText.UpperAscii(c) else c] + tail;
  }

  lemma CapitalizeSnocThen(word: string, c: char, tail: string)
    ensures Capitalize(word + [c]) + tail == Capitalize(word) + ([if word == [] then JsText.UpperAscii(c) else c] + tail)
  {
    CapitalizeSnoc(word, c);
  }

  /**
    `formatUseCase(useCase)`: empty for an absent or empty use case; otherwise each
    `_` becomes a space and each word's first letter is upper-cased, so the label is
    exactly as long as the identifier.
   */
  function FormatUseCase(u: Option<string>): (r: string)
    ensures !Truthy(u) ==> r == ""
    ensures Truthy(u) ==> r == Title(u.value, true) && |r| == |u.value|
    ensures Truthy(u) ==> forall i :: 0 <= i < |r| ==> r[i] == TitleChar(u.value, true, i)
  {
    if !Truthy(u) then ""
    else
      JoinCapitalizedSplit(u.value, []);
      TitleAt(u.value, true);
      JsText.Join(CapitalizeAll(JsText.Split(u.value, '_')), " ")
  }

  // ---------------------------------------------------------------------------
  // Start Over
  // ---------------------------------------------------------------------------

  /** `handleStartOver`: opens the confirmation dialog. */
  function HandleStartOver(app: App): (r: App)
    ensures r.startOverModal
    ensures r.(startOverModal := app.startOverModal) == app
  {
    app.(startOverModal := true)
  }

  /** Closing the dialog without confirming. */
  function CancelStartOver(app: App): (r: App)
    ensures !r.startOverModal
    ensures r.(startOverModal := app.startOverModal) == app
  {
    app.(startOverModal := false)
  }

  /**
    `confirmStartOver`: clears the selection, removes the session id from
    `localStorage` (where it is never written), closes the dialog and goes to the
    use-case page. `sessionStorage`, which holds the live chat session, is untouched.
   */
  function ConfirmStartOver(app: App): (r: App)
    ensures r.useCase == None && r.sources == [] && !IsSelectionComplete(r)
    ensures UseCaseKey !in r.local && SourcesKey !in r.local && SessionKey !in r.local
    ensures forall k :: k != UseCaseKey && k != SourcesKey && k != SessionKey ==> Get(r.local, k) == Get(app.local, k)
    ensures r.session == app.session && r.isLoading == app.isLoading
    ensures !r.startOverModal && r.route == "/use-case"
    ensures Synced(r)
  {
    var cleared := ClearSelection(app);
    cleared.(local := Remove(cleared.local, SessionKey), startOverModal := false, route := "/use-case")
  }
}
