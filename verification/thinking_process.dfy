/**
  The agent's step log shown while an answer is prepared: a CSS class and an
  icon per step type, and the clean-up of each log message.
 */
module ThinkingProcess {
  import opened JsValue
  import JsText

  // ---------------------------------------------------------------------------
  // Step class and icon
  // ---------------------------------------------------------------------------

  /** `getStepClass(stepType)`, as the list of CSS-module class names it joins. */
  function GetStepClass(stepType: string): (r: seq<string>)
    ensures |r| >= 1 && r[0] == "thinkingStep"
    ensures (stepType == "complete" || stepType == "grade_relevant") <==> r == ["thinkingStep", "stepSuccess"]
    ensures stepType == "grade_irrelevant" <==> r == ["thinkingStep", "stepWarning"]
    ensures stepType != "complete" && stepType != "grade_relevant" && stepType != "grade_irrelevant" ==> r == ["thinkingStep"]
  {
    if stepType == "complete" || stepType == "grade_relevant" then ["thinkingStep", "stepSuccess"]
    else if stepType == "grade_irrelevant" then ["thinkingStep", "stepWarning"]
    else ["thinkingStep"]
  }

  datatype Icon = Search | FileSearch | CheckCircle | RotateCcw | PenLine | Sparkles | Dot

  /** The step types the agent reports. */
  const KnownStepTypes: set<string> := {
    "query_analyze", "query_prepare", "retrieve_complete", "grade_start", "grade_relevant",
    "grade_irrelevant", "rewrite", "answer_generate", "complete" }

  /** `getStepIcon(stepType)`: an icon per known step type, a plain dot for anything else. */
  function GetStepIcon(stepType: string): (i: Icon)
    ensures i == Dot <==> stepType !in KnownStepTypes
    ensures stepType == "query_prepare" || stepType == "retrieve_complete" ==> i == FileSearch
    ensures stepType == "grade_start" || stepType == "grade_relevant" ==> i == CheckCircle
    ensures stepType == "grade_irrelevant" || stepType == "rewrite" ==> i == RotateCcw
  {
    if stepType == "query_analyze" then Search
    else if stepType == "query_prepare" || stepType == "retrieve_complete" then FileSearch
    else if stepType == "grade_start" || stepType == "grade_relevant" then CheckCircle
    else if stepType == "grade_irrelevant" || stepType == "rewrite" then RotateCcw
    else if stepType == "answer_generate" then PenLine
    else if stepType == "complete" then Sparkles
    else Dot
  }

  /** A step drawn as a success shows a check or sparkles; one drawn as a warning shows the retry arrow. */
  lemma StepClassMatchesIcon(stepType: string)
    ensures "stepSuccess" in GetStepClass(stepType) ==> GetStepIcon(stepType) in {CheckCircle, Sparkles}
    ensures "stepWarning" in GetStepClass(stepType) ==> GetStepIcon(stepType) == RotateCcw
    ensures GetStepIcon(stepType) == Dot ==> GetStepClass(stepType) == ["thinkingStep"]
  {
  }

  // ---------------------------------------------------------------------------
  // Message clean-up
  // ---------------------------------------------------------------------------

  /**
    The index of the first alternative, in listed order, that is a non-empty prefix of `s`:
    the alternative a regular expression `a|b|…` matches at the start of `s`.
   */
  function FirstMatch(s: string, alts: seq<string>): (r: Option<nat>)
    ensures r.Some? ==> r.value < |alts| && alts[r.value] != [] && alts[r.value] <= s
    ensures r.Some? ==> forall j :: 0 <= j < r.value ==> !(alts[j] != [] && alts[j] <= s)
    ensures r.None? ==> forall j :: 0 <= j < |alts| ==> !(alts[j] != [] && alts[j] <= s)
  {
    if alts == [] then None
    else if alts[0] != [] && alts[0] <= s then Some(0)
    else match FirstMatch(s, alts[1..])
      case None => None
      case Some(i) => Some(i + 1)
  }

  /**
    `s.replace(/a|b|…/g, '')`: one left-to-right pass that deletes the alternative matching
    at the current position, if any, and otherwise keeps one character.
   */
  function Strip(s: string, alts: seq<string>): (r: string)
    ensures |r| <= |s|
    decreases |s|
  {
    if s == [] then []
    else match FirstMatch(s, alts)
      case Some(i) => Strip(s[|alts[i]|..], alts)
      case None => [s[0]] + Strip(s[1..], alts)
  }

  /** The alternative picked at the front of `s` is the first, in listed order, that matches there. */
  lemma FirstMatchPicks(s: string, alts: seq<string>, j: nat)
    requires j < |alts| && alts[j] != [] && alts[j] <= s
    requires forall i :: 0 <= i < j ==> !(alts[i] <= s)
    ensures FirstMatch(s, alts) == Some(j)
  {
  }

  /** The pass deletes the alternative it picks at the front and carries on with what follows. */
  lemma StripDeletesMatch(alts: seq<string>, j: nat, rest: string)
    requires j < |alts| && FirstMatch(alts[j] + rest, alts) == Some(j)
    ensures Strip(alts[j] + rest, alts) == Strip(rest, alts)
  {
    var s := alts[j] + rest;
    assert s[|alts[j]|..] == rest;
  }

  /** No alternative starts anywhere in `s`. */
  predicate NoneOccurs(s: string, alts: seq<string>) {
    forall k, j :: 0 <= k <= |s| && 0 <= j < |alts| ==> !(alts[j] != [] && alts[j] <= s[k..])
  }

  /** A text in which no alternative occurs passes through the deletion unchanged. */
  lemma {:induction false} StripNoneOccurs(s: string, alts: seq<string>)
    requires NoneOccurs(s, alts)
    ensures Strip(s, alts) == s
    decreases |s|
  {
    if s != [] {
      assert s[0..] == s;
      assert FirstMatch(s, alts).None?;
      assert NoneOccurs(s[1..], alts) by {
        forall k, j | 0 <= k <= |s[1..]| && 0 <= j < |alts| ensures !(alts[j] != [] && alts[j] <= s[1..][k..]) {
          assert s[1..][k..] == s[k + 1..];
        }
      }
      StripNoneOccurs(s[1..], alts);
      assert [s[0]] + s[1..] == s;
    }
  }

  lemma StripWhenNoneOccurs(s: string, alts: seq<string>)
    ensures NoneOccurs(s, alts) ==> Strip(s, alts) == s
  {
    if NoneOccurs(s, alts) {
      StripNoneOccurs(s, alts);
    }
  }

  /** When every alternative begins with one of `leads`, a text with none of those characters has no occurrence. */
  lemma NoLeadNoneOccurs(s: string, alts: seq<string>, leads: set<char>)
    requires forall j :: 0 <= j < |alts| ==> alts[j] != [] && alts[j][0] in leads
    requires forall k :: 0 <= k < |s| ==> s[k] !in leads
    ensures NoneOccurs(s, alts)
  {
    forall k, j | 0 <= k <= |s| && 0 <= j < |alts| ensures !(alts[j] != [] && alts[j] <= s[k..]) {
      if k < |s| {
        assert s[k..][0] == s[k];
      }
    }
  }

  /**
    If `[c]` is one of the alternatives and every alternative that starts with `c` is `[c]`
    itself, the pass leaves no `c` behind.
   */
  lemma {:induction false} StripRemovesSingle(s: string, alts: seq<string>, c: char)
    requires [c] in alts
    requires forall j :: 0 <= j < |alts| && alts[j] != [] && alts[j][0] == c ==> alts[j] == [c]
    ensures c !in Strip(s, alts)
    decreases |s|
  {
    if s != [] {
      match FirstMatch(s, alts)
      case Some(i) =>
        StripRemovesSingle(s[|alts[i]|..], alts, c);
      case None =>
        var j :| 0 <= j < |alts| && alts[j] == [c];
        assert !(alts[j] <= s);
        StripRemovesSingle(s[1..], alts, c);
    }
  }

  /** `trim` only cuts characters off the ends, so it never introduces one. */
  lemma TrimKeepsOut(s: string, c: char)
    requires c !in s
    ensures c !in JsText.Trim(s)
  {
    var t := JsText.TrimStart(s);
    SliceKeepsOut(s, |s| - |t|, |s|, c);
    assert s[|s| - |t|..|s|] == t;
    var u := JsText.TrimEnd(t);
    SliceKeepsOut(t, 0, |u|, c);
    assert t[0..|u|] == u;
  }

  lemma SliceKeepsOut(s: string, i: nat, j: nat, c: char)
    requires i <= j <= |s| && c !in s
    ensures c !in s[i..j]
  {
    forall k | 0 <= k < j - i ensures s[i..j][k] != c {
      assert s[i..j][k] == s[i + k];
    }
  }

  /**
    The alternatives `formatMessage` deletes, as they stand in the source: each is the UTF-8
    encoding of an emoji read back as Windows-1252 text (the robot face U+1F916 became
    `ð`, `Ÿ`, `¤`, `–`; bytes that Windows-1252 leaves undefined are missing altogether).
   */
  const AsWrittenAlternatives: seq<string> := [
    "\U{F0}\U{178}\U{A4}\U{2013}", "\U{F0}\U{178}\U{17D}\U{AF}", "\U{F0}\U{178}\U{17D}\U{AD}",
    "\U{F0}\U{178}\U{201C}\U{2039}", "\U{F0}\U{178}\U{A7}\U{A0}", "\U{F0}\U{178}\U{201D}",
    "\U{F0}\U{178}\U{201C}\U{160}", "\U{E2}\U{153}\U{2026}", "\U{E2}\U{152}",
    "\U{E2}\U{153}\U{EF}\U{B8}", "\U{F0}\U{178}\U{201C}" ]

  /** `formatMessage(message)` as written: delete the alternatives above, then trim. */
  function FormatMessage(message: string): (r: string)
    ensures |r| <= |message|
    ensures NoneOccurs(message, AsWrittenAlternatives) ==> r == JsText.Trim(message)
  {
    StripWhenNoneOccurs(message, AsWrittenAlternatives);
    JsText.Trim(Strip(message, AsWrittenAlternatives))
  }

  /** Every alternative as written begins with `ð` or `â`. */
  lemma AsWrittenLeads()
    ensures forall j :: 0 <= j < |AsWrittenAlternatives| ==>
      AsWrittenAlternatives[j] != [] && AsWrittenAlternatives[j][0] in {'\U{F0}', '\U{E2}'}
  {
  }

  /**
    Every listed sequence the clean-up meets is deleted: a message that opens with
    alternative `j`, where no earlier alternative matches as well, is cleaned exactly as
    the text after it.
   */
  lemma FormatMessageDeletes(j: nat, rest: string)
    requires j < |AsWrittenAlternatives|
    requires forall i :: 0 <= i < j ==> !(AsWrittenAlternatives[i] <= AsWrittenAlternatives[j] + rest)
    ensures FormatMessage(AsWrittenAlternatives[j] + rest) == FormatMessage(rest)
  {
    AsWrittenLeads();
    FirstMatchPicks(AsWrittenAlternatives[j] + rest, AsWrittenAlternatives, j);
    StripDeletesMatch(AsWrittenAlternatives, j, rest);
  }

  /** A message holding no `ð` and no `â` holds none of the alternatives, so it is only trimmed. */
  lemma PlainMessageOnlyTrimmed(message: string)
    requires forall k :: 0 <= k < |message| ==> message[k] != '\U{F0}' && message[k] != '\U{E2}'
    ensures FormatMessage(message) == JsText.Trim(message)
  {
    AsWrittenLeads();
    NoLeadNoneOccurs(message, AsWrittenAlternatives, {'\U{F0}', '\U{E2}'});
  }

  /** The double-encoded robot face in front of a log line is deleted. */
  lemma MojibakeRobotDeleted(rest: string)
    requires forall k :: 0 <= k < |rest| ==> rest[k] != '\U{F0}' && rest[k] != '\U{E2}'
    ensures FormatMessage(AsWrittenAlternatives[0] + rest) == JsText.Trim(rest)
  {
    var m := AsWrittenAlternatives[0] + rest;
    assert AsWrittenAlternatives[0] <= m;
    assert FirstMatch(m, AsWrittenAlternatives) == Some(0);
    assert m[4..] == rest;
    AsWrittenLeads();
    NoLeadNoneOccurs(rest, AsWrittenAlternatives, {'\U{F0}', '\U{E2}'});
    StripNoneOccurs(rest, AsWrittenAlternatives);
  }

  /**
    But the robot face itself, U+1F916, in front of a log line is kept: a message such as
    "🤖 Done" comes out unchanged.
   */
  lemma RobotEmojiSurvives(rest: string)
    requires forall k :: 0 <= k < |rest| ==> rest[k] != '\U{F0}' && rest[k] != '\U{E2}'
    requires rest != [] ==> !JsText.IsWhitespace(rest[|rest| - 1])
    ensures FormatMessage("\U{1F916}" + rest) == "\U{1F916}" + rest
  {
    var m := "\U{1F916}" + rest;
    assert forall k :: 0 <= k < |m| ==> m[k] != '\U{F0}' && m[k] != '\U{E2}' by {
      forall k | 0 <= k < |m| ensures m[k] != '\U{F0}' && m[k] != '\U{E2}' {
        if k > 0 {
          assert m[k] == rest[k - 1];
        }
      }
    }
    assert m[0] == '\U{1F916}' && !JsText.IsWhitespace(m[0]);
    assert m[|m| - 1] == if rest == [] then '\U{1F916}' else rest[|rest| - 1];
    PlainTrimmedMessageKept(m);
  }

  /** A message with no `ð` and no `â` and no whitespace at either end comes out unchanged. */
  lemma PlainTrimmedMessageKept(m: string)
    requires forall k :: 0 <= k < |m| ==> m[k] != '\U{F0}' && m[k] != '\U{E2}'
    requires m != [] ==> !JsText.IsWhitespace(m[0]) && !JsText.IsWhitespace(m[|m| - 1])
    ensures FormatMessage(m) == m
  {
    PlainMessageOnlyTrimmed(m);
    JsText.TrimOfTrimmed(m);
  }

  /** The emoji the alternatives were evidently meant to be: 🤖 🎯 🎭 📋 🧠 🔍 📊 ✅ ❌ ✏️ 📝. */
  const IntendedAlternatives: seq<string> := [
    "\U{1F916}", "\U{1F3AF}", "\U{1F3AD}", "\U{1F4CB}", "\U{1F9E0}", "\U{1F50D}",
    "\U{1F4CA}", "\U{2705}", "\U{274C}", "\U{270F}\U{FE0F}", "\U{1F4DD}" ]

  /** `formatMessage` with the emoji themselves as the alternatives. */
  function FormatMessageIntended(message: string): (r: string)
    ensures |r| <= |message|
    ensures NoneOccurs(message, IntendedAlternatives) ==> r == JsText.Trim(message)
  {
    StripWhenNoneOccurs(message, IntendedAlternatives);
    JsText.Trim(Strip(message, IntendedAlternatives))
  }

  /** With the emoji as alternatives, no single-character emoji of the list survives in any message. */
  lemma IntendedEmojiRemoved(message: string, j: nat)
    requires j < |IntendedAlternatives| && |IntendedAlternatives[j]| == 1
    ensures IntendedAlternatives[j][0] !in FormatMessageIntended(message)
  {
    var c := IntendedAlternatives[j][0];
    assert IntendedAlternatives[j] == [c];
    StripRemovesSingle(message, IntendedAlternatives, c);
    TrimKeepsOut(Strip(message, IntendedAlternatives), c);
  }

  /** The corrected clean-up deletes the robot face in front of a log line. */
  lemma IntendedRobotDeleted(rest: string)
    requires NoneOccurs(rest, IntendedAlternatives)
    ensures FormatMessageIntended("\U{1F916}" + rest) == JsText.Trim(rest)
  {
    var m := "\U{1F916}" + rest;
    assert IntendedAlternatives[0] <= m;
    assert FirstMatch(m, IntendedAlternatives) == Some(0);
    assert m[1..] == rest;
    StripNoneOccurs(rest, IntendedAlternatives);
  }
}
