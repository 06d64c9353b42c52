/**
  The typewriter effect for assistant answers: a message already shown in full
  earlier appears at once; any other message is revealed one UTF-16 code unit
  per interval tick, since `slice` and `length` count code units. Ticks are
  abstract: only their number matters.
 */
module Typewriter {
  import opened JsValue
  import Utf16

  /**
    The text being typed and what is shown, both as code units, the interval's counter,
    whether the interval runs, and how often `onComplete` ran.
   */
  datatype Typing = Typing(text: seq<Utf16.CodeUnit>, index: nat, display: seq<Utf16.CodeUnit>, running: bool, completions: nat)

  /** `messageId && completedMessages[messageId]`. */
  predicate AlreadyCompleted(messageId: Option<string>, completedMessages: map<string, bool>) {
    Truthy(messageId) && messageId.value in completedMessages && completedMessages[messageId.value]
  }

  /** The effect when a message is mounted: show it at once if it was completed before, else start typing from nothing. */
  function Start(text: string, messageId: Option<string>, completedMessages: map<string, bool>): (t: Typing)
    ensures AlreadyCompleted(messageId, completedMessages) ==>
      Utf16.Decode(t.display) == Some(text) && !t.running && t.completions == 1
    ensures !AlreadyCompleted(messageId, completedMessages) ==> t.display == [] && t.running && t.completions == 0 && t.index == 0
    ensures t.text == Utf16.Encode(text)
  {
    Utf16.DecodeEncode(text);
    if AlreadyCompleted(messageId, completedMessages) then Typing(Utf16.Encode(text), 0, Utf16.Encode(text), false, 1)
    else Fresh(text)
  }

  /** A typewriter that has just started on `text`. */
  function Fresh(text: string): Typing {
    Typing(Utf16.Encode(text), 0, [], true, 0)
  }

  /**
    `typeNextCharacter`: advance the counter, show that many code units, and on reaching
    the end stop the interval and run `onComplete`. A stopped interval does nothing.
   */
  function Tick(t: Typing): (r: Typing)
    ensures r.text == t.text
    ensures !t.running ==> r == t
  {
    if !t.running then t
    else
      var i := t.index + 1;
      var shown := if i <= |t.text| then t.text[..i] else t.text;
      if i >= |t.text| then t.(index := i, display := shown, running := false, completions := t.completions + 1)
      else t.(index := i, display := shown)
  }

  function Ticks(t: Typing, k: nat): (r: Typing)
    ensures r.text == t.text
  {
    if k == 0 then t else Tick(Ticks(t, k - 1))
  }

  function Min(a: nat, b: nat): nat {
    if a <= b then a else b
  }

  /**
    After `k` ticks of a fresh typing, the first `min(k, length)` code units are shown, the
    interval still runs only while `k` is below the text's length in code units (an empty
    text stops on the first tick), and `onComplete` has run exactly once once it stopped.
   */
  lemma {:induction false} TypingAfter(text: string, k: nat)
    ensures var u := Utf16.Encode(text);
      var t := Ticks(Fresh(text), k);
      && t.display == u[..Min(k, |u|)]
      && (t.running <==> k == 0 || k < |u|)
      && t.completions == (if t.running then 0 else 1)
      && (t.running ==> t.index == k)
  {
    if k > 0 {
      TypingAfter(text, k - 1);
    }
  }

  /** What is shown is always a prefix of the text's code units. */
  lemma DisplayIsPrefix(text: string, k: nat)
    ensures Ticks(Fresh(text), k).display <= Utf16.Encode(text)
  {
    TypingAfter(text, k);
  }

  /**
    Once every code unit has been typed the whole text is shown, further ticks change
    nothing and `onComplete` never runs again.
   */
  lemma {:induction false} CompletesOnce(text: string, k: nat, extra: nat)
    requires k >= |Utf16.Encode(text)| && k >= 1
    ensures Ticks(Fresh(text), k + extra) == Ticks(Fresh(text), k)
    ensures Utf16.Decode(Ticks(Fresh(text), k).display) == Some(text)
  {
    TypingAfter(text, k);
    var u := Utf16.Encode(text);
    assert u[..|u|] == u;
    Utf16.DecodeEncode(text);
    if extra > 0 {
      CompletesOnce(text, k, extra - 1);
    }
  }

  /**
    An answer opening with an emoji takes one tick more than it has characters: for
    "🤖 hi" (four characters, five code units) the first tick shows half the emoji, which
    is no text at all, and typing ends on the fifth tick.
   */
  lemma EmojiAnswerTicks()
    ensures |Utf16.Encode("\U{1F916} hi")| == 5
    ensures Ticks(Fresh("\U{1F916} hi"), 1).display == [0xD83E]
    ensures Utf16.Decode(Ticks(Fresh("\U{1F916} hi"), 1).display) == None
    ensures Ticks(Fresh("\U{1F916} hi"), 4).running
    ensures !Ticks(Fresh("\U{1F916} hi"), 5).running
  {
    var text := "\U{1F916} hi";
    var u := Utf16.Encode(text);
    assert u == [0xD83E, 0xDD16, 0x20, 0x68, 0x69] by {
      assert text == ['\U{1F916}'] + " hi";
      assert Utf16.Encode(" hi") == [0x20, 0x68, 0x69];
    }
    TypingAfter(text, 1);
    TypingAfter(text, 4);
    TypingAfter(text, 5);
    assert u[..1] == [0xD83E];
  }
}
