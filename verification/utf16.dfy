/**
  JavaScript strings as the engine stores them: sequences of UTF-16 code units.
  `length`, indexing and `slice` count code units, so a character above U+FFFF
  (most emoji) takes two of them, a surrogate pair.
 */
module Utf16 {
  import opened JsValue

  /** A UTF-16 code unit. */
  type CodeUnit = u: int | 0 <= u < 0x1_0000

  predicate IsHighSurrogate(u: CodeUnit) {
    0xD800 <= u < 0xDC00
  }

  predicate IsLowSurrogate(u: CodeUnit) {
    0xDC00 <= u < 0xE000
  }

  /** A character above U+FFFF, stored as two code units. */
  predicate IsAstral(c: char) {
    c as int >= 0x1_0000
  }

  /** How many characters of `s` lie above U+FFFF. */
  function AstralCount(s: string): (n: nat)
    ensures n <= |s|
  {
    if s == [] then 0 else (if IsAstral(s[0]) then 1 else 0) + AstralCount(s[1..])
  }

  /** One character's code units: the character itself up to U+FFFF, its surrogate pair above. */
  function EncodeChar(c: char): (u: seq<CodeUnit>)
    ensures |u| == if IsAstral(c) then 2 else 1
    ensures IsAstral(c) ==> IsHighSurrogate(u[0]) && IsLowSurrogate(u[1])
    ensures !IsAstral(c) ==> !IsHighSurrogate(u[0]) && !IsLowSurrogate(u[0])
  {
    var v := c as int;
    if v < 0x1_0000 then [v]
    else
      var w := v - 0x1_0000;
      [0xD800 + w / 0x400, 0xDC00 + w % 0x400]
  }

  /** The code units of a string: one per character, two per character above U+FFFF. */
  function Encode(s: string): (u: seq<CodeUnit>)
    ensures |u| == |s| + AstralCount(s)
  {
    if s == [] then [] else EncodeChar(s[0]) + Encode(s[1..])
  }

  /** The character a surrogate pair stands for. */
  function PairValue(hi: CodeUnit, lo: CodeUnit): (v: int)
    requires IsHighSurrogate(hi) && IsLowSurrogate(lo)
    ensures 0x1_0000 <= v < 0x11_0000
  {
    0x1_0000 + (hi as int - 0xD800) * 0x400 + (lo as int - 0xDC00)
  }

  /** Code units read back as characters: a surrogate pair makes one character, a lone surrogate fails. */
  function Decode(u: seq<CodeUnit>): (r: Option<string>)
    decreases |u|
  {
    if u == [] then Some([])
    else if IsHighSurrogate(u[0]) && |u| >= 2 && IsLowSurrogate(u[1]) then
      var v := PairValue(u[0], u[1]);
      match Decode(u[2..])
      case Some(rest) => Some([v as char] + rest)
      case None => None
    else if IsHighSurrogate(u[0]) || IsLowSurrogate(u[0]) then None
    else
      match Decode(u[1..])
      case Some(rest) => Some([u[0] as char] + rest)
      case None => None
  }

  /** Decoding the code units gives back the string: no two strings share their code units. */
  lemma {:induction false} DecodeEncode(s: string)
    ensures Decode(Encode(s)) == Some(s)
  {
    if s != [] {
      var c := s[0];
      var e := EncodeChar(c);
      var u := Encode(s);
      DecodeEncode(s[1..]);
      assert u == e + Encode(s[1..]);
      if IsAstral(c) {
        assert u[2..] == Encode(s[1..]);
        var w := c as int - 0x1_0000;
        assert PairValue(u[0], u[1]) == c as int by {
          assert u[0] - 0xD800 == w / 0x400 && u[1] - 0xDC00 == w % 0x400;
        }
        assert [c] + s[1..] == s;
      } else {
        assert u[1..] == Encode(s[1..]);
        assert u[0] == c as int;
        assert [c] + s[1..] == s;
      }
    }
  }

  /** Without characters above U+FFFF, code units and characters coincide one for one. */
  lemma {:induction false} EncodeBmp(s: string)
    requires forall i :: 0 <= i < |s| ==> !IsAstral(s[i])
    ensures |Encode(s)| == |s|
    ensures forall i :: 0 <= i < |s| ==> Encode(s)[i] == s[i] as int
  {
    if s != [] {
      EncodeBmp(s[1..]);
      var u := Encode(s);
      assert u == [s[0] as int] + Encode(s[1..]);
      forall i | 0 <= i < |s| ensures u[i] == s[i] as int {
        if i > 0 {
          assert u[i] == Encode(s[1..])[i - 1];
          assert s[1..][i - 1] == s[i];
        }
      }
    }
  }
}
