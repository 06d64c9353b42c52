/**
  `JSON.stringify` and `JSON.parse` for the one JSON shape the selection store
  persists: an array of strings. The writer escapes exactly as `JSON.stringify`
  does; the reader accepts the standard escapes of a JSON string literal.
 */
module JsonStrings {
  import opened JsValue

  // ---------------------------------------------------------------------------
  // Writing
  // ---------------------------------------------------------------------------

  /** A lower-case hexadecimal digit, as `JSON.stringify` writes it in `\u00XX`. */
  function HexDigit(d: nat): (c: char)
    requires d < 16
  {
    if d < 10 then ('0' as int + d) as char else ('a' as int + d - 10) as char
  }

  /** How `JSON.stringify` writes one character inside a string literal. */
  function EscapeChar(c: char): (e: string)
    ensures |e| >= 1
    ensures e == [c] <==> (c != '"' && c != '\\' && c as int >= 0x20)
  {
    if c == '"' then "\\\""
    else if c == '\\' then "\\\\"
    else if c == '\U{8}' then "\\b"
    else if c == '\U{C}' then "\\f"
    else if c == '\n' then "\\n"
    else if c == '\r' then "\\r"
    else if c == '\t' then "\\t"
    else if c as int < 0x20 then "\\u00" + [HexDigit(c as int / 16), HexDigit(c as int % 16)]
    else [c]
  }

  function EscapeString(s: string): string {
    if s == [] then [] else EscapeChar(s[0]) + EscapeString(s[1..])
  }

  function Quote(s: string): string {
    "\"" + EscapeString(s) + "\""
  }

  function Items(xs: seq<string>): string {
    if |xs| == 0 then []
    else if |xs| == 1 then Quote(xs[0])
    else Quote(xs[0]) + "," + Items(xs[1..])
  }

  /** `JSON.stringify(xs)` for an array of strings. */
  function Stringify(xs: seq<string>): (s: string)
    ensures |s| >= 2 && s[0] == '[' && s[|s| - 1] == ']'
  {
    "[" + Items(xs) + "]"
  }

  // ---------------------------------------------------------------------------
  // Reading
  // ---------------------------------------------------------------------------

  function HexValue(c: char): Option<nat> {
    if '0' <= c <= '9' then Some(c as int - '0' as int)
    else if 'a' <= c <= 'f' then Some(c as int - 'a' as int + 10)
    else if 'A' <= c <= 'F' then Some(c as int - 'A' as int + 10)
    else None
  }

  function Hex4(t: string): (v: Option<nat>)
    requires |t| == 4
    ensures v.Some? ==> v.value < 0x10000
  {
    match (HexValue(t[0]), HexValue(t[1]), HexValue(t[2]), HexValue(t[3]))
    case (Some(a), Some(b), Some(c), Some(d)) =>
      if a < 16 && b < 16 && c < 16 && d < 16 then Some(((a * 16 + b) * 16 + c) * 16 + d) else None
    case _ => None
  }

  /**
    The character an escape sequence stands for, read after its backslash, with the
    remaining input. A `\u` escape naming a lone surrogate has no character of its own
    and is refused.
   */
  function Unescape(t: string): (r: Option<(char, string)>)
    ensures r.Some? ==> |r.value.1| < |t|
  {
    if t == [] then None
    else if t[0] == '"' then Some(('"', t[1..]))
    else if t[0] == '\\' then Some(('\\', t[1..]))
    else if t[0] == '/' then Some(('/', t[1..]))
    else if t[0] == 'b' then Some(('\U{8}', t[1..]))
    else if t[0] == 'f' then Some(('\U{C}', t[1..]))
    else if t[0] == 'n' then Some(('\n', t[1..]))
    else if t[0] == 'r' then Some(('\r', t[1..]))
    else if t[0] == 't' then Some(('\t', t[1..]))
    else if t[0] == 'u' && |t| >= 5 then
      match Hex4(t[1..5])
      case Some(v) => if v < 0xD800 || 0xE000 <= v then Some((v as char, t[5..])) else None
      case None => None
    else None
  }

  /** Reads a string literal after its opening quote: the text it denotes and the input after the closing quote. */
  function ReadString(t: string): (r: Option<(string, string)>)
    ensures r.Some? ==> |r.value.1| < |t|
    decreases |t|
  {
    if t == [] then None
    else if t[0] == '"' then Some(([], t[1..]))
    else if t[0] == '\\' then
      match Unescape(t[1..])
      case None => None
      case Some((c, rest)) =>
        match ReadString(rest)
        case None => None
        case Some((text, after)) => Some(([c] + text, after))
    else if t[0] as int < 0x20 then None
    else
      match ReadString(t[1..])
      case None => None
      case Some((text, after)) => Some(([t[0]] + text, after))
  }

  /** Reads the elements of a non-empty array after its `[`, through the closing `]`, which must end the input. */
  function ReadItems(t: string): Option<seq<string>>
    decreases |t|
  {
    if t == [] || t[0] != '"' then None
    else
      match ReadString(t[1..])
      case None => None
      case Some((text, rest)) =>
        if rest == "]" then Some([text])
        else if rest != [] && rest[0] == ',' then
          match ReadItems(rest[1..])
          case None => None
          case Some(more) => Some([text] + more)
        else None
  }

  /**
    `JSON.parse(s)` where an array of strings is expected; `None` stands for the
    `SyntaxError` the source catches.
   */
  function Parse(s: string): Option<seq<string>> {
    if |s| == 2 && s[0] == '[' && s[1] == ']' then Some([])
    else if |s| >= 1 && s[0] == '[' then ReadItems(s[1..])
    else None
  }

  // ---------------------------------------------------------------------------
  // Round trip
  // ---------------------------------------------------------------------------

  lemma HexDigitValue(d: nat)
    requires d < 16
    ensures HexValue(HexDigit(d)) == Some(d)
  {
  }

  /** Every character `JSON.stringify` escapes is read back by the escape reader. */
  lemma UnescapeEscapeChar(c: char, tail: string)
    requires EscapeChar(c) != [c]
    ensures EscapeChar(c)[0] == '\\'
    ensures Unescape(EscapeChar(c)[1..] + tail) == Some((c, tail))
  {
    var e := EscapeChar(c);
    if c != '"' && c != '\\' && c != '\U{8}' && c != '\U{C}' && c != '\n' && c != '\r' && c != '\t' {
      var hi, lo := c as int / 16, c as int % 16;
      HexDigitValue(hi);
      HexDigitValue(lo);
      var t := e[1..] + tail;
      assert t[1..5] == ['0', '0', HexDigit(hi), HexDigit(lo)];
      assert Hex4(t[1..5]) == Some(c as int);
      assert t[5..] == tail;
    } else {
      assert e[1..] + tail == [e[1]] + tail;
    }
  }

  /** A character written as itself is read back as itself. */
  lemma ReadPlainChar(c: char, rest: string, text: string, after: string)
    requires EscapeChar(c) == [c] && ReadString(rest) == Some((text, after))
    ensures ReadString([c] + rest) == Some(([c] + text, after))
  {
    assert ([c] + rest)[1..] == rest;
  }

  /** A character written as an escape sequence is read back as itself. */
  lemma ReadEscapedChar(c: char, rest: string, text: string, after: string)
    requires EscapeChar(c) != [c] && ReadString(rest) == Some((text, after))
    ensures ReadString(EscapeChar(c) + rest) == Some(([c] + text, after))
  {
    UnescapeEscapeChar(c, rest);
    var t := EscapeChar(c) + rest;
    assert t[0] == '\\';
    assert t[1..] == EscapeChar(c)[1..] + rest;
  }

  /** Reading an escaped string followed by its closing quote gives the string and the rest of the input. */
  lemma {:induction false} ReadEscapedString(s: string, tail: string)
    ensures ReadString(EscapeString(s) + "\"" + tail) == Some((s, tail))
  {
    var t := EscapeString(s) + "\"" + tail;
    if s == [] {
      assert t == "\"" + tail;
      assert t[1..] == tail;
    } else {
      var c := s[0];
      var rest := EscapeString(s[1..]) + "\"" + tail;
      assert t == EscapeChar(c) + rest;
      ReadEscapedString(s[1..], tail);
      if EscapeChar(c) == [c] {
        ReadPlainChar(c, rest, s[1..], tail);
      } else {
        ReadEscapedChar(c, rest, s[1..], tail);
      }
      assert [c] + s[1..] == s;
    }
  }

  /** What follows the first element of `Items(xs) + "]"`: the closing bracket, or a comma and the other elements. */
  function ItemsTail(xs: seq<string>): string
    requires xs != []
  {
    if |xs| == 1 then "]" else "," + Items(xs[1..]) + "]"
  }

  lemma ItemsShape(xs: seq<string>)
    requires xs != []
    ensures Items(xs) + "]" == "\"" + (EscapeString(xs[0]) + "\"" + ItemsTail(xs))
  {
  }

  /** Reading the elements after a first string literal that reads as `text` followed by `rest`. */
  lemma ReadItemsFirst(u: string, text: string, rest: string)
    requires ReadString(u) == Some((text, rest))
    ensures rest == "]" ==> ReadItems("\"" + u) == Some([text])
    ensures rest != "]" && rest != [] && rest[0] == ',' && ReadItems(rest[1..]).Some? ==>
      ReadItems("\"" + u) == Some([text] + ReadItems(rest[1..]).value)
  {
    assert ("\"" + u)[1..] == u;
  }

  lemma {:induction false} ReadStringifiedItems(xs: seq<string>)
    requires xs != []
    ensures ReadItems(Items(xs) + "]") == Some(xs)
    decreases |xs|
  {
    var after := ItemsTail(xs);
    var u := EscapeString(xs[0]) + "\"" + after;
    ItemsShape(xs);
    ReadEscapedString(xs[0], after);
    ReadItemsFirst(u, xs[0], after);
    if |xs| > 1 {
      ReadStringifiedItems(xs[1..]);
      assert after[0] == ',' && after != "]";
      assert after[1..] == Items(xs[1..]) + "]";
      assert [xs[0]] + xs[1..] == xs;
    } else {
      assert xs == [xs[0]];
    }
  }

  /** What `JSON.stringify` writes for an array of strings, `JSON.parse` reads back unchanged. */
  lemma ParseStringify(xs: seq<string>)
    ensures Parse(Stringify(xs)) == Some(xs)
  {
    var s := Stringify(xs);
    if xs != [] {
      assert s[1..] == Items(xs) + "]";
      assert s[1] == '"';
      ReadStringifiedItems(xs);
    }
  }
}
