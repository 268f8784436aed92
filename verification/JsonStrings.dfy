/**
 String literals of RFC 8259, section 7, as `json.loads` reads them (scripts/fanmind_next_best_action.py,
 `_ts_string_property`).
 */
module JsonStrings {
  import opened Wrappers

  predicate IsControl(c: char) { c < ' ' }

  // ----- hexadecimal escapes -----

  predicate IsHex(c: char) { '0' <= c <= '9' || 'a' <= c <= 'f' || 'A' <= c <= 'F' }

  function HexValue(c: char): (value: nat)
    requires IsHex(c)
    ensures value < 16
  {
    if c <= '9' then c as int - '0' as int
    else if c <= 'F' then c as int - 'A' as int + 10
    else c as int - 'a' as int + 10
  }

  function HexDigit(value: nat): (c: char)
    requires value < 16
    ensures IsHex(c) && HexValue(c) == value
  {
    if value < 10 then ('0' as int + value) as char else ('a' as int + value - 10) as char
  }

  /** The code unit written as a backslash, `u` and four hexadecimal digits at the start of `body`. */
  function CodeUnit(body: string): (unit: Option<nat>)
    ensures unit.Some? ==> |body| >= 6 && unit.value < 0x10000
  {
    if |body| >= 6 && body[0] == '\\' && body[1] == 'u' && (forall k | 2 <= k < 6 :: IsHex(body[k])) then
      Some(((HexValue(body[2]) * 16 + HexValue(body[3])) * 16 + HexValue(body[4])) * 16 + HexValue(body[5]))
    else None
  }

  // ----- decoding -----

  function ShortEscape(c: char): Option<char> {
    match c
    case '"' => Some('"')
    case '\\' => Some('\\')
    case '/' => Some('/')
    case 'b' => Some('\U{8}')
    case 'f' => Some('\U{C}')
    case 'n' => Some('\n')
    case 'r' => Some('\r')
    case 't' => Some('\t')
    case _ => None
  }

  function Prepend(c: char, rest: Option<string>): Option<string> {
    match rest
    case None => None
    case Some(text) => Some([c] + text)
  }

  /** The string between the quotes; `None` where the decoder raises. */
  function Decode(body: string): Option<string> {
    if body == "" then Some("")
    else if body[0] == '"' || IsControl(body[0]) then None
    else if body[0] != '\\' then Prepend(body[0], Decode(body[1..]))
    else if |body| >= 2 && ShortEscape(body[1]).Some? then Prepend(ShortEscape(body[1]).value, Decode(body[2..]))
    else
      match CodeUnit(body)
      case None => None
      case Some(unit) =>
        if unit < 0xD800 || 0xE000 <= unit then Prepend(unit as char, Decode(body[6..]))
        else
          (match CodeUnit(body[6..])
           case None => None
           case Some(low) =>
             if unit < 0xDC00 && 0xDC00 <= low < 0xE000 then
               Prepend((0x10000 + (unit - 0xD800) * 0x400 + (low - 0xDC00)) as char, Decode(body[12..]))
             else None)
  }

  // ----- encoding -----

  function EscapeChar(c: char): (escaped: string) {
    if c == '"' || c == '\\' then ['\\', c]
    else if c == '\n' then "\\n"
    else if IsControl(c) then ['\\', 'u', '0', '0', HexDigit(c as int / 16), HexDigit(c as int % 16)]
    else [c]
  }

  function Escape(text: string): string {
    if text == "" then "" else EscapeChar(text[0]) + Escape(text[1..])
  }

  lemma ControlEscapeIsItsCodeUnit(c: char, body: string)
    requires IsControl(c) && c != '\n' && |body| >= 6 && body[..6] == EscapeChar(c)
    ensures CodeUnit(body) == Some(c as int)
  {
    var piece := EscapeChar(c);
    assert forall k | 0 <= k < 6 :: body[k] == body[..6][k];
    assert HexValue(piece[2]) == 0 && HexValue(piece[3]) == 0;
    assert HexValue(piece[4]) == c as int / 16 && HexValue(piece[5]) == c as int % 16;
  }

  lemma DecodeEscapedChar(c: char, rest: string)
    ensures Decode(EscapeChar(c) + rest) == Prepend(c, Decode(rest))
  {
    var body := EscapeChar(c) + rest;
    assert body[|EscapeChar(c)|..] == rest;
    if IsControl(c) && c != '\n' {
      assert body[0] == '\\' && body[1] == 'u';
      assert body[..6] == EscapeChar(c);
      ControlEscapeIsItsCodeUnit(c, body);
    }
  }

  /** Escaping loses nothing: every string comes back unchanged. */
  lemma {:induction false} DecodeEscape(text: string)
    ensures Decode(Escape(text)) == Some(text)
  {
    if text != "" {
      DecodeEscapedChar(text[0], Escape(text[1..]));
      DecodeEscape(text[1..]);
      assert [text[0]] + text[1..] == text;
    }
  }

  // ----- finding the end of a literal -----

  /** The position after the first unescaped quote from `i` on. */
  function ClosingQuote(text: string, i: nat, escaped: bool): (end: Option<nat>)
    requires i <= |text|
    ensures end.Some? ==> i < end.value <= |text| && text[end.value - 1] == '"'
    decreases |text| - i
  {
    if i == |text| then None
    else if escaped then ClosingQuote(text, i + 1, false)
    else if text[i] == '\\' then ClosingQuote(text, i + 1, true)
    else if text[i] == '"' then Some(i + 1)
    else ClosingQuote(text, i + 1, false)
  }

  /** `piece` stands in `text` at position `i`. */
  predicate At(text: string, i: nat, piece: string) {
    i + |piece| <= |text| && forall k :: 0 <= k < |piece| ==> text[i + k] == piece[k]
  }

  lemma AtSlice(text: string, i: nat, piece: string)
    requires At(text, i, piece)
    ensures text[i..i + |piece|] == piece
  {}

  lemma AtChar(text: string, i: nat, piece: string, k: nat)
    requires At(text, i, piece) && k < |piece|
    ensures i + k < |text| && text[i + k] == piece[k]
  {}

  lemma AtSplits(text: string, i: nat, first: string, second: string)
    requires At(text, i, first + second)
    ensures At(text, i, first) && At(text, i + |first|, second)
  {
    forall k | 0 <= k < |first| ensures text[i + k] == first[k] {
      assert (first + second)[k] == first[k];
    }
    forall k | 0 <= k < |second| ensures text[i + |first| + k] == second[k] {
      assert (first + second)[|first| + k] == second[k];
    }
  }

  lemma AtSplitsInThree(text: string, i: nat, a: string, b: string, c: string)
    requires At(text, i, a + b + c)
    ensures At(text, i, a) && At(text, i + |a|, b) && At(text, i + |a| + |b|, c)
  {
    AtSplits(text, i, a + b, c);
    AtSplits(text, i, a, b);
  }

  lemma SplitInTwo(text: string, i: nat, all: string, first: string, second: string)
    requires all == first + second && At(text, i, all)
    ensures At(text, i, first) && At(text, i + |first|, second) && i + |all| == i + |first| + |second|
  {
    AtSplits(text, i, first, second);
  }

  /** No quote in `body` ends a literal, and its last character is not an open escape. */
  predicate Contained(body: string, escaped: bool) {
    if body == "" then !escaped
    else if escaped then Contained(body[1..], false)
    else body[0] != '"' && Contained(body[1..], body[0] == '\\')
  }

  /** The literal of such a body ends at the quote written behind it. */
  lemma {:induction false} ContainedCloses(text: string, i: nat, body: string, escaped: bool)
    requires Contained(body, escaped) && At(text, i, body)
    requires i + |body| < |text| && text[i + |body|] == '"'
    ensures ClosingQuote(text, i, escaped) == Some(i + |body| + 1)
    decreases |body|
  {
    if body != "" {
      assert text[i] == body[0];
      assert At(text, i + 1, body[1..]);
      ContainedCloses(text, i + 1, body[1..], !escaped && body[0] == '\\');
    }
  }

  lemma {:induction false} ContainedAppend(first: string, second: string, escaped: bool)
    requires Contained(first, escaped) && Contained(second, false)
    ensures Contained(first + second, escaped)
    decreases |first|
  {
    if first == "" {
      assert first + second == second;
    } else {
      assert (first + second)[1..] == first[1..] + second;
      ContainedAppend(first[1..], second, !escaped && first[0] == '\\');
    }
  }

  lemma {:induction false} PlainIsContained(body: string)
    requires forall k :: 0 <= k < |body| ==> body[k] != '"' && body[k] != '\\'
    ensures Contained(body, false)
  {
    if body != "" {
      PlainIsContained(body[1..]);
    }
  }

  lemma PairIsContained(c: char)
    ensures Contained(['\\', c], false)
  {
    assert ['\\', c][1..] == [c] && [c][1..] == [];
  }

  lemma EscapedCharIsContained(c: char)
    ensures Contained(EscapeChar(c), false)
  {
    var piece := EscapeChar(c);
    if |piece| == 1 {
      PlainIsContained(piece);
    } else {
      PairIsContained(piece[1]);
      PlainIsContained(piece[2..]);
      ContainedAppend([piece[0], piece[1]], piece[2..], false);
      assert [piece[0], piece[1]] + piece[2..] == piece;
    }
  }

  /** Escaping leaves no quote that could end the literal. */
  lemma {:induction false} EscapeIsContained(content: string)
    ensures Contained(Escape(content), false)
  {
    if content != "" {
      EscapedCharIsContained(content[0]);
      EscapeIsContained(content[1..]);
      ContainedAppend(EscapeChar(content[0]), Escape(content[1..]), false);
    }
  }

  /** The literal of an escaped string ends at the quote written behind it, whatever it contains. */
  lemma EscapeClosesAtItsQuote(text: string, i: nat, content: string)
    requires At(text, i, Escape(content))
    requires i + |Escape(content)| < |text| && text[i + |Escape(content)|] == '"'
    ensures ClosingQuote(text, i, false) == Some(i + |Escape(content)| + 1)
  {
    EscapeIsContained(content);
    ContainedCloses(text, i, Escape(content), false);
  }
}
