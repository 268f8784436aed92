/**
 The hand-written scanners over TypeScript text
 (scripts/fanmind_next_best_action.py, `_balanced_literal`, `_top_level_objects`, `_ts_property_value_start`).
 */
module TsLexer {
  import opened Wrappers

  /** Where the scanner is: the quote, escape and comment flags, of which at most one group is ever set. */
  datatype Mode = Code | Quoted(quote: char, escaped: bool) | LineComment | BlockComment

  datatype LexError = StartInvalid | Unterminated

  predicate IsQuote(c: char) { c == '"' || c == '\'' || c == '`' }

  /** `following` is the character `c`. */
  predicate Follows(text: string, i: nat, c: char) {
    i + 1 < |text| && text[i + 1] == c
  }

  /** The character at `i` is ordinary code: no string, no comment, and it does not begin one. */
  predicate Plain(text: string, i: nat, mode: Mode)
    requires i < |text|
  {
    mode.Code? && !IsQuote(text[i]) && !(text[i] == '/' && (Follows(text, i, '/') || Follows(text, i, '*')))
  }

  /** The mode after the character at `i`. */
  function ModeAfter(text: string, i: nat, mode: Mode): Mode
    requires i < |text|
  {
    var c := text[i];
    match mode
    case LineComment => if c != '\n' then LineComment else Code
    case BlockComment => if c == '*' && Follows(text, i, '/') then Code else BlockComment
    case Quoted(quote, escaped) =>
      if escaped then Quoted(quote, false)
      else if c == '\\' then Quoted(quote, true)
      else if c == quote then Code
      else mode
    case Code =>
      if IsQuote(c) then Quoted(c, false)
      else if c == '/' && Follows(text, i, '/') then LineComment
      else if c == '/' && Follows(text, i, '*') then BlockComment
      else Code
  }

  /** Comment openers and closers take two characters. */
  function Width(text: string, i: nat, mode: Mode): (width: nat)
    requires i < |text|
    ensures 1 <= width && i + width <= |text|
  {
    match mode
    case BlockComment => if text[i] == '*' && Follows(text, i, '/') then 2 else 1
    case Code => if text[i] == '/' && (Follows(text, i, '/') || Follows(text, i, '*')) then 2 else 1
    case _ => 1
  }

  // ----- balanced literals -----

  /** The position after the bracket that closes `depth` open ones, scanning from `i`. */
  function CloseFrom(text: string, i: nat, mode: Mode, depth: int, opening: char, closing: char): (end: Option<nat>)
    requires i <= |text|
    ensures end.Some? ==> i < end.value <= |text|
    decreases |text| - i
  {
    if i == |text| then None
    else if Plain(text, i, mode) && text[i] == opening then CloseFrom(text, i + 1, Code, depth + 1, opening, closing)
    else if Plain(text, i, mode) && text[i] == closing then
      if depth == 1 then Some(i + 1) else CloseFrom(text, i + 1, Code, depth - 1, opening, closing)
    else CloseFrom(text, i + Width(text, i, mode), ModeAfter(text, i, mode), depth, opening, closing)
  }

  function Balanced(text: string, start: nat, opening: char, closing: char): Result<string, LexError> {
    if start >= |text| || text[start] != opening then Err(StartInvalid)
    else
      match CloseFrom(text, start, Code, 0, opening, closing)
      case None => Err(Unterminated)
      case Some(end) => Ok(text[start..end])
  }

  method BalancedLiteral(text: string, start: nat, opening: char, closing: char)
      returns (literal: Result<string, LexError>)
    requires !IsQuote(opening) && !IsQuote(closing) && opening != '/' && closing != '/' && opening != closing
    ensures literal == Balanced(text, start, opening, closing)
    ensures literal.Ok? ==> literal.value != "" && start + |literal.value| <= |text|
  {
    if start >= |text| || text[start] != opening {
      return Err(StartInvalid);
    }
    var depth, mode, index := 0, Code, start;
    while index < |text|
      invariant start <= index <= |text|
      invariant CloseFrom(text, start, Code, 0, opening, closing) ==
        CloseFrom(text, index, mode, depth, opening, closing)
      decreases |text| - index
    {
      var c := text[index];
      if mode.Code? && c == opening {
        depth := depth + 1;
        index := index + 1;
      } else if mode.Code? && c == closing {
        depth := depth - 1;
        if depth == 0 {
          return Ok(text[start..index + 1]);
        }
        index := index + 1;
      } else {
        mode, index := ModeAfter(text, index, mode), index + Width(text, index, mode);
      }
    }
    literal := Err(Unterminated);
  }

  // ----- top-level objects -----

  /** The regions the object scanner reports from `i` on, as start and end positions. */
  function ObjectsFrom(text: string, i: nat, mode: Mode): Result<seq<(nat, nat)>, LexError>
    requires i <= |text|
    decreases |text| - i
  {
    if i == |text| then Ok([])
    else if Plain(text, i, mode) && text[i] == '{' then
      match CloseFrom(text, i, Code, 0, '{', '}')
      case None => Err(Unterminated)
      case Some(end) =>
        (match ObjectsFrom(text, end, Code)
         case Err(error) => Err(error)
         case Ok(rest) => Ok([(i, end)] + rest))
    else ObjectsFrom(text, i + Width(text, i, mode), ModeAfter(text, i, mode))
  }

  function SliceOf(text: string, region: (nat, nat)): string {
    if region.0 <= region.1 <= |text| then text[region.0..region.1] else ""
  }

  /** The texts of the regions. */
  function Cut(text: string, regions: seq<(nat, nat)>): seq<string> {
    seq(|regions|, k requires 0 <= k < |regions| => SliceOf(text, regions[k]))
  }

  /** What the scanner reports when it has found `found` so far and `remaining` is still to come. */
  function Appended(text: string, found: seq<string>, remaining: Result<seq<(nat, nat)>,
                    LexError>): Result<seq<string>, LexError>
  {
    match remaining
    case Err(error) => Err(error)
    case Ok(rest) => Ok(found + Cut(text, rest))
  }

  lemma CutFirst(text: string, found: seq<string>, region: (nat, nat), rest: seq<(nat, nat)>)
    ensures found + Cut(text, [region] + rest) == (found + [SliceOf(text, region)]) + Cut(text, rest)
  {}

  function Objects(text: string): Result<seq<string>, LexError> {
    Appended(text, [], ObjectsFrom(text, 0, Code))
  }

  /** The scanner restarts a nested scan at every brace it meets in code and continues after the block. */
  method TopLevelObjects(text: string) returns (objects: Result<seq<string>, LexError>)
    ensures objects == Objects(text)
  {
    var found: seq<string> := [];
    var mode, index := Code, 0;
    while index < |text|
      invariant index <= |text|
      invariant Objects(text) == Appended(text, found, ObjectsFrom(text, index, mode))
      decreases |text| - index
    {
      if mode.Code? && text[index] == '{' {
        var block := BalancedLiteral(text, index, '{', '}');
        if block.Err? {
          return Err(block.error);
        }
        ghost var end := CloseFrom(text, index, Code, 0, '{', '}').value;
        if ObjectsFrom(text, end, Code).Ok? {
          CutFirst(text, found, (index, end), ObjectsFrom(text, end, Code).value);
        }
        found := found + [block.value];
        index := index + |block.value|;
      } else {
        mode, index := ModeAfter(text, index, mode), index + Width(text, index, mode);
      }
    }
    assert found + Cut(text, []) == found;
    objects := Ok(found);
  }

  // ----- property lookup -----

  /** ASCII letters, digits and white space stand for Python's character classes. */
  predicate IsAlpha(c: char) { 'a' <= c <= 'z' || 'A' <= c <= 'Z' }

  predicate IsNameStart(c: char) { IsAlpha(c) || c == '_' }

  predicate IsNamePart(c: char) { IsNameStart(c) || '0' <= c <= '9' }

  predicate IsSpace(c: char) { c == ' ' || '\t' <= c <= '\r' || '\U{1C}' <= c <= '\U{1F}' }

  /** The first position from `i` on whose character is not a name part. */
  function NameEnd(text: string, i: nat): (end: nat)
    requires i <= |text|
    ensures i <= end <= |text|
    decreases |text| - i
  {
    if i < |text| && IsNamePart(text[i]) then NameEnd(text, i + 1) else i
  }

  function SpaceEnd(text: string, i: nat): (end: nat)
    requires i <= |text|
    ensures i <= end <= |text|
    decreases |text| - i
  {
    if i < |text| && IsSpace(text[i]) then SpaceEnd(text, i + 1) else i
  }

  /** Where the value of property `name` starts, scanning from `i` at the given bracket depths. */
  function PropertyFrom(text: string, i: nat, mode: Mode, braces: int, squares: int, name: string): Option<nat>
    requires i <= |text|
    decreases |text| - i
  {
    if i == |text| then None
    else if !Plain(text, i, mode) then PropertyFrom(text, i + Width(text, i, mode), ModeAfter(text, i, mode), braces,
      squares, name)
    else if text[i] == '{' then PropertyFrom(text, i + 1, Code, braces + 1, squares, name)
    else if text[i] == '}' then PropertyFrom(text, i + 1, Code, braces - 1, squares, name)
    else if text[i] == '[' then PropertyFrom(text, i + 1, Code, braces, squares + 1, name)
    else if text[i] == ']' then PropertyFrom(text, i + 1, Code, braces, squares - 1, name)
    else if braces == 1 && squares == 0 && IsNameStart(text[i]) then
      var end := NameEnd(text, i + 1);
      var cursor := SpaceEnd(text, end);
      if text[i..end] == name && cursor < |text| && text[cursor] == ':' then Some(SpaceEnd(text, cursor + 1))
      else PropertyFrom(text, end, Code, braces, squares, name)
    else PropertyFrom(text, i + 1, Code, braces, squares, name)
  }

  /** One name from its second character on, and the value behind it if it is the one looked for. */
  method ReadName(block: string, index: nat, name: string) returns (end: nat, value: Option<nat>)
    requires index < |block|
    ensures end == NameEnd(block, index + 1)
    ensures var cursor := SpaceEnd(block, end);
            value == if block[index..end] == name && cursor < |block| && block[cursor] == ':'
                     then Some(SpaceEnd(block, cursor + 1)) else None
  {
    end := index + 1;
    while end < |block| && IsNamePart(block[end])
      invariant index + 1 <= end <= |block|
      invariant NameEnd(block, index + 1) == NameEnd(block, end)
    {
      end := end + 1;
    }
    var cursor := end;
    while cursor < |block| && IsSpace(block[cursor])
      invariant end <= cursor <= |block|
      invariant SpaceEnd(block, end) == SpaceEnd(block, cursor)
    {
      cursor := cursor + 1;
    }
    if block[index..end] != name || cursor >= |block| || block[cursor] != ':' {
      return end, None;
    }
    cursor := cursor + 1;
    ghost var colon := cursor;
    while cursor < |block| && IsSpace(block[cursor])
      invariant colon <= cursor <= |block|
      invariant SpaceEnd(block, colon) == SpaceEnd(block, cursor)
    {
      cursor := cursor + 1;
    }
    value := Some(cursor);
  }

  method PropertyValueStart(block: string, name: string) returns (start: Option<nat>)
    ensures start == PropertyFrom(block, 0, Code, 0, 0, name)
  {
    var mode, braces, squares, index := Code, 0, 0, 0;
    while index < |block|
      invariant index <= |block|
      invariant PropertyFrom(block, 0, Code, 0, 0, name) == PropertyFrom(block, index, mode, braces, squares, name)
      decreases |block| - index
    {
      var c := block[index];
      if !Plain(block, index, mode) {
        mode, index := ModeAfter(block, index, mode), index + Width(block, index, mode);
      } else if c == '{' {
        braces, index := braces + 1, index + 1;
      } else if c == '}' {
        braces, index := braces - 1, index + 1;
      } else if c == '[' {
        squares, index := squares + 1, index + 1;
      } else if c == ']' {
        squares, index := squares - 1, index + 1;
      } else if braces == 1 && squares == 0 && IsNameStart(c) {
        var end, value := ReadName(block, index, name);
        if value.Some? {
          return value;
        }
        index := end;
      } else {
        index := index + 1;
      }
    }
    start := None;
  }
}
