/** How the three scanners move over printed values. */
module RoadmapScanning {
  import opened Wrappers
  import opened JsonStrings
  import opened TsLexer
  import opened RoadmapSyntax

  // ----- strings and comments -----

  /** Where a scan that starts inside a string or a comment is back in code. */
  function CodeAgain(text: string, i: nat, mode: Mode): (back: Option<nat>)
    requires i <= |text|
    ensures back.Some? ==> i <= back.value <= |text|
    decreases |text| - i
  {
    if mode.Code? then Some(i)
    else if i == |text| then None
    else CodeAgain(text, i + Width(text, i, mode), ModeAfter(text, i, mode))
  }

  lemma {:induction false} CloseSkips(text: string, i: nat, mode: Mode, depth: int, opening: char, closing: char)
    requires i <= |text| && CodeAgain(text, i, mode).Some?
    ensures CloseFrom(text, i, mode, depth, opening, closing)
         == CloseFrom(text, CodeAgain(text, i, mode).value, Code, depth, opening, closing)
    decreases |text| - i
  {
    if !mode.Code? {
      CloseSkips(text, i + Width(text, i, mode), ModeAfter(text, i, mode), depth, opening, closing);
    }
  }

  lemma {:induction false} PropertySkips(text: string, i: nat, mode: Mode, braces: int, squares: int, name: string)
    requires i <= |text| && CodeAgain(text, i, mode).Some?
    ensures PropertyFrom(text, i, mode, braces, squares, name)
         == PropertyFrom(text, CodeAgain(text, i, mode).value, Code, braces, squares, name)
    decreases |text| - i
  {
    if !mode.Code? {
      PropertySkips(text, i + Width(text, i, mode), ModeAfter(text, i, mode), braces, squares, name);
    }
  }

  lemma {:induction false} ObjectsSkip(text: string, i: nat, mode: Mode)
    requires i <= |text| && CodeAgain(text, i, mode).Some?
    ensures ObjectsFrom(text, i, mode) == ObjectsFrom(text, CodeAgain(text, i, mode).value, Code)
    decreases |text| - i
  {
    if !mode.Code? {
      ObjectsSkip(text, i + Width(text, i, mode), ModeAfter(text, i, mode));
    }
  }

  lemma {:induction false} QuoteEnds(text: string, i: nat, escaped: bool)
    requires i <= |text| && ClosingQuote(text, i, escaped).Some?
    ensures CodeAgain(text, i, Quoted('"', escaped)) == ClosingQuote(text, i, escaped)
    decreases |text| - i
  {
    if escaped || text[i] != '"' {
      QuoteEnds(text, i + 1, !escaped && text[i] == '\\');
    }
  }

  lemma {:induction false} LineNoteEnds(text: string, i: nat, note: string)
    requires At(text, i, note) && '\n' !in note && i + |note| < |text| && text[i + |note|] == '\n'
    ensures CodeAgain(text, i, LineComment) == Some(i + |note| + 1)
    decreases |note|
  {
    if note == "" {
      assert CodeAgain(text, i + 1, Code) == Some(i + 1);
    } else {
      assert text[i] == note[0] && note[0] in note;
      LineNoteEnds(text, i + 1, note[1..]);
    }
  }

  lemma {:induction false} BlockNoteEnds(text: string, i: nat, note: string)
    requires At(text, i, note) && GoodTrivium(BlockNote(note))
    requires i + |note| + 1 < |text| && text[i + |note|] == '*' && text[i + |note| + 1] == '/'
    ensures CodeAgain(text, i, BlockComment) == Some(i + |note| + 2)
    decreases |note|
  {
    if note == "" {
      assert CodeAgain(text, i + 2, Code) == Some(i + 2);
    } else {
      assert text[i] == note[0];
      assert text[i + 1] == if |note| > 1 then note[1] else '*';
      BlockNoteEnds(text, i + 1, note[1..]);
    }
  }

  // ----- pieces that every scanner clears -----

  ghost predicate CloseClears(text: string, i: nat, j: nat, opening: char, closing: char) {
    && i <= j <= |text|
    && (forall depth: int ::
          CloseFrom(text, i, Code, depth, opening, closing) == CloseFrom(text, j, Code, depth, opening, closing))
  }

  ghost predicate PropertyClears(text: string, i: nat, j: nat) {
    && i <= j <= |text|
    && (forall braces: int, squares: int, name: string ::
          PropertyFrom(text, i, Code, braces, squares, name) == PropertyFrom(text, j, Code, braces, squares, name))
  }

  /** Whatever a scanner counts, it comes out at `j` just as it went in at `i`. */
  ghost predicate Clears(text: string, i: nat, j: nat) {
    && CloseClears(text, i, j, '{', '}') && CloseClears(text, i, j, '[', ']') && PropertyClears(text, i, j)
    && ObjectsFrom(text, i, Code) == ObjectsFrom(text, j, Code)
  }

  lemma ClearsOn(text: string, i: nat, j: nat, k: nat)
    requires Clears(text, i, j) && Clears(text, j, k)
    ensures Clears(text, i, k)
  {}

  lemma ClearsNothing(text: string, i: nat)
    requires i <= |text|
    ensures Clears(text, i, i)
  {}

  /** A position that begins a string or a comment is cleared up to where the scan is back in code. */
  lemma ExcursionClears(text: string, i: nat)
    requires i < |text| && !Plain(text, i, Code)
    requires CodeAgain(text, i + Width(text, i, Code), ModeAfter(text, i, Code)).Some?
    ensures Clears(text, i, CodeAgain(text, i + Width(text, i, Code), ModeAfter(text, i, Code)).value)
  {
    var next, mode := i + Width(text, i, Code), ModeAfter(text, i, Code);
    var back := CodeAgain(text, next, mode).value;
    forall depth: int, opening: char, closing: char | opening in "{[" && closing in "}]"
      ensures CloseFrom(text, i, Code, depth, opening, closing) == CloseFrom(text, back, Code, depth, opening, closing)
    {
      CloseSkips(text, next, mode, depth, opening, closing);
    }
    forall braces: int, squares: int, name: string
      ensures PropertyFrom(text, i, Code, braces, squares, name) ==
        PropertyFrom(text, back, Code, braces, squares, name)
    {
      PropertySkips(text, next, mode, braces, squares, name);
    }
    ObjectsSkip(text, next, mode);
  }

  predicate Ordinary(c: char) {
    !IsQuote(c) && c != '/' && c != '{' && c != '}' && c != '[' && c != ']'
  }

  /** Ordinary, and no name begins with it. */
  predicate Quiet(c: char) {
    Ordinary(c) && !IsNameStart(c)
  }

  lemma QuietCharClears(text: string, i: nat)
    requires i < |text| && Quiet(text[i])
    ensures Clears(text, i, i + 1)
  {}

  lemma {:induction false} QuietClears(text: string, i: nat, piece: string)
    requires At(text, i, piece) && (forall k :: 0 <= k < |piece| ==> Quiet(piece[k]))
    ensures Clears(text, i, i + |piece|)
    decreases |piece|
  {
    if piece == "" {
      ClearsNothing(text, i);
    } else {
      assert text[i] == piece[0];
      QuietCharClears(text, i);
      assert At(text, i + 1, piece[1..]);
      QuietClears(text, i + 1, piece[1..]);
      ClearsOn(text, i, i + 1, i + |piece|);
    }
  }

  lemma LineNoteClears(text: string, i: nat, note: string)
    requires At(text, i, "//" + note + "\n") && '\n' !in note
    ensures Clears(text, i, i + 2 + |note| + 1)
  {
    AtSplitsInThree(text, i, "//", note, "\n");
    AtChar(text, i, "//", 0);
    AtChar(text, i, "//", 1);
    AtChar(text, i + 2 + |note|, "\n", 0);
    LineNoteEnds(text, i + 2, note);
    ExcursionClears(text, i);
  }

  lemma BlockNoteClears(text: string, i: nat, note: string)
    requires At(text, i, "/*" + note + "*/") && GoodTrivium(BlockNote(note))
    ensures Clears(text, i, i + 2 + |note| + 2)
  {
    AtSplitsInThree(text, i, "/*", note, "*/");
    AtChar(text, i, "/*", 0);
    AtChar(text, i, "/*", 1);
    AtChar(text, i + 2 + |note|, "*/", 0);
    AtChar(text, i + 2 + |note|, "*/", 1);
    BlockNoteEnds(text, i + 2, note);
    ExcursionClears(text, i);
  }

  // ----- clear pieces, wherever they stand -----

  ghost predicate Clear(piece: string) {
    forall text: string, i: nat :: At(text, i, piece) ==> Clears(text, i, i + |piece|)
  }

  lemma ClearAppend(a: string, b: string)
    requires Clear(a) && Clear(b)
    ensures Clear(a + b)
  {
    forall text: string, i: nat | At(text, i, a + b) ensures Clears(text, i, i + |a + b|) {
      AtSplits(text, i, a, b);
      ClearsOn(text, i, i + |a|, i + |a| + |b|);
    }
  }

  lemma QuietIsClear(piece: string)
    requires forall k :: 0 <= k < |piece| ==> Quiet(piece[k])
    ensures Clear(piece)
  {
    forall text: string, i: nat | At(text, i, piece) ensures Clears(text, i, i + |piece|) {
      QuietClears(text, i, piece);
    }
  }

  lemma LineNoteIsClear(note: string, piece: string)
    requires '\n' !in note && piece == "//" + note + "\n"
    ensures Clear(piece)
  {
    forall text: string, i: nat | At(text, i, piece) ensures Clears(text, i, i + |piece|) {
      LineNoteClears(text, i, note);
    }
  }

  lemma BlockNoteIsClear(note: string, piece: string)
    requires GoodTrivium(BlockNote(note)) && piece == "/*" + note + "*/"
    ensures Clear(piece)
  {
    forall text: string, i: nat | At(text, i, piece) ensures Clears(text, i, i + |piece|) {
      BlockNoteClears(text, i, note);
    }
  }

  lemma TriviumIsClear(trivium: Trivium)
    requires GoodTrivium(trivium)
    ensures Clear(PrintTrivium(trivium))
  {
    match trivium
    case Blank(c) => QuietIsClear([c]);
    case Comma => QuietIsClear(",");
    case LineNote(note) => LineNoteIsClear(note, PrintTrivium(trivium));
    case BlockNote(note) => BlockNoteIsClear(note, PrintTrivium(trivium));
  }

  lemma {:induction false} GapIsClear(gap: Gap)
    requires GoodGap(gap)
    ensures Clear(PrintGap(gap))
  {
    if gap == [] {
      QuietIsClear("");
    } else {
      TriviumIsClear(gap[0]);
      GapIsClear(gap[1..]);
      ClearAppend(PrintTrivium(gap[0]), PrintGap(gap[1..]));
    }
  }

  lemma FrameParts(text: string, i: nat, a: string, inside: string, b: string)
    requires |a| == |b| == 1 && At(text, i, a + inside + b)
    ensures i + 1 + |inside| < |text| && text[i] == a[0] && At(text, i + 1, inside) && text[i + 1 + |inside|] == b[0]
  {
    AtSplitsInThree(text, i, a, inside, b);
    AtChar(text, i, a, 0);
    AtChar(text, i + 1 + |inside|, b, 0);
  }

  lemma QuotedClears(text: string, i: nat, body: string)
    requires Contained(body, false) && At(text, i + 1, body)
    requires i + 1 + |body| < |text| && text[i] == '"' && text[i + 1 + |body|] == '"'
    ensures Clears(text, i, i + |body| + 2)
  {
    ContainedCloses(text, i + 1, body, false);
    QuoteEnds(text, i + 1, false);
    ExcursionClears(text, i);
  }

  lemma LiteralIsClear(body: string)
    requires Contained(body, false)
    ensures Clear("\"" + body + "\"")
  {
    forall text: string, i: nat | At(text, i, "\"" + body + "\"") ensures Clears(text, i, i + |"\"" + body + "\""|) {
      FrameParts(text, i, "\"", body, "\"");
      QuotedClears(text, i, body);
    }
  }

  lemma ClearKeepsObjects(text: string, i: nat, piece: string)
    requires Clear(piece) && At(text, i, piece)
    ensures i + |piece| <= |text| && ObjectsFrom(text, i, Code) == ObjectsFrom(text, i + |piece|, Code)
  {
    assert Clears(text, i, i + |piece|);
  }

  lemma ClearKeepsProperty(text: string, i: nat, piece: string, name: string)
    requires Clear(piece) && At(text, i, piece)
    ensures i + |piece| <= |text| &&
      PropertyFrom(text, i, Code, 1, 0, name) == PropertyFrom(text, i + |piece|, Code, 1, 0, name)
  {
    assert Clears(text, i, i + |piece|);
  }

  // ----- pieces that leave a scanner inside brackets as it was -----

  ghost predicate ClosePasses(text: string, i: nat, j: nat, opening: char, closing: char) {
    && i <= j <= |text|
    && (forall depth: int :: depth >= 1 ==>
          CloseFrom(text, i, Code, depth, opening, closing) == CloseFrom(text, j, Code, depth, opening, closing))
  }

  ghost predicate PropertyPasses(text: string, i: nat, j: nat) {
    && i <= j <= |text|
    && (forall braces: int, squares: int, name: string :: squares >= 1 || braces >= 2 ==>
          PropertyFrom(text, i, Code, braces, squares, name) == PropertyFrom(text, j, Code, braces, squares, name))
  }

  /** Inside brackets, the bracket and property scanners come out at `j` just as they went in at `i`. */
  ghost predicate Passes(text: string, i: nat, j: nat) {
    ClosePasses(text, i, j, '{', '}') && ClosePasses(text, i, j, '[', ']') && PropertyPasses(text, i, j)
  }

  lemma PassesOn(text: string, i: nat, j: nat, k: nat)
    requires Passes(text, i, j) && Passes(text, j, k)
    ensures Passes(text, i, k)
  {}

  lemma OrdinaryCharPasses(text: string, i: nat)
    requires i < |text| && Ordinary(text[i])
    ensures Passes(text, i, i + 1)
  {}

  lemma EnclosedPasses(text: string, i: nat, j: nat)
    requires i + 1 <= j < |text| && Passes(text, i + 1, j)
    requires (text[i] == '{' && text[j] == '}') || (text[i] == '[' && text[j] == ']')
    ensures Passes(text, i, j + 1)
  {
    forall depth: int | depth >= 1
      ensures CloseFrom(text, i, Code, depth, '{', '}') == CloseFrom(text, j + 1, Code, depth, '{', '}')
    {
      var inner := if text[i] == '{' then depth + 1 else depth;
      assert CloseFrom(text, i + 1, Code, inner, '{', '}') == CloseFrom(text, j, Code, inner, '{', '}');
    }
    forall depth: int | depth >= 1
      ensures CloseFrom(text, i, Code, depth, '[', ']') == CloseFrom(text, j + 1, Code, depth, '[', ']')
    {
      var inner := if text[i] == '[' then depth + 1 else depth;
      assert CloseFrom(text, i + 1, Code, inner, '[', ']') == CloseFrom(text, j, Code, inner, '[', ']');
    }
    forall braces: int, squares: int, name: string | squares >= 1 || braces >= 2
      ensures PropertyFrom(text, i, Code, braces, squares, name) ==
        PropertyFrom(text, j + 1, Code, braces, squares, name)
    {
      var b := if text[i] == '{' then braces + 1 else braces;
      var s := if text[i] == '[' then squares + 1 else squares;
      assert PropertyFrom(text, i + 1, Code, b, s, name) == PropertyFrom(text, j, Code, b, s, name);
    }
  }

  /** A piece that passes, wherever it stands. */
  ghost predicate Neutral(piece: string) {
    forall text: string, i: nat :: At(text, i, piece) ==> Passes(text, i, i + |piece|)
  }

  lemma ClearIsNeutral(piece: string)
    requires Clear(piece)
    ensures Neutral(piece)
  {
    forall text: string, i: nat | At(text, i, piece) ensures Passes(text, i, i + |piece|) {
      assert Clears(text, i, i + |piece|);
    }
  }

  lemma NeutralAppend(a: string, b: string)
    requires Neutral(a) && Neutral(b)
    ensures Neutral(a + b)
  {
    forall text: string, i: nat | At(text, i, a + b) ensures Passes(text, i, i + |a + b|) {
      AtSplits(text, i, a, b);
      PassesOn(text, i, i + |a|, i + |a| + |b|);
    }
  }

  lemma {:induction false} OrdinaryIsNeutral(piece: string)
    requires forall k :: 0 <= k < |piece| ==> Ordinary(piece[k])
    ensures Neutral(piece)
  {
    if piece == "" {
      QuietIsClear("");
      ClearIsNeutral("");
    } else {
      forall text: string, i: nat | At(text, i, [piece[0]]) ensures Passes(text, i, i + 1) {
        AtChar(text, i, [piece[0]], 0);
        OrdinaryCharPasses(text, i);
      }
      OrdinaryIsNeutral(piece[1..]);
      NeutralAppend([piece[0]], piece[1..]);
      assert [piece[0]] + piece[1..] == piece;
    }
  }

  lemma FrameIsNeutral(a: string, inside: string, b: string)
    requires Neutral(inside) && ((a == "{" && b == "}") || (a == "[" && b == "]"))
    ensures Neutral(a + inside + b)
  {
    forall text: string, i: nat | At(text, i, a + inside + b) ensures Passes(text, i, i + |a + inside + b|) {
      FrameParts(text, i, a, inside, b);
      EnclosedPasses(text, i, i + 1 + |inside|);
    }
  }

  // ----- printed values are neutral -----

  lemma {:induction false} ValueIsNeutral(value: Value)
    requires WellFormedValue(value)
    ensures Neutral(PrintValue(value))
    decreases value
  {
    match value
    case Text(body) =>
      LiteralIsClear(body);
      ClearIsNeutral("\"" + body + "\"");
    case Array(lead, objects) =>
      ArrayInsideIsNeutral(lead, objects);
      FrameIsNeutral("[", PrintGap(lead) + PrintObjects(objects), "]");
    case Nested(inner) =>
      ObjectInsideIsNeutral(inner);
      FrameIsNeutral("{", PrintGap(inner.lead) + PrintFields(inner.fields), "}");
    case Word(word) =>
      OrdinaryIsNeutral(word);
  }

  lemma GapIsNeutral(gap: Gap)
    requires GoodGap(gap)
    ensures Neutral(PrintGap(gap))
  {
    GapIsClear(gap);
    ClearIsNeutral(PrintGap(gap));
  }

  /** What stands between the brackets of an array. */
  lemma {:induction false} ArrayInsideIsNeutral(lead: Gap, objects: seq<Object>)
    requires GoodGap(lead) && WellFormedObjects(objects)
    ensures Neutral(PrintGap(lead) + PrintObjects(objects))
    decreases objects, 1
  {
    GapIsNeutral(lead);
    ObjectsAreNeutral(objects);
    NeutralAppend(PrintGap(lead), PrintObjects(objects));
  }

  /** What stands between the braces of an object. */
  lemma {:induction false} ObjectInsideIsNeutral(o: Object)
    requires WellFormedObject(o)
    ensures Neutral(PrintGap(o.lead) + PrintFields(o.fields))
    decreases o, 0
  {
    GapIsNeutral(o.lead);
    FieldsAreNeutral(o.fields);
    NeutralAppend(PrintGap(o.lead), PrintFields(o.fields));
  }

  lemma {:induction false} ObjectsAreNeutral(objects: seq<Object>)
    requires WellFormedObjects(objects)
    ensures Neutral(PrintObjects(objects))
    decreases objects, 0
  {
    if objects == [] {
      OrdinaryIsNeutral("");
    } else {
      var first := objects[0];
      ObjectInsideIsNeutral(first);
      FrameIsNeutral("{", PrintGap(first.lead) + PrintFields(first.fields), "}");
      GapIsNeutral(first.trail);
      NeutralAppend(PrintObject(first), PrintGap(first.trail));
      ObjectsAreNeutral(objects[1..]);
      NeutralAppend(PrintObject(first) + PrintGap(first.trail), PrintObjects(objects[1..]));
    }
  }

  lemma NameIsNeutral(field: Field)
    requires IsName(field.name) && AllSpaces(field.before) && AllSpaces(field.after)
    ensures Neutral(PrintName(field))
  {
    OrdinaryIsNeutral(PrintName(field));
  }

  lemma {:induction false} FieldIsNeutral(field: Field)
    requires WellFormedField(field)
    ensures Neutral(PrintField(field))
    decreases field, 0
  {
    NameIsNeutral(field);
    ValueIsNeutral(field.value);
    GapIsNeutral(field.trail);
    NeutralAppend(PrintName(field), PrintValue(field.value));
    NeutralAppend(PrintName(field) + PrintValue(field.value), PrintGap(field.trail));
  }

  lemma {:induction false} FieldsAreNeutral(fields: seq<Field>)
    requires WellFormedFields(fields)
    ensures Neutral(PrintFields(fields))
    decreases fields, 0
  {
    if fields == [] {
      OrdinaryIsNeutral("");
    } else {
      FieldIsNeutral(fields[0]);
      FieldsAreNeutral(fields[1..]);
      NeutralAppend(PrintField(fields[0]), PrintFields(fields[1..]));
    }
  }

  // ----- arrays and their objects -----

  /** A scan from an opening bracket ends behind the closing one when what stands between them is neutral. */
  lemma FrameCloses(text: string, i: nat, a: string, inside: string, b: string)
    requires Neutral(inside) && ((a == "{" && b == "}") || (a == "[" && b == "]")) && At(text, i, a + inside + b)
    ensures i + 1 + |inside| < |text| && text[i] == a[0] && text[i + 1 + |inside|] == b[0]
    ensures CloseFrom(text, i, Code, 0, a[0], b[0]) == Some(i + |a + inside + b|)
    ensures text[i..i + |a + inside + b|] == a + inside + b
  {
    FrameParts(text, i, a, inside, b);
    AtSlice(text, i, a + inside + b);
    var close := i + 1 + |inside|;
    assert Passes(text, i + 1, close);
    assert CloseFrom(text, i + 1, Code, 1, a[0], b[0]) == CloseFrom(text, close, Code, 1, a[0], b[0]);
  }

  /** The array scanner returns exactly the printed array. */
  lemma ArrayIsBalanced(text: string, start: nat, lead: Gap, objects: seq<Object>)
    requires GoodGap(lead) && WellFormedObjects(objects) && At(text, start, PrintValue(Array(lead, objects)))
    ensures Balanced(text, start, '[', ']') == Ok(PrintValue(Array(lead, objects)))
  {
    ArrayInsideIsNeutral(lead, objects);
    FrameCloses(text, start, "[", PrintGap(lead) + PrintObjects(objects), "]");
  }

  function PrintEach(objects: seq<Object>): seq<string> {
    if objects == [] then [] else [PrintObject(objects[0])] + PrintEach(objects[1..])
  }

  /** The object scanner reports `i..end` and goes on at `next`. */
  ghost predicate ReportsFirst(text: string, i: nat, end: nat, next: nat) {
    && i <= |text| && next <= |text|
    && ObjectsFrom(text, i, Code) ==
       match ObjectsFrom(text, next, Code) case Err(error) => Err(error) case Ok(rest) => Ok([(i, end)] + rest)
  }

  /** From `i` on the object scanner finds exactly these texts. */
  ghost predicate FindsBlocks(text: string, i: nat, blocks: seq<string>) {
    i <= |text| && Appended(text, [], ObjectsFrom(text, i, Code)) == Ok(blocks)
  }

  /** A block of neutral contents and the clear gap behind it. */
  lemma BlockIsScanned(text: string, i: nat, block: string, inside: string, gap: string)
    requires block == "{" + inside + "}" && Neutral(inside) && Clear(gap) && At(text, i, block) &&
      At(text, i + |block|, gap)
    ensures var end := i + |block|;
            end + |gap| <= |text| && SliceOf(text, (i, end)) == block && ReportsFirst(text, i, end, end + |gap|)
  {
    FrameCloses(text, i, "{", inside, "}");
    ClearKeepsObjects(text, i + |block|, gap);
  }

  lemma CutBefore(text: string, region: (nat, nat), rest: seq<(nat, nat)>, first: string)
    requires SliceOf(text, region) == first
    ensures [] + Cut(text, [region] + rest) == [first] + ([] + Cut(text, rest))
  {
    CutFirst(text, [], region, rest);
  }

  lemma {:induction false} ScannedObjects(text: string, i: nat, objects: seq<Object>, printed: string,
                                          blocks: seq<string>)
    requires WellFormedObjects(objects) && printed == PrintObjects(objects) && blocks == PrintEach(objects)
    requires At(text, i, printed) && i + |printed| == |text|
    ensures FindsBlocks(text, i, blocks)
    decreases |objects|
  {
    if objects == [] {
      NothingFound(text);
    } else {
      var rest, others := PrintObjects(objects[1..]), PrintEach(objects[1..]);
      var next := FirstObjectEnds(text, i, objects, printed, rest);
      ScannedObjects(text, next, objects[1..], rest, others);
      FirstObjectIsFound(text, i, next, objects, printed, others);
    }
  }

  function FirstPart(objects: seq<Object>): string
    requires objects != []
  {
    PrintObject(objects[0]) + PrintGap(objects[0].trail)
  }

  lemma FirstObjectEnds(text: string, i: nat, objects: seq<Object>, printed: string, rest: string) returns (next: nat)
    requires objects != [] && printed == PrintObjects(objects) && rest == PrintObjects(objects[1..]) &&
      At(text, i, printed)
    ensures next == i + |FirstPart(objects)| && At(text, next, rest) && next + |rest| == i + |printed|
  {
    next := i + |FirstPart(objects)|;
    SplitInTwo(text, i, printed, FirstPart(objects), rest);
  }

  lemma FirstObjectIsFound(text: string, i: nat, next: nat, objects: seq<Object>, printed: string, found: seq<string>)
    requires objects != [] && WellFormedObject(objects[0]) && printed == PrintObjects(objects) && At(text, i, printed)
    requires next == i + |FirstPart(objects)| && FindsBlocks(text, next, found)
    ensures FindsBlocks(text, i, [PrintObject(objects[0])] + found)
  {
    var block, gap := PrintObject(objects[0]), PrintGap(objects[0].trail);
    AtSplitsInThree(text, i, block, gap, PrintObjects(objects[1..]));
    ObjectComesFirst(text, i, objects[0], block, gap, found);
  }

  lemma NothingFound(text: string)
    ensures FindsBlocks(text, |text|, [])
  {
    assert [] + Cut(text, []) == [];
  }

  lemma ObjectComesFirst(text: string, i: nat, o: Object, block: string, gap: string, found: seq<string>)
    requires WellFormedObject(o) && block == PrintObject(o) && gap == PrintGap(o.trail)
    requires At(text, i, block) && At(text, i + |block|, gap) && FindsBlocks(text, i + |block| + |gap|, found)
    ensures FindsBlocks(text, i, [block] + found)
  {
    ObjectInsideIsNeutral(o);
    GapIsClear(o.trail);
    BlockComesFirst(text, i, block, PrintGap(o.lead) + PrintFields(o.fields), gap);
  }

  lemma BlockComesFirst(text: string, i: nat, block: string, inside: string, gap: string)
    requires block == "{" + inside + "}" && Neutral(inside) && Clear(gap) && At(text, i, block) &&
      At(text, i + |block|, gap)
    ensures i + |block| + |gap| <= |text|
    ensures forall found: seq<string> ::
              FindsBlocks(text, i + |block| + |gap|, found) ==> FindsBlocks(text, i, [block] + found)
  {
    BlockIsScanned(text, i, block, inside, gap);
    FoundBefore(text, i, i + |block|, i + |block| + |gap|, block);
  }

  lemma FoundBefore(text: string, i: nat, end: nat, next: nat, block: string)
    requires ReportsFirst(text, i, end, next) && SliceOf(text, (i, end)) == block
    ensures forall found: seq<string> :: FindsBlocks(text, next, found) ==> FindsBlocks(text, i, [block] + found)
  {
    if ObjectsFrom(text, next, Code).Ok? {
      CutBefore(text, (i, end), ObjectsFrom(text, next, Code).value, block);
    }
  }

  /** The object scanner splits the inside of a printed array into its printed objects. */
  lemma ObjectsOfPrinted(lead: Gap, objects: seq<Object>)
    requires GoodGap(lead) && WellFormedObjects(objects)
    ensures Objects(PrintGap(lead) + PrintObjects(objects)) == Ok(PrintEach(objects))
  {
    var gap, contents := PrintGap(lead), PrintObjects(objects);
    var text := gap + contents;
    GapIsClear(lead);
    AtSplits(text, 0, gap, contents);
    ClearKeepsObjects(text, 0, gap);
    ScannedObjects(text, |gap|, objects, contents, PrintEach(objects));
  }

  // ----- pieces the property scanner skips at the object's own level -----

  ghost predicate Skips(text: string, i: nat, j: nat) {
    && i <= j <= |text|
    && (forall name: string :: PropertyFrom(text, i, Code, 1, 0, name) == PropertyFrom(text, j, Code, 1, 0, name))
  }

  /** A piece that the property scanner skips, wherever it stands. */
  ghost predicate Skippable(piece: string) {
    forall text: string, i: nat :: At(text, i, piece) ==> Skips(text, i, i + |piece|)
  }

  lemma ClearIsSkippable(piece: string)
    requires Clear(piece)
    ensures Skippable(piece)
  {
    forall text: string, i: nat | At(text, i, piece) ensures Skips(text, i, i + |piece|) {
      forall name: string
        ensures PropertyFrom(text, i, Code, 1, 0, name) == PropertyFrom(text, i + |piece|, Code, 1, 0, name)
      {
        ClearKeepsProperty(text, i, piece, name);
      }
    }
  }

  lemma SkippableAppend(a: string, b: string)
    requires Skippable(a) && Skippable(b)
    ensures Skippable(a + b)
  {
    forall text: string, i: nat | At(text, i, a + b) ensures Skips(text, i, i + |a + b|) {
      AtSplits(text, i, a, b);
      assert Skips(text, i, i + |a|) && Skips(text, i + |a|, i + |a| + |b|);
    }
  }

  lemma SquaresAreSkippable(inside: string)
    requires Neutral(inside)
    ensures Skippable("[" + inside + "]")
  {
    forall text: string, i: nat | At(text, i, "[" + inside + "]") ensures Skips(text, i, i + |"[" + inside + "]"|) {
      FrameParts(text, i, "[", inside, "]");
      var close := i + 1 + |inside|;
      assert Passes(text, i + 1, close);
      forall name: string
        ensures PropertyFrom(text, i, Code, 1, 0, name) == PropertyFrom(text, close + 1, Code, 1, 0, name)
      {
        assert PropertyFrom(text, i + 1, Code, 1, 1, name) == PropertyFrom(text, close, Code, 1, 1, name);
      }
    }
  }

  lemma BracesAreSkippable(inside: string)
    requires Neutral(inside)
    ensures Skippable("{" + inside + "}")
  {
    forall text: string, i: nat | At(text, i, "{" + inside + "}") ensures Skips(text, i, i + |"{" + inside + "}"|) {
      FrameParts(text, i, "{", inside, "}");
      var close := i + 1 + |inside|;
      assert Passes(text, i + 1, close);
      forall name: string
        ensures PropertyFrom(text, i, Code, 1, 0, name) == PropertyFrom(text, close + 1, Code, 1, 0, name)
      {
        assert PropertyFrom(text, i + 1, Code, 2, 0, name) == PropertyFrom(text, close, Code, 2, 0, name);
      }
    }
  }

  lemma {:induction false} NameStops(text: string, i: nat, stop: nat)
    requires i <= stop < |text| && !IsNamePart(text[stop])
    ensures NameEnd(text, i) <= stop && !IsNamePart(text[NameEnd(text, i)])
    decreases stop - i
  {
    if IsNamePart(text[i]) { NameStops(text, i + 1, stop); }
  }

  /** A word with a comma behind it is no property, even if it is the name looked for. */
  lemma {:induction false} WordIsPassed(text: string, i: nat, stop: nat, name: string)
    requires i <= stop < |text| && text[stop] == ',' && forall k :: i <= k < stop ==> IsWordPart(text[k])
    ensures PropertyFrom(text, i, Code, 1, 0, name) == PropertyFrom(text, stop, Code, 1, 0, name)
    decreases stop - i
  {
    if i < stop {
      if IsNameStart(text[i]) {
        NameStops(text, i + 1, stop);
        var end := NameEnd(text, i + 1);
        assert end == stop || IsWordPart(text[end]);
        assert SpaceEnd(text, end) == end && text[end] != ':';
        WordIsPassed(text, end, stop, name);
      } else {
        WordIsPassed(text, i + 1, stop, name);
      }
    }
  }

  lemma WordIsSkippable(word: string)
    requires forall k :: 0 <= k < |word| ==> IsWordPart(word[k])
    ensures Skippable(word + ",")
  {
    forall text: string, i: nat | At(text, i, word + ",") ensures Skips(text, i, i + |word + ","|) {
      var stop := i + |word|;
      AtSplits(text, i, word, ",");
      AtChar(text, stop, ",", 0);
      assert forall k :: i <= k < stop ==> text[k] == word[k - i];
      forall name: string
        ensures PropertyFrom(text, i, Code, 1, 0, name) == PropertyFrom(text, stop + 1, Code, 1, 0, name)
      {
        WordIsPassed(text, i, stop, name);
      }
    }
  }

  /** Behind a value the scanner is back at the depth of the object's own fields. */
  lemma ValueIsSkippable(value: Value)
    requires WellFormedValue(value) && !value.Word?
    ensures Skippable(PrintValue(value))
  {
    match value
    case Text(body) =>
      LiteralIsClear(body);
      ClearIsSkippable("\"" + body + "\"");
    case Array(lead, objects) =>
      ArrayInsideIsNeutral(lead, objects);
      SquaresAreSkippable(PrintGap(lead) + PrintObjects(objects));
    case Nested(inner) =>
      ObjectInsideIsNeutral(inner);
      BracesAreSkippable(PrintGap(inner.lead) + PrintFields(inner.fields));
  }

  /** Everything of a field behind its name. */
  lemma RestIsSkippable(field: Field)
    requires WellFormedField(field)
    ensures Skippable((field.before + ":" + field.after) + PrintValue(field.value) + PrintGap(field.trail))
  {
    var colon := field.before + ":" + field.after;
    QuietIsClear(colon);
    ClearIsSkippable(colon);
    if field.value.Word? {
      WordFieldIsSkippable(colon, field.value.word, field.trail);
    } else {
      ValueIsSkippable(field.value);
      GapIsClear(field.trail);
      ClearIsSkippable(PrintGap(field.trail));
      SkippableAppend(colon, PrintValue(field.value));
      SkippableAppend(colon + PrintValue(field.value), PrintGap(field.trail));
    }
  }

  lemma WordFieldIsSkippable(colon: string, word: string, trail: Gap)
    requires Skippable(colon) && GoodGap(trail) && trail != [] && trail[0] == Comma
    requires forall k :: 0 <= k < |word| ==> IsWordPart(word[k])
    ensures Skippable(colon + word + PrintGap(trail))
  {
    var rest := PrintGap(trail[1..]);
    WordIsSkippable(word);
    SkippableAppend(colon, word + ",");
    GapIsClear(trail[1..]);
    ClearIsSkippable(rest);
    SkippableAppend(colon + (word + ","), rest);
    assert colon + (word + ",") + rest == colon + word + ("," + rest);
  }

  // ----- finding a property -----

  /** The value of the first field of that name. */
  function Lookup(fields: seq<Field>, name: string): Option<Value> {
    if fields == [] then None
    else if fields[0].name == name then Some(fields[0].value)
    else Lookup(fields[1..], name)
  }

  lemma {:induction false} NameIsWhole(text: string, i: nat, name: string)
    requires At(text, i, name) && (forall k :: 0 <= k < |name| ==> IsNamePart(name[k]))
    requires i + |name| < |text| && !IsNamePart(text[i + |name|])
    ensures NameEnd(text, i) == i + |name|
    decreases |name|
  {
    if name != "" {
      assert text[i] == name[0];
      assert At(text, i + 1, name[1..]);
      NameIsWhole(text, i + 1, name[1..]);
    }
  }

  lemma {:induction false} SpacesEnd(text: string, i: nat, spaces: string)
    requires At(text, i, spaces) && AllSpaces(spaces)
    requires i + |spaces| < |text| && !IsSpace(text[i + |spaces|])
    ensures SpaceEnd(text, i) == i + |spaces|
    decreases |spaces|
  {
    if spaces != "" {
      assert text[i] == spaces[0];
      assert At(text, i + 1, spaces[1..]);
      SpacesEnd(text, i + 1, spaces[1..]);
    }
  }

  /** Where the parts of a name with its colon end. */
  lemma NameParts(text: string, i: nat, own: string, before: string, after: string)
    requires IsName(own) && AllSpaces(before) && AllSpaces(after) && At(text, i, own) &&
      At(text, i + |own|, before + ":" + after)
    requires var start := i + |own| + |before| + 1 + |after|; start < |text| && !IsSpace(text[start])
    ensures text[i..i + |own|] == own && IsNameStart(text[i])
    ensures NameEnd(text, i + 1) == i + |own| && SpaceEnd(text, i + |own|) == i + |own| + |before|
    ensures text[i + |own| + |before|] == ':'
    ensures SpaceEnd(text, i + |own| + |before| + 1) == i + |own| + |before| + 1 + |after|
  {
    var end := i + |own|;
    var colon := end + |before|;
    AtChar(text, end, before + ":" + after, 0);
    AtSplitsInThree(text, end, before, ":", after);
    AtChar(text, colon, ":", 0);
    NameAtIsWhole(text, i, own);
    SpacesEnd(text, end, before);
    SpacesEnd(text, colon + 1, after);
  }

  lemma NameAtIsWhole(text: string, i: nat, own: string)
    requires IsName(own) && At(text, i, own) && i + |own| < |text| && !IsNamePart(text[i + |own|])
    ensures text[i..i + |own|] == own && IsNameStart(text[i]) && NameEnd(text, i + 1) == i + |own|
  {
    AtChar(text, i, own, 0);
    AtSlice(text, i, own);
    assert At(text, i + 1, own[1..]);
    NameIsWhole(text, i + 1, own[1..]);
  }

  /** A name with its colon is either the one looked for, or it is passed as a whole. */
  lemma NameIsRead(text: string, i: nat, own: string, before: string, after: string, name: string)
    requires IsName(own) && AllSpaces(before) && AllSpaces(after) && At(text, i, own) &&
      At(text, i + |own|, before + ":" + after)
    requires var start := i + |own| + |before| + 1 + |after|; start < |text| && !IsSpace(text[start])
    ensures PropertyFrom(text, i, Code, 1, 0, name) ==
            if own == name then Some(i + |own| + |before| + 1 + |after|)
              else PropertyFrom(text, i + |own|, Code, 1, 0, name)
  {
    NameParts(text, i, own, before, after);
    PropertyAtName(text, i, i + |own|, i + |own| + |before|, name);
  }

  /** One turn of the property scanner at a name whose end and colon are known. */
  lemma PropertyAtName(text: string, i: nat, end: nat, colon: nat, name: string)
    requires i < end <= colon < |text| && IsNameStart(text[i]) && NameEnd(text, i + 1) == end
    requires SpaceEnd(text, end) == colon && text[colon] == ':'
    ensures PropertyFrom(text, i, Code, 1, 0, name) ==
            if text[i..end] == name then Some(SpaceEnd(text, colon + 1)) else PropertyFrom(text, end, Code, 1, 0, name)
  {}

  lemma ValueOpens(value: Value)
    requires WellFormedValue(value)
    ensures PrintValue(value) != "" && !IsSpace(PrintValue(value)[0])
    ensures PrintValue(value)[0] == '"' <==> value.Text?
    ensures PrintValue(value)[0] == '[' <==> value.Array?
  {
    match value
    case Nested(inner) => assert PrintValue(value) == "{" + (PrintGap(inner.lead) + PrintFields(inner.fields)) + "}";
    case Word(word) =>
    case Text(body) => assert PrintValue(value) == "\"" + body + "\"";
    case Array(lead, objects) => assert PrintValue(value) == "[" + (PrintGap(lead) + PrintObjects(objects)) + "]";
  }

  lemma SkippableIsSkipped(text: string, i: nat, piece: string, name: string)
    requires Skippable(piece) && At(text, i, piece)
    ensures i + |piece| <= |text| &&
      PropertyFrom(text, i, Code, 1, 0, name) == PropertyFrom(text, i + |piece|, Code, 1, 0, name)
  {
    assert Skips(text, i, i + |piece|);
  }

  /** A field `own` at `i` is either the one looked for, and then its value is found at `start`, or it is skipped. */
  ghost predicate ReadsField(text: string, i: nat, own: string, start: nat, value: string, end: nat, name: string) {
    && i <= |text| && end <= |text| && At(text, start, value)
    && PropertyFrom(text, i, Code, 1, 0, name) ==
       if own == name then Some(start) else PropertyFrom(text, end, Code, 1, 0, name)
  }

  lemma FieldPieces(field: Field, value: string, gap: string)
    requires WellFormedField(field) && value == PrintValue(field.value) && gap == PrintGap(field.trail)
    ensures IsName(field.name) && AllSpaces(field.before) && AllSpaces(field.after) && value != "" && !IsSpace(value[0])
    ensures Skippable((field.before + ":" + field.after) + value + gap)
  {
    ValueOpens(field.value);
    RestIsSkippable(field);
  }

  lemma PiecesAreRead(text: string, i: nat, own: string, before: string, after: string, value: string, gap: string,
                      start: nat, name: string)
    requires IsName(own) && AllSpaces(before) && AllSpaces(after) && value != "" && !IsSpace(value[0])
    requires Skippable((before + ":" + after) + value + gap) && At(text, i, own + (before + ":" + after) + value + gap)
    requires start == i + |own| + |before| + 1 + |after|
    ensures ReadsField(text, i, own, start, value, start + |value| + |gap|, name)
  {
    var colon := before + ":" + after;
    AtSplitsInThree(text, i, own + colon, value, gap);
    AtSplits(text, i, own, colon);
    AtChar(text, i + |own| + |colon|, value, 0);
    NameIsRead(text, i, own, before, after, name);
    RestIsSkipped(text, i + |own|, colon, value, gap, name);
  }

  lemma FieldIsRead(text: string, i: nat, field: Field, printed: string, value: string, start: nat, name: string)
    requires WellFormedField(field) && printed == PrintField(field) && value == PrintValue(field.value)
    requires start == i + |field.name| + |field.before| + 1 + |field.after| && At(text, i, printed)
    ensures ReadsField(text, i, field.name, start, value, i + |printed|, name)
  {
    var gap := PrintGap(field.trail);
    FieldPieces(field, value, gap);
    PiecesAreRead(text, i, field.name, field.before, field.after, value, gap, start, name);
    assert start + |value| + |gap| == i + |printed|;
  }

  lemma RestIsSkipped(text: string, i: nat, colon: string, value: string, gap: string, name: string)
    requires At(text, i, colon) && At(text, i + |colon|, value) && At(text, i + |colon| + |value|, gap)
    requires Skippable(colon + value + gap)
    ensures i + |colon| + |value| + |gap| <= |text|
    ensures PropertyFrom(text, i, Code, 1, 0, name) ==
      PropertyFrom(text, i + |colon| + |value| + |gap|, Code, 1, 0, name)
  {
    AtJoinsInThree(text, i, colon, value, gap);
    SkippableIsSkipped(text, i, colon + value + gap, name);
  }

  lemma AtJoinsInThree(text: string, i: nat, a: string, b: string, c: string)
    requires At(text, i, a) && At(text, i + |a|, b) && At(text, i + |a| + |b|, c)
    ensures At(text, i, a + b + c)
  {
    AtJoins(text, i, a, b);
    AtJoins(text, i, a + b, c);
  }

  lemma AtJoins(text: string, i: nat, a: string, b: string)
    requires At(text, i, a) && At(text, i + |a|, b)
    ensures At(text, i, a + b)
  {
    forall k | 0 <= k < |a + b| ensures text[i + k] == (a + b)[k] {
      if k < |a| { AtChar(text, i, a, k); } else { AtChar(text, i + |a|, b, k - |a|); }
    }
  }

  /** A search for `name` from `i` on finds the value `found`, or goes on at `end` as if nothing had been there. */
  ghost predicate Finds(text: string, i: nat, end: nat, found: Option<Value>, name: string)
    requires i <= |text| && end <= |text|
  {
    match found
    case None => PropertyFrom(text, i, Code, 1, 0, name) == PropertyFrom(text, end, Code, 1, 0, name)
    case Some(value) =>
      var start := PropertyFrom(text, i, Code, 1, 0, name);
      start.Some? && At(text, start.value, PrintValue(value))
  }

  lemma FieldFinds(text: string, i: nat, field: Field, printed: string, name: string)
    requires WellFormedField(field) && printed == PrintField(field) && At(text, i, printed)
    ensures Finds(text, i, i + |printed|, if field.name == name then Some(field.value) else None, name)
  {
    var start := i + |field.name| + |field.before| + 1 + |field.after|;
    FieldIsRead(text, i, field, printed, PrintValue(field.value), start, name);
  }

  lemma FirstFieldEnds(text: string, i: nat, fields: seq<Field>, printed: string, rest: string) returns (next: nat)
    requires fields != [] && printed == PrintFields(fields) && rest == PrintFields(fields[1..]) && At(text, i, printed)
    ensures next == i + |PrintField(fields[0])| && At(text, next, rest) && next + |rest| == i + |printed|
    ensures At(text, i, PrintField(fields[0]))
  {
    next := i + |PrintField(fields[0])|;
    SplitInTwo(text, i, printed, PrintField(fields[0]), rest);
  }

  lemma FindsFirst(text: string, i: nat, next: nat, end: nat, first: Option<Value>, later: Option<Value>, name: string)
    requires i <= |text| && next <= |text| && end <= |text|
    requires Finds(text, i, next, first, name) && Finds(text, next, end, later, name)
    ensures Finds(text, i, end, if first.Some? then first else later, name)
  {}

  lemma FirstThenLater(text: string, i: nat, next: nat, end: nat, own: string, value: Value, later: Option<Value>,
                       found: Option<Value>, name: string)
    requires i <= |text| && next <= |text| && end <= |text|
    requires Finds(text, i, next, if own == name then Some(value) else None, name)
    requires Finds(text, next, end, later, name)
    requires found == if own == name then Some(value) else later
    ensures Finds(text, i, end, found, name)
  {
    FindsFirst(text, i, next, end, if own == name then Some(value) else None, later, name);
  }

  lemma {:induction false} FieldsAreSearched(
      text: string, i: nat, fields: seq<Field>, printed: string, found: Option<Value>, name: string)
    requires WellFormedFields(fields) && printed == PrintFields(fields) && At(text, i, printed)
    requires found == Lookup(fields, name)
    ensures Finds(text, i, i + |printed|, found, name)
    decreases |fields|
  {
    if fields != [] {
      var first, rest, later := PrintField(fields[0]), PrintFields(fields[1..]), Lookup(fields[1..], name);
      var next := FirstFieldEnds(text, i, fields, printed, rest);
      FieldFinds(text, i, fields[0], first, name);
      FieldsAreSearched(text, next, fields[1..], rest, later, name);
      FirstThenLater(text, i, next, i + |printed|, fields[0].name, fields[0].value, later, found, name);
    }
  }

  lemma BracesAreStepped(block: string, name: string)
    requires |block| >= 2 && block[0] == '{' && block[|block| - 1] == '}'
    ensures PropertyFrom(block, 0, Code, 0, 0, name) == PropertyFrom(block, 1, Code, 1, 0, name)
    ensures PropertyFrom(block, |block| - 1, Code, 1, 0, name) == None
  {}

  /** The property scanner finds the value of the first field of that name, at the object's own level only. */
  lemma PropertyOfPrinted(o: Object, name: string)
    requires WellFormedObject(o)
    ensures var block := PrintObject(o);
            var start := PropertyFrom(block, 0, Code, 0, 0, name);
            match Lookup(o.fields, name)
            case None => start == None
            case Some(value) => start.Some? && At(block, start.value, PrintValue(value))
  {
    var gap, contents := PrintGap(o.lead), PrintFields(o.fields);
    GapIsClear(o.lead);
    BlockParts(gap, contents);
    PropertyInBraces("{" + (gap + contents) + "}", gap, contents, o.fields, name);
  }

  lemma BlockParts(gap: string, contents: string)
    ensures var block := "{" + (gap + contents) + "}";
            && At(block, 1, gap) && At(block, 1 + |gap|, contents) && |block| == |gap| + |contents| + 2
            && block[0] == '{' && block[|block| - 1] == '}'
  {
    var block := "{" + (gap + contents) + "}";
    FrameParts(block, 0, "{", gap + contents, "}");
    AtSplits(block, 1, gap, contents);
  }

  lemma PropertyInBraces(block: string, gap: string, contents: string, fields: seq<Field>, name: string)
    requires Clear(gap) && WellFormedFields(fields) && contents == PrintFields(fields)
    requires At(block, 1, gap) && At(block, 1 + |gap|, contents) && |block| == |gap| + |contents| + 2
    requires block[0] == '{' && block[|block| - 1] == '}'
    ensures var start := PropertyFrom(block, 0, Code, 0, 0, name);
            match Lookup(fields, name)
            case None => start == None
            case Some(value) => start.Some? && At(block, start.value, PrintValue(value))
  {
    ClearKeepsProperty(block, 1, gap, name);
    FieldsAreSearched(block, 1 + |gap|, fields, contents, Lookup(fields, name), name);
    BracesAreStepped(block, name);
  }
}
