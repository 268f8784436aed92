/**
 Object literals with string and array values, printed in any layout: white space and comments between the tokens,
 and strings in any spelling.
 */
module RoadmapSyntax {
  import opened JsonStrings
  import opened TsLexer

  // ----- between the tokens -----

  /** White space, a comma, or a comment. */
  datatype Trivium = Blank(c: char) | Comma | LineNote(text: string) | BlockNote(text: string)

  type Gap = seq<Trivium>

  /** The white space of ASCII: blank, tab to carriage return, and the four separators. */
  const BLANKS: set<char> :=
    {' ', '\t', '\n', '\U{B}', '\U{C}', '\r', '\U{1C}', '\U{1D}', '\U{1E}', '\U{1F}'}

  predicate GoodTrivium(trivium: Trivium) {
    match trivium
    case Blank(c) => c in BLANKS
    case Comma => true
    case LineNote(text) => '\n' !in text
    case BlockNote(text) => forall k :: 0 <= k < |text| - 1 ==> !(text[k] == '*' && text[k + 1] == '/')
  }

  predicate GoodGap(gap: Gap) {
    forall k :: 0 <= k < |gap| ==> GoodTrivium(gap[k])
  }

  predicate AllSpaces(text: string) {
    forall k :: 0 <= k < |text| ==> text[k] in BLANKS
  }

  function PrintTrivium(trivium: Trivium): string {
    match trivium
    case Blank(c) => [c]
    case Comma => ","
    case LineNote(text) => "//" + text + "\n"
    case BlockNote(text) => "/*" + text + "*/"
  }

  function PrintGap(gap: Gap): string {
    if gap == [] then "" else PrintTrivium(gap[0]) + PrintGap(gap[1..])
  }

  // ----- values -----

  /**
   `body` is what stands between the quotes; `lead` follows the opening bracket; a word is a name, a number or the like.
   */
  datatype Value =
    | Text(body: string)
    | Array(lead: Gap, objects: seq<Object>)
    | Nested(inner: Object)
    | Word(word: string)

  /** `lead` follows the opening brace, `trail` the closing one. */
  datatype Object = Object(lead: Gap, fields: seq<Field>, trail: Gap)

  /** Only white space may surround the colon; anything may follow the value. */
  datatype Field = Field(name: string, before: string, after: string, value: Value, trail: Gap)

  predicate IsName(name: string) {
    name != "" && (IsLetter(name[0]) || name[0] == '_') &&
    forall k :: 0 <= k < |name| ==> IsLetter(name[k]) || name[k] == '_' || '0' <= name[k] <= '9'
  }

  predicate IsLetter(c: char) {
    'a' <= c <= 'z' || 'A' <= c <= 'Z'
  }

  predicate IsWordPart(c: char) {
    IsLetter(c) || c == '_' || '0' <= c <= '9' || c == '.' || c == '-'
  }

  predicate WellFormedValue(value: Value)
    decreases value
  {
    match value
    case Text(body) => Contained(body, false)
    case Array(lead, objects) => GoodGap(lead) && WellFormedObjects(objects)
    case Nested(inner) => WellFormedObject(inner)
    case Word(word) => word != "" && forall k :: 0 <= k < |word| ==> IsWordPart(word[k])
  }

  predicate WellFormedObject(o: Object)
    decreases o
  {
    GoodGap(o.lead) && GoodGap(o.trail) && WellFormedFields(o.fields)
  }

  predicate WellFormedObjects(objects: seq<Object>)
    decreases objects
  {
    objects == [] || (WellFormedObject(objects[0]) && WellFormedObjects(objects[1..]))
  }

  /** A comma follows a word, so that it cannot be taken for a name or grow into one. */
  predicate WellFormedField(field: Field)
    decreases field
  {
    && IsName(field.name) && AllSpaces(field.before) && AllSpaces(field.after)
    && WellFormedValue(field.value) && GoodGap(field.trail)
    && (field.value.Word? ==> field.trail != [] && field.trail[0] == Comma)
  }

  predicate WellFormedFields(fields: seq<Field>)
    decreases fields
  {
    fields == [] || (WellFormedField(fields[0]) && WellFormedFields(fields[1..]))
  }

  // ----- printing -----

  function PrintValue(value: Value): string
    decreases value
  {
    match value
    case Text(body) => "\"" + body + "\""
    case Array(lead, objects) => "[" + (PrintGap(lead) + PrintObjects(objects)) + "]"
    case Nested(inner) => PrintObject(inner)
    case Word(word) => word
  }

  /** The block from brace to brace. */
  function PrintObject(o: Object): string
    decreases o
  {
    "{" + (PrintGap(o.lead) + PrintFields(o.fields)) + "}"
  }

  function PrintObjects(objects: seq<Object>): string
    decreases objects
  {
    if objects == [] then ""
    else PrintObject(objects[0]) + PrintGap(objects[0].trail) + PrintObjects(objects[1..])
  }

  function PrintField(field: Field): string
    decreases field
  {
    PrintName(field) + PrintValue(field.value) + PrintGap(field.trail)
  }

  /** The name up to where the value starts. */
  function PrintName(field: Field): string {
    field.name + (field.before + ":" + field.after)
  }

  function PrintFields(fields: seq<Field>): string
    decreases fields
  {
    if fields == [] then "" else PrintField(fields[0]) + PrintFields(fields[1..])
  }
}
