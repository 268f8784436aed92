/** Reading a printed roadmap back gives exactly what was printed. */
module RoadmapRoundTrip {
  import opened Wrappers
  import opened Decimals
  import opened JsonStrings
  import opened TsLexer
  import opened Roadmap
  import opened RoadmapSyntax
  import opened RoadmapScanning

  // ----- the meaning of a roadmap, without any text -----

  function TextOf(o: Object, name: string, required: bool): Result<string, RoadmapError> {
    match Lookup(o.fields, name)
    case None => if required then Err(PropertyMissing(name)) else Ok("")
    case Some(Text(body)) =>
      (match Decode(body)
       case None => Err(JsonInvalid)
       case Some(text) => Ok(text))
    case Some(_) => Err(PropertyNotString(name))
  }

  /** The first error of the two, else both lists. */
  function Both(first: Result<seq<OpenItem>, RoadmapError>, second: Result<seq<OpenItem>, RoadmapError>)
    : Result<seq<OpenItem>, RoadmapError>
  {
    match (first, second)
    case (Err(error), _) => Err(error)
    case (_, Err(error)) => Err(error)
    case (Ok(front), Ok(rest)) => Ok(front + rest)
  }

  const AVAILABILITIES: set<string> := {"done", "upcoming", "later"}

  const STATES: set<string> := {"done", "progress", "partial", "planned", "later"}

  const OPEN_STATES: set<string> := {"progress", "partial", "planned"}

  predicate OnlyDigits(text: string) {
    text != "" && forall k :: 0 <= k < |text| ==> '0' <= text[k] <= '9'
  }

  function ItemMeaning(phase: nat, o: Object): Result<seq<OpenItem>, RoadmapError> {
    var state := TextOf(o, "state", true);
    var caption := TextOf(o, "label", true);
    var status := TextOf(o, "status", false);
    if state.Err? then Err(state.error)
    else if state.value !in STATES then Err(StateInvalid(state.value))
    else if state.value !in OPEN_STATES then Ok([])
    else if caption.Err? then Err(caption.error)
    else if status.Err? then Err(status.error)
    else Ok([OpenItem(phase, caption.value, state.value, status.value)])
  }

  function ItemsMeaning(phase: nat, objects: seq<Object>): Result<seq<OpenItem>, RoadmapError> {
    if objects == [] then Ok([])
    else Both(ItemsMeaning(phase, objects[..|objects| - 1]), ItemMeaning(phase, objects[|objects| - 1]))
  }

  /** The digits are those of `n`, perhaps with zeros in front. */
  predicate Spells(text: string, n: nat) {
    exists zeros: nat | zeros <= |text| :: text == Zeros(zeros) + Digits(n)
  }

  function PhaseMeaning(o: Object): Result<seq<OpenItem>, RoadmapError> {
    var number := TextOf(o, "number", true);
    var availability := TextOf(o, "availability", true);
    if number.Err? then Err(number.error)
    else if availability.Err? then Err(availability.error)
    else if !OnlyDigits(number.value) then Err(PhaseNumberInvalid(number.value))
    else if availability.value !in AVAILABILITIES then Err(AvailabilityInvalid(availability.value))
    else if availability.value != "upcoming" then Ok([])
    else
      match Lookup(o.fields, "items")
      case None => Err(ItemsMissing(number.value))
      case Some(Array(_, objects)) => ItemsMeaning(Number(number.value), objects)
      case Some(_) => Err(ItemsNotArray(number.value))
  }

  function Meaning(objects: seq<Object>): Result<seq<OpenItem>, RoadmapError> {
    if objects == [] then Ok([])
    else Both(Meaning(objects[..|objects| - 1]), PhaseMeaning(objects[|objects| - 1]))
  }

  // ----- printed objects are read as they mean -----

  lemma LiteralReadsBack(block: string, start: nat, body: string, name: string)
    requires Contained(body, false) && At(block, start, "\"" + body + "\"")
    ensures StringAt(block, start, name) ==
            match Decode(body) case None => Err(JsonInvalid) case Some(text) => Ok(text)
  {
    FrameParts(block, start, "\"", body, "\"");
    ContainedCloses(block, start + 1, body, false);
    AtSlice(block, start + 1, body);
  }

  lemma FirstChar(text: string, start: nat, value: Value)
    requires WellFormedValue(value) && At(text, start, PrintValue(value))
    ensures start < |text|
    ensures text[start] == '"' <==> value.Text?
    ensures text[start] == '[' <==> value.Array?
  {
    ValueOpens(value);
    AtChar(text, start, PrintValue(value), 0);
  }

  /** A string property is read with exactly the text it spells, whatever characters it holds. */
  lemma PropertyReadsBack(o: Object, name: string, required: bool)
    requires WellFormedObject(o)
    ensures PropertyOf(PrintObject(o), name, required) == TextOf(o, name, required)
  {
    PropertyOfPrinted(o, name);
    var value := Lookup(o.fields, name);
    if value.Some? {
      LookupIsWellFormed(o.fields, name);
      var start := PropertyFrom(PrintObject(o), 0, Code, 0, 0, name).value;
      match value.value
      case Text(body) => LiteralReadsBack(PrintObject(o), start, body, name);
      case _ => FirstChar(PrintObject(o), start, value.value);
    }
  }

  lemma ArrayOpens(text: string, start: nat, lead: Gap, objects: seq<Object>)
    requires At(text, start, PrintValue(Array(lead, objects)))
    ensures start < |text| && text[start] == '['
  {
    FrameParts(text, start, "[", PrintGap(lead) + PrintObjects(objects), "]");
  }

  lemma StateWords(state: string)
    ensures KnownState(state) <==> state in STATES
    ensures KnownState(state) ==> (Finished(state) <==> state !in OPEN_STATES)
  {
  }

  lemma AvailabilityWords(availability: string)
    ensures KnownAvailability(availability) <==> availability in AVAILABILITIES
  {
  }

  lemma DigitWords(text: string)
    ensures OnlyDigits(text) <==> IsNumber(text)
  {
    if OnlyDigits(text) {
      forall c | c in text ensures IsDigit(c) {
        var k :| 0 <= k < |text| && text[k] == c;
      }
    }
    if AllDigits(text) {
      forall k | 0 <= k < |text| ensures '0' <= text[k] <= '9' { assert text[k] in text; }
    }
  }

  /** One item, for given answers of the property reader. */
  lemma ItemFollows(phase: nat, block: string, o: Object, state: Result<string, RoadmapError>)
    requires PropertyOf(block, "state", true) == TextOf(o, "state", true) == state
    requires PropertyOf(block, "label", true) == TextOf(o, "label", true)
    requires PropertyOf(block, "status", false) == TextOf(o, "status", false)
    requires state.Ok? ==> (KnownState(state.value) <==> state.value in STATES)
    requires state.Ok? && KnownState(state.value) ==> (Finished(state.value) <==> state.value !in OPEN_STATES)
    ensures ItemOf(phase, block) == ItemMeaning(phase, o)
  {
  }

  lemma ItemReadsBack(phase: nat, o: Object)
    requires WellFormedObject(o)
    ensures ItemOf(phase, PrintObject(o)) == ItemMeaning(phase, o)
  {
    PropertyReadsBack(o, "state", true);
    PropertyReadsBack(o, "label", true);
    PropertyReadsBack(o, "status", false);
    var state := TextOf(o, "state", true);
    if state.Ok? { StateWords(state.value); }
    ItemFollows(phase, PrintObject(o), o, state);
  }

  lemma {:induction false} ButLast(objects: seq<Object>)
    requires objects != [] && WellFormedObjects(objects)
    ensures WellFormedObjects(objects[..|objects| - 1]) && WellFormedObject(objects[|objects| - 1])
    ensures PrintEach(objects) == PrintEach(objects[..|objects| - 1]) + [PrintObject(objects[|objects| - 1])]
    decreases |objects|
  {
    if |objects| > 1 {
      ButLast(objects[1..]);
      assert objects[1..][..|objects| - 2] == objects[..|objects| - 1][1..];
    }
  }

  lemma ItemsOfAppend(phase: nat, front: seq<string>, last: string)
    ensures ItemsOf(phase, front + [last]) == Both(ItemsOf(phase, front), ItemOf(phase, last))
  {
    assert (front + [last])[..|front|] == front;
  }

  lemma PhasesItemsAppend(front: seq<string>, last: string)
    ensures PhasesItems(front + [last]) == Both(PhasesItems(front), PhaseItems(last))
  {
    assert (front + [last])[..|front|] == front;
  }

  lemma {:induction false} ItemsReadBack(phase: nat, objects: seq<Object>)
    requires WellFormedObjects(objects)
    ensures ItemsOf(phase, PrintEach(objects)) == ItemsMeaning(phase, objects)
    decreases |objects|
  {
    if objects != [] {
      var front, last := objects[..|objects| - 1], objects[|objects| - 1];
      ButLast(objects);
      ItemsReadBack(phase, front);
      ItemReadsBack(phase, last);
      ItemsOfAppend(phase, PrintEach(front), PrintObject(last));
    }
  }

  lemma {:induction false} LookupIsWellFormed(fields: seq<Field>, name: string)
    requires WellFormedFields(fields) && Lookup(fields, name).Some?
    ensures WellFormedValue(Lookup(fields, name).value)
    decreases |fields|
  {
    if fields[0].name != name {
      LookupIsWellFormed(fields[1..], name);
    }
  }

  lemma ArrayReadsBack(text: string, start: nat, lead: Gap, objects: seq<Object>)
    requires GoodGap(lead) && WellFormedObjects(objects) && At(text, start, PrintValue(Array(lead, objects)))
    ensures ObjectsIn(Balanced(text, start, '[', ']')) == Ok(PrintEach(objects))
  {
    ArrayIsBalanced(text, start, lead, objects);
    InnerOfFrame("[", PrintGap(lead) + PrintObjects(objects), "]");
    ObjectsOfPrinted(lead, objects);
  }

  lemma InnerOfFrame(a: string, inside: string, b: string)
    requires |a| == |b| == 1
    ensures Inner(a + inside + b) == inside
  {}

  /** The items of a phase, wherever its array stands. */
  lemma ItemsArrayReadsBack(block: string, start: nat, number: nat, lead: Gap, objects: seq<Object>)
    requires GoodGap(lead) && WellFormedObjects(objects) && At(block, start, PrintValue(Array(lead, objects)))
    ensures start < |block| && block[start] == '['
    ensures var blocks := ObjectsIn(Balanced(block, start, '[', ']'));
            blocks.Ok? && ItemsOf(number, blocks.value) == ItemsMeaning(number, objects)
  {
    ArrayOpens(block, start, lead, objects);
    ArrayReadsBack(block, start, lead, objects);
    ItemsReadBack(number, objects);
  }

  lemma UpcomingReadsBack(o: Object, number: string)
    requires WellFormedObject(o) && IsNumber(number)
    ensures UpcomingItems(number, PrintObject(o)) ==
            match Lookup(o.fields, "items")
            case None => Err(ItemsMissing(number))
            case Some(Array(_, objects)) => ItemsMeaning(Number(number), objects)
            case Some(_) => Err(ItemsNotArray(number))
  {
    PropertyOfPrinted(o, "items");
    var items := Lookup(o.fields, "items");
    if items.Some? {
      LookupIsWellFormed(o.fields, "items");
      var start := PropertyFrom(PrintObject(o), 0, Code, 0, 0, "items").value;
      match items.value
      case Array(lead, objects) => ItemsArrayReadsBack(PrintObject(o), start, Number(number), lead, objects);
      case _ => FirstChar(PrintObject(o), start, items.value);
    }
  }

  /** One phase, for given number and availability. */
  lemma PhaseFollows(block: string, o: Object, number: string, availability: string)
    requires PropertyOf(block, "number", true) == TextOf(o, "number", true) == Ok(number)
    requires PropertyOf(block, "availability", true) == TextOf(o, "availability", true) == Ok(availability)
    requires OnlyDigits(number) <==> IsNumber(number)
    requires KnownAvailability(availability) <==> availability in AVAILABILITIES
    requires IsNumber(number) ==>
      UpcomingItems(number, block) ==
      match Lookup(o.fields, "items")
      case None => Err(ItemsMissing(number))
      case Some(Array(_, objects)) => ItemsMeaning(Number(number), objects)
      case Some(_) => Err(ItemsNotArray(number))
    ensures PhaseItems(block) == PhaseMeaning(o)
  {
  }

  lemma PhaseReadsBack(o: Object)
    requires WellFormedObject(o)
    ensures PhaseItems(PrintObject(o)) == PhaseMeaning(o)
  {
    PropertyReadsBack(o, "number", true);
    PropertyReadsBack(o, "availability", true);
    var number, availability := TextOf(o, "number", true), TextOf(o, "availability", true);
    if number.Ok? {
      DigitWords(number.value);
      if availability.Ok? {
        AvailabilityWords(availability.value);
        if IsNumber(number.value) { UpcomingReadsBack(o, number.value); }
        PhaseFollows(PrintObject(o), o, number.value, availability.value);
      }
    }
  }

  lemma {:induction false} PhasesReadBack(objects: seq<Object>)
    requires WellFormedObjects(objects)
    ensures PhasesItems(PrintEach(objects)) == Meaning(objects)
    decreases |objects|
  {
    if objects != [] {
      var front, last := objects[..|objects| - 1], objects[|objects| - 1];
      ButLast(objects);
      PhasesReadBack(front);
      PhaseReadsBack(last);
      PhasesItemsAppend(PrintEach(front), PrintObject(last));
    }
  }

  // ----- the declaration -----

  const NAME := "export const roadmapPhases"

  /** Text that ends a line and declares no roadmap of its own. */
  ghost predicate Preamble(before: string) {
    && (before == "" || before[|before| - 1] == '\n')
    && (forall i: nat :: i < |before| && BeginsLine(before, i) ==> !At(before, i, NAME))
  }

  ghost predicate BeginsLine(text: string, i: nat) {
    i <= |text| && (i == 0 || text[i - 1] == '\n')
  }

  /** White space after the name, perhaps a type annotation, and white space around the equals sign. */
  datatype Heading = Heading(before: string, annotation: Option<string>, after: string)

  predicate GoodHeading(heading: Heading) {
    && AllSpaces(heading.before) && AllSpaces(heading.after)
    && (heading.annotation.Some? ==> heading.annotation.value != "" && '=' !in heading.annotation.value)
  }

  function Annotation(heading: Heading): string {
    match heading.annotation
    case None => ""
    case Some(annotation) => ":" + annotation
  }

  function Declare(heading: Heading): string {
    NAME + heading.before + (Annotation(heading) + "=" + heading.after)
  }

  lemma {:induction false} FirstEquals(text: string, i: nat, n: nat)
    requires i <= n < |text| && text[n] == '=' && (forall k :: i <= k < n ==> text[k] != '=')
    ensures EqualsFrom(text, i) == n
    decreases n - i
  {
    if i < n {
      FirstEquals(text, i + 1, n);
    }
  }

  lemma AnnotationIsRead(text: string, i: nat, before: string, annotation: string)
    requires AllSpaces(before) && annotation != "" && '=' !in annotation
    requires At(text, i, before) && At(text, i + |before|, ":" + annotation)
    requires var equals := i + |before| + 1 + |annotation|; equals < |text| && text[equals] == '='
    ensures EqualsAfter(text, i) == Some(i + |before| + 1 + |annotation|)
  {
    var colon := i + |before|;
    AtSplits(text, colon, ":", annotation);
    AtChar(text, colon, ":", 0);
    SpacesEnd(text, i, before);
    forall k | colon + 1 <= k < colon + 1 + |annotation| ensures text[k] != '=' {
      AtChar(text, colon + 1, annotation, k - colon - 1);
      assert annotation[k - colon - 1] in annotation;
    }
    FirstEquals(text, colon + 1, colon + 1 + |annotation|);
  }

  lemma EqualsIsRead(text: string, i: nat, heading: Heading)
    requires GoodHeading(heading) && At(text, i, heading.before) && At(text, i + |heading.before|, Annotation(heading))
    requires var equals := i + |heading.before| + |Annotation(heading)|; equals < |text| && text[equals] == '='
    ensures EqualsAfter(text, i) == Some(i + |heading.before| + |Annotation(heading)|)
  {
    match heading.annotation
    case None => SpacesEnd(text, i, heading.before);
    case Some(annotation) => AnnotationIsRead(text, i, heading.before, annotation);
  }

  lemma DeclaredBy(text: string, i: nat, equals: nat, bracket: nat)
    requires LineStart(text, i) && At(text, i, DECLARATION) && EqualsAfter(text, i + |DECLARATION|) == Some(equals)
    requires SpaceEnd(text, equals + 1) == bracket < |text| && text[bracket] == '['
    ensures DeclaredAt(text, i) == Some(bracket)
  {
  }

  /** The pieces of a heading behind the name. */
  lemma HeadingIsRead(text: string, name: nat, heading: Heading, tail: string)
    requires GoodHeading(heading) && tail == Annotation(heading) + "=" + heading.after
    requires At(text, name, heading.before) && At(text, name + |heading.before|, tail)
    requires var bracket := name + |heading.before| + |tail|; bracket < |text| && text[bracket] == '['
    ensures var equals := name + |heading.before| + |Annotation(heading)|;
      EqualsAfter(text, name) == Some(equals) && SpaceEnd(text, equals + 1) == name + |heading.before| + |tail|
  {
    EqualsParts(text, name + |heading.before|, Annotation(heading), heading.after, tail);
    EqualsIsRead(text, name, heading);
    SpacesEnd(text, name + |heading.before| + |Annotation(heading)| + 1, heading.after);
  }

  lemma EqualsParts(text: string, i: nat, before: string, after: string, all: string)
    requires all == before + "=" + after && At(text, i, all)
    ensures At(text, i, before) && At(text, i + |before| + 1, after) && |all| == |before| + 1 + |after|
    ensures i + |before| < |text| && text[i + |before|] == '='
  {
    AtSplitsInThree(text, i, before, "=", after);
    AtChar(text, i + |before|, "=", 0);
  }

  lemma DeclarationStands(text: string, i: nat, heading: Heading)
    requires GoodHeading(heading) && LineStart(text, i) && At(text, i, Declare(heading))
    requires var bracket := i + |Declare(heading)|; bracket < |text| && text[bracket] == '['
    ensures DeclaredAt(text, i) == Some(i + |Declare(heading)|)
  {
    var name, tail := i + |DECLARATION|, Annotation(heading) + "=" + heading.after;
    AtSplitsInThree(text, i, DECLARATION, heading.before, tail);
    HeadingIsRead(text, name, heading, tail);
    DeclaredBy(text, i, name + |heading.before| + |Annotation(heading)|, i + |Declare(heading)|);
  }

  lemma {:induction false} EqualsFromScans(text: string, i: nat)
    requires i <= |text|
    ensures forall k :: i <= k < EqualsFrom(text, i) ==> text[k] != '='
    decreases |text| - i
  {
    if i < |text| && text[i] != '=' { EqualsFromScans(text, i + 1); }
  }

  lemma {:induction false} SpaceEndScans(text: string, i: nat)
    requires i <= |text|
    ensures AllSpaces(text[i..SpaceEnd(text, i)])
    decreases |text| - i
  {
    if i < |text| && IsSpace(text[i]) {
      SpaceEndScans(text, i + 1);
      assert text[i..SpaceEnd(text, i)] == [text[i]] + text[i + 1..SpaceEnd(text, i)];
    }
  }

  lemma AtIsSlice(text: string, i: nat, piece: string)
    requires i + |piece| <= |text| && text[i..i + |piece|] == piece
    ensures At(text, i, piece)
  {
    forall k | 0 <= k < |piece| ensures text[i + k] == piece[k] { assert text[i..i + |piece|][k] == piece[k]; }
  }

  /** The five pieces between the given positions. */
  lemma HeadingIsSlice(text: string, i: nat, name: nat, next: nat, equals: nat, bracket: nat, heading: Heading)
    requires i <= name <= next <= equals < bracket <= |text| && text[equals] == '='
    requires text[i..name] == NAME && heading.before == text[name..next] && Annotation(heading) == text[next..equals]
    requires heading.after == text[equals + 1..bracket]
    ensures At(text, i, Declare(heading)) && i + |Declare(heading)| == bracket
  {
    var tail := text[next..equals] + "=" + text[equals + 1..bracket];
    assert tail == text[next..bracket];
    assert text[i..name] + text[name..next] + tail == text[i..bracket];
    assert Declare(heading) == text[i..name] + text[name..next] + tail;
    AtIsSlice(text, i, Declare(heading));
  }

  lemma NameStands(text: string, i: nat)
    requires At(text, i, DECLARATION)
    ensures i + |NAME| <= |text| && text[i..i + |NAME|] == NAME
  {
    AtSlice(text, i, DECLARATION);
  }

  lemma EqualsStands(text: string, name: nat) returns (annotation: Option<string>)
    requires name <= |text| && EqualsAfter(text, name).Some?
    ensures var next, equals := SpaceEnd(text, name), EqualsAfter(text, name).value;
      && name <= next <= equals < |text| && text[equals] == '=' && AllSpaces(text[name..next])
      && (annotation.Some? ==> annotation.value != "" && '=' !in annotation.value)
      && text[next..equals] == match annotation case None => "" case Some(inner) => ":" + inner
  {
    var next, equals := SpaceEnd(text, name), EqualsAfter(text, name).value;
    SpaceEndScans(text, name);
    if text[next] == '=' {
      annotation := None;
    } else {
      EqualsFromScans(text, next + 1);
      annotation := Some(text[next + 1..equals]);
      assert text[next..equals] == ":" + text[next + 1..equals];
    }
  }

  /** The heading between the positions that the reader has found. */
  lemma HeadingBetween(text: string, i: nat, name: nat, next: nat, equals: nat, bracket: nat,
                       annotation: Option<string>)
      returns (heading: Heading)
    requires i <= name <= next <= equals < bracket <= |text| && text[equals] == '=' && text[i..name] == NAME
    requires AllSpaces(text[name..next]) && AllSpaces(text[equals + 1..bracket])
    requires annotation.Some? ==> annotation.value != "" && '=' !in annotation.value
    requires text[next..equals] == match annotation case None => "" case Some(inner) => ":" + inner
    ensures GoodHeading(heading) && At(text, i, Declare(heading)) && i + |Declare(heading)| == bracket
  {
    heading := Heading(text[name..next], annotation, text[equals + 1..bracket]);
    HeadingIsSlice(text, i, name, next, equals, bracket, heading);
  }

  /** What is read as a declaration is a heading with a bracket behind it. */
  lemma DeclaredIsHeading(text: string, i: nat) returns (heading: Heading)
    requires DeclaredAt(text, i).Some?
    ensures GoodHeading(heading) && BeginsLine(text, i) && At(text, i, Declare(heading))
    ensures DeclaredAt(text, i) == Some(i + |Declare(heading)|) && text[i + |Declare(heading)|] == '['
  {
    NameStands(text, i);
    var bracket, name := DeclaredAt(text, i).value, i + |DECLARATION|;
    var equals := EqualsAfter(text, name).value;
    var annotation := EqualsStands(text, name);
    SpaceEndScans(text, equals + 1);
    heading := HeadingBetween(text, i, name, SpaceEnd(text, name), equals, bracket, annotation);
  }

  /** A heading stands at the beginning of a line, with a bracket behind it. */
  ghost predicate Declares(text: string, i: nat, heading: Heading) {
    && GoodHeading(heading) && BeginsLine(text, i) && At(text, i, Declare(heading))
    && i + |Declare(heading)| < |text| && text[i + |Declare(heading)|] == '['
  }

  /**
   A text declares a roadmap exactly where a line begins with the name, white space, perhaps a type annotation without
   an equals sign, an equals sign, white space and a bracket.
   */
  lemma DeclarationExactly(text: string, i: nat)
    ensures DeclaredAt(text, i).Some? <==> exists heading :: Declares(text, i, heading)
    ensures forall heading :: Declares(text, i, heading) ==> DeclaredAt(text, i) == Some(i + |Declare(heading)|)
  {
    if DeclaredAt(text, i).Some? {
      var heading := DeclaredIsHeading(text, i);
      assert Declares(text, i, heading);
    }
    forall heading | Declares(text, i, heading) ensures DeclaredAt(text, i) == Some(i + |Declare(heading)|) {
      DeclarationStands(text, i, heading);
    }
  }

  /** The first place that declares a roadmap counts. */
  lemma {:induction false} FirstDeclarationCounts(text: string, i: nat)
    requires i <= |text|
    ensures DeclarationFrom(text, i).None? <==> forall k :: i <= k < |text| ==> DeclaredAt(text, k).None?
    ensures DeclarationFrom(text, i).Some? ==>
      exists k :: i <= k < |text| && DeclaredAt(text, k) == DeclarationFrom(text, i) &&
        forall j :: i <= j < k ==> DeclaredAt(text, j).None?
    decreases |text| - i
  {
    if i < |text| && DeclaredAt(text, i).None? {
      FirstDeclarationCounts(text, i + 1);
      assert DeclarationFrom(text, i) == DeclarationFrom(text, i + 1);
      if DeclarationFrom(text, i).Some? {
        var k :| i + 1 <= k < |text| && DeclaredAt(text, k) == DeclarationFrom(text, i) &&
          forall j :: i + 1 <= j < k ==> DeclaredAt(text, j).None?;
        assert forall j :: i <= j < k ==> DeclaredAt(text, j).None?;
      }
    }
  }

  lemma PreambleDeclaresNothing(before: string, rest: string, i: nat)
    requires Preamble(before) && i < |before|
    ensures DeclaredAt(before + rest, i) == None
  {
    var text := before + rest;
    assert '\n' !in DECLARATION;
    assert text[|before| - 1] == '\n';
    assert LineStart(text, i) ==> BeginsLine(before, i);
    if At(text, i, DECLARATION) {
      if i + |DECLARATION| <= |before| {
        assert At(before, i, DECLARATION);
      } else {
        AtChar(text, i, DECLARATION, |before| - 1 - i);
      }
    }
  }

  lemma {:induction false} PreambleIsSkipped(before: string, rest: string, i: nat)
    requires Preamble(before) && i <= |before|
    ensures DeclarationFrom(before + rest, i) == DeclarationFrom(before + rest, |before|)
    decreases |before| - i
  {
    if i < |before| {
      PreambleDeclaresNothing(before, rest, i);
      PreambleIsSkipped(before, rest, i + 1);
    }
  }

  // ----- the round trip -----

  /** A text that declares these phases: anything without a declaration before, anything at all behind. */
  function Document(before: string, heading: Heading, lead: Gap, objects: seq<Object>, after: string): string {
    before + (Declare(heading) + PrintValue(Array(lead, objects)) + after)
  }

  lemma AtMiddle(a: string, b: string, c: string)
    ensures At(a + (b + c), |a|, b)
  {
    forall k | 0 <= k < |b| ensures (a + (b + c))[|a| + k] == b[k] {}
  }

  lemma Placed(text: string, before: string, head: string, printed: string, after: string)
    requires text == before + (head + printed + after) && printed != ""
    ensures At(text, |before|, head) && At(text, |before| + |head|, printed)
    ensures text[|before| + |head|] == printed[0]
  {
    AtMiddle(before, head, printed + after);
    assert text == before + (head + (printed + after));
    AtMiddle(before + head, printed, after);
    assert text == (before + head) + (printed + after);
    AtChar(text, |before| + |head|, printed, 0);
  }

  lemma DeclarationHere(text: string, i: nat, bracket: nat)
    requires i < |text| && DeclaredAt(text, i) == Some(bracket)
    ensures DeclarationFrom(text, i) == Some(bracket)
  {
  }

  /** A heading at the start of a line, with a bracket behind it, is the declaration from there on. */
  lemma HeadStands(text: string, i: nat, heading: Heading, head: string)
    requires GoodHeading(heading) && head == Declare(heading) && LineStart(text, i) && At(text, i, head)
    requires i + |head| < |text| && text[i + |head|] == '['
    ensures DeclarationFrom(text, i) == Some(i + |head|)
  {
    DeclarationStands(text, i, heading);
    DeclarationHere(text, i, i + |head|);
  }

  lemma LineStartsBehind(before: string, rest: string)
    requires Preamble(before)
    ensures LineStart(before + rest, |before|)
  {
  }

  lemma HeadBehindPreamble(before: string, rest: string, heading: Heading, head: string)
    requires Preamble(before) && GoodHeading(heading) && head == Declare(heading)
    requires At(before + rest, |before|, head)
    requires |before| + |head| < |before + rest| && (before + rest)[|before| + |head|] == '['
    ensures DeclarationFrom(before + rest, 0) == Some(|before| + |head|)
  {
    LineStartsBehind(before, rest);
    HeadStands(before + rest, |before|, heading, head);
    PreambleIsSkipped(before, rest, 0);
  }

  lemma DeclarationIsFound(text: string, before: string, heading: Heading, head: string, printed: string, after: string)
    requires Preamble(before) && GoodHeading(heading) && head == Declare(heading) && printed != "" && printed[0] == '['
    requires text == before + (head + printed + after)
    ensures DeclarationFrom(text, 0) == Some(|before| + |head|) && At(text, |before| + |head|, printed)
  {
    Placed(text, before, head, printed, after);
    HeadBehindPreamble(before, head + printed + after, heading, head);
  }

  lemma DeclaredMeaning(text: string, bracket: nat, lead: Gap, objects: seq<Object>, printed: string)
    requires GoodGap(lead) && WellFormedObjects(objects) && printed == PrintValue(Array(lead, objects))
    requires DeclarationFrom(text, 0) == Some(bracket) && At(text, bracket, printed)
    ensures OpenItemsOf(text) == Meaning(objects)
  {
    ArrayReadsBack(text, bracket, lead, objects);
    PhasesReadBack(objects);
  }

  lemma ArrayPrints(lead: Gap, objects: seq<Object>)
    ensures PrintValue(Array(lead, objects)) != "" && PrintValue(Array(lead, objects))[0] == '['
  {
    assert PrintValue(Array(lead, objects)) == "[" + (PrintGap(lead) + PrintObjects(objects)) + "]";
  }

  lemma DocumentBracket(before: string, heading: Heading, lead: Gap, objects: seq<Object>, after: string)
      returns (bracket: nat)
    requires Preamble(before) && GoodHeading(heading)
    ensures DeclarationFrom(Document(before, heading, lead, objects, after), 0) == Some(bracket)
    ensures At(Document(before, heading, lead, objects, after), bracket, PrintValue(Array(lead, objects)))
  {
    bracket := |before| + |Declare(heading)|;
    ArrayPrints(lead, objects);
    DeclarationIsFound(Document(before, heading, lead, objects, after), before, heading, Declare(heading),
      PrintValue(Array(lead, objects)), after);
  }

  /**
   Whatever roadmap is printed, in whatever layout and with whatever text around it, reading it gives the meaning of
   what was printed: the same open items in the same order, or the same error.
   */
  lemma RoadmapReadsBack(before: string, heading: Heading, lead: Gap, objects: seq<Object>, after: string)
    requires Preamble(before) && GoodHeading(heading) && GoodGap(lead) && WellFormedObjects(objects)
    ensures OpenItemsOf(Document(before, heading, lead, objects, after)) == Meaning(objects)
  {
    var bracket := DocumentBracket(before, heading, lead, objects, after);
    DeclaredMeaning(Document(before, heading, lead, objects, after), bracket, lead, objects,
      PrintValue(Array(lead, objects)));
  }

  // ----- well-formed roadmaps -----

  datatype Item = Item(caption: string, state: string, status: string)

  datatype Phase = Phase(number: nat, availability: string, items: seq<Item>)

  predicate ValidPhase(phase: Phase) {
    phase.availability in AVAILABILITIES && forall item <- phase.items :: item.state in STATES
  }

  /**
   The object writes the item: any order, any spelling, further properties allowed, an empty status may be left out.
   */
  predicate WritesItem(o: Object, item: Item) {
    && TextOf(o, "label", true) == Ok(item.caption) && TextOf(o, "state", true) == Ok(item.state)
    && TextOf(o, "status", false) == Ok(item.status)
  }

  predicate WritesItems(objects: seq<Object>, items: seq<Item>) {
    |objects| == |items| && forall k :: 0 <= k < |items| ==> WritesItem(objects[k], items[k])
  }

  predicate WritesPhase(o: Object, phase: Phase) {
    && TextOf(o, "number", true).Ok? && Spells(TextOf(o, "number", true).value, phase.number)
    && TextOf(o, "availability", true) == Ok(phase.availability)
    && Lookup(o.fields, "items").Some? && Lookup(o.fields, "items").value.Array?
    && WritesItems(Lookup(o.fields, "items").value.objects, phase.items)
  }

  predicate WritesPhases(objects: seq<Object>, phases: seq<Phase>) {
    |objects| == |phases| && forall k :: 0 <= k < |phases| ==> WritesPhase(objects[k], phases[k])
  }

  /** The unfinished items of one phase, in order. */
  function Unfinished(phase: nat, items: seq<Item>): seq<OpenItem> {
    if items == [] then []
    else
      var last := items[|items| - 1];
      Unfinished(phase, items[..|items| - 1]) +
      if last.state !in OPEN_STATES then [] else [OpenItem(phase, last.caption, last.state, last.status)]
  }

  /** The unfinished items of the upcoming phases, in order. */
  function Expected(phases: seq<Phase>): seq<OpenItem>
    requires forall phase <- phases :: ValidPhase(phase)
  {
    if phases == [] then []
    else
      var last := phases[|phases| - 1];
      assert ValidPhase(last);
      Expected(phases[..|phases| - 1]) +
      if last.availability == "upcoming" then Unfinished(last.number, last.items) else []
  }

  lemma {:induction false} ItemsMean(phase: nat, objects: seq<Object>, items: seq<Item>)
    requires WritesItems(objects, items) && forall item <- items :: item.state in STATES
    ensures ItemsMeaning(phase, objects) == Ok(Unfinished(phase, items))
  {
    if items != [] {
      var n := |items| - 1;
      ItemsMean(phase, objects[..n], items[..n]);
      assert WritesItem(objects[n], items[n]) && items[n] in items;
    }
  }

  lemma SpelledNumber(text: string, n: nat)
    requires Spells(text, n)
    ensures OnlyDigits(text) && AllDigits(text) && Number(text) == n
  {
    var zeros: nat :| zeros <= |text| && text == Zeros(zeros) + Digits(n);
    NumberOfDigits(n);
    NumberOfPadded(zeros, Digits(n));
    DigitWords(text);
  }

  lemma PhaseMeans(o: Object, phase: Phase)
    requires WritesPhase(o, phase) && ValidPhase(phase)
    ensures PhaseMeaning(o) ==
      Ok(if phase.availability == "upcoming" then Unfinished(phase.number, phase.items) else [])
  {
    SpelledNumber(TextOf(o, "number", true).value, phase.number);
    ItemsMean(phase.number, Lookup(o.fields, "items").value.objects, phase.items);
  }

  lemma {:induction false} PhasesMean(objects: seq<Object>, phases: seq<Phase>)
    requires WritesPhases(objects, phases) && forall phase <- phases :: ValidPhase(phase)
    ensures Meaning(objects) == Ok(Expected(phases))
  {
    if phases != [] {
      var n := |phases| - 1;
      PhasesMean(objects[..n], phases[..n]);
      assert WritesPhase(objects[n], phases[n]) && phases[n] in phases;
      PhaseMeans(objects[n], phases[n]);
    }
  }

  /**
   Whatever text writes a list of phases and items, in any layout and spelling, reading it returns exactly the
   unfinished items of the upcoming phases, in order, with arbitrary labels and statuses unchanged.
   */
  lemma RoundTrip(before: string, heading: Heading, lead: Gap, objects: seq<Object>, after: string, phases: seq<Phase>)
    requires Preamble(before) && GoodHeading(heading) && GoodGap(lead) && WellFormedObjects(objects)
    requires WritesPhases(objects, phases) && (forall phase <- phases :: ValidPhase(phase))
    ensures OpenItemsOf(Document(before, heading, lead, objects, after)) == Ok(Expected(phases))
  {
    PhasesMean(objects, phases);
    RoadmapReadsBack(before, heading, lead, objects, after);
  }
}
