/**
 Reading the unfinished items of the product roadmap out of TypeScript text without evaluating it
 (scripts/fanmind_next_best_action.py, `_ts_string_property` and `product_roadmap_open_items`).
 */
module Roadmap {
  import opened Wrappers
  import opened Decimals
  import opened JsonStrings
  import opened TsLexer

  datatype RoadmapError =
    | DeclarationMissing
    | LiteralInvalid(error: LexError)
    | PropertyMissing(name: string)
    | PropertyNotString(name: string)
    | PropertyUnterminated(name: string)
    | JsonInvalid
    | PhaseNumberInvalid(number: string)
    | AvailabilityInvalid(availability: string)
    | ItemsMissing(number: string)
    | ItemsNotArray(number: string)
    | StateInvalid(state: string)

  /** `caption` is the property `label`, whose name Dafny reserves. */
  datatype OpenItem = OpenItem(phase: nat, caption: string, state: string, status: string)

  // ----- the declaration -----

  const DECLARATION := "export const roadmapPhases"

  predicate LineStart(text: string, i: nat) {
    i <= |text| && (i == 0 || text[i - 1] == '\n')
  }

  function EqualsFrom(text: string, i: nat): (end: nat)
    requires i <= |text|
    ensures i <= end <= |text| && (end < |text| ==> text[end] == '=')
    decreases |text| - i
  {
    if i < |text| && text[i] != '=' then EqualsFrom(text, i + 1) else i
  }

  /** Where the equals sign stands that follows the optional type annotation after `i`. */
  function EqualsAfter(text: string, i: nat): (found: Option<nat>)
    requires i <= |text|
    ensures found.Some? ==> i <= found.value < |text|
  {
    var next := SpaceEnd(text, i);
    if next == |text| then None
    else if text[next] == '=' then Some(next)
    else if text[next] != ':' then None
    else
      var end := EqualsFrom(text, next + 1);
      if next + 1 < end < |text| then Some(end) else None
  }

  /** The opening bracket of the array when the declaration stands at `i`. */
  function DeclaredAt(text: string, i: nat): (bracket: Option<nat>)
    ensures bracket.Some? ==> bracket.value < |text| && text[bracket.value] == '['
  {
    if !LineStart(text, i) || !At(text, i, DECLARATION) then None
    else
      match EqualsAfter(text, i + |DECLARATION|)
      case None => None
      case Some(equals) =>
        var bracket := SpaceEnd(text, equals + 1);
        if bracket < |text| && text[bracket] == '[' then Some(bracket) else None
  }

  /** The first match from `i` on of `^export const roadmapPhases(?:\s*:[^=]+)?\s*=\s*\[`. */
  function DeclarationFrom(text: string, i: nat): (bracket: Option<nat>)
    requires i <= |text|
    ensures bracket.Some? ==> bracket.value < |text| && text[bracket.value] == '['
    decreases |text| - i
  {
    if i == |text| then None
    else if DeclaredAt(text, i).Some? then DeclaredAt(text, i)
    else DeclarationFrom(text, i + 1)
  }

  // ----- string properties -----

  /** The property value that starts at `start`. */
  function StringAt(block: string, start: nat, name: string): Result<string, RoadmapError> {
    if start >= |block| || block[start] != '"' then Err(PropertyNotString(name))
    else
      match ClosingQuote(block, start + 1, false)
      case None => Err(PropertyUnterminated(name))
      case Some(end) =>
        match Decode(block[start + 1..end - 1])
        case None => Err(JsonInvalid)
        case Some(value) => Ok(value)
  }

  function PropertyOf(block: string, name: string, required: bool): Result<string, RoadmapError> {
    match PropertyFrom(block, 0, Code, 0, 0, name)
    case None => if required then Err(PropertyMissing(name)) else Ok("")
    case Some(start) => StringAt(block, start, name)
  }

  method StringProperty(block: string, name: string, required: bool) returns (value: Result<string, RoadmapError>)
    ensures value == PropertyOf(block, name, required)
  {
    var start := PropertyValueStart(block, name);
    if start.None? {
      return if required then Err(PropertyMissing(name)) else Ok("");
    }
    if start.value >= |block| || block[start.value] != '"' {
      return Err(PropertyNotString(name));
    }
    var index, escaped := start.value + 1, false;
    while index < |block|
      invariant start.value < index <= |block|
      invariant ClosingQuote(block, start.value + 1, false) == ClosingQuote(block, index, escaped)
    {
      var c := block[index];
      if escaped {
        escaped := false;
      } else if c == '\\' {
        escaped := true;
      } else if c == '"' {
        var decoded := Decode(block[start.value + 1..index]);
        return if decoded.Some? then Ok(decoded.value) else Err(JsonInvalid);
      }
      index := index + 1;
    }
    value := Err(PropertyUnterminated(name));
  }

  // ----- items and phases -----

  /** What stands between the brackets of a literal. */
  function Inner(literal: string): string {
    if |literal| >= 2 then literal[1..|literal| - 1] else ""
  }

  predicate IsNumber(text: string) { text != "" && AllDigits(text) }

  predicate KnownAvailability(text: string) { text == "done" || text == "upcoming" || text == "later" }

  predicate KnownState(text: string) {
    text == "done" || text == "progress" || text == "partial" || text == "planned" || text == "later"
  }

  predicate Finished(state: string) { state == "done" || state == "later" }

  function Described(phase: nat, state: string, block: string): Result<seq<OpenItem>, RoadmapError> {
    match PropertyOf(block, "label", true)
    case Err(error) => Err(error)
    case Ok(caption) =>
      match PropertyOf(block, "status", false)
      case Err(error) => Err(error)
      case Ok(status) => Ok([OpenItem(phase, caption, state, status)])
  }

  /** The open item in one block, if it holds one. */
  function ItemOf(phase: nat, block: string): Result<seq<OpenItem>, RoadmapError> {
    match PropertyOf(block, "state", true)
    case Err(error) => Err(error)
    case Ok(state) =>
      if !KnownState(state) then Err(StateInvalid(state))
      else if Finished(state) then Ok([])
      else Described(phase, state, block)
  }

  function Joined(first: Result<seq<OpenItem>, RoadmapError>, second: Result<seq<OpenItem>,
                  RoadmapError>): Result<seq<OpenItem>, RoadmapError>
  {
    if first.Err? then first
    else if second.Err? then second
    else Ok(first.value + second.value)
  }

  function ItemsOf(phase: nat, blocks: seq<string>): Result<seq<OpenItem>, RoadmapError> {
    if blocks == [] then Ok([])
    else Joined(ItemsOf(phase, blocks[..|blocks| - 1]), ItemOf(phase, blocks[|blocks| - 1]))
  }

  function ObjectsIn(literal: Result<string, LexError>): Result<seq<string>, LexError> {
    match literal
    case Err(error) => Err(error)
    case Ok(text) => Objects(Inner(text))
  }

  /** The open items of an upcoming phase. */
  function UpcomingItems(number: string, block: string): Result<seq<OpenItem>, RoadmapError>
    requires IsNumber(number)
  {
    match PropertyFrom(block, 0, Code, 0, 0, "items")
    case None => Err(ItemsMissing(number))
    case Some(start) =>
      if start >= |block| || block[start] != '[' then Err(ItemsNotArray(number))
      else
        match ObjectsIn(Balanced(block, start, '[', ']'))
        case Err(error) => Err(LiteralInvalid(error))
        case Ok(blocks) => ItemsOf(Number(number), blocks)
  }

  function PhaseItems(block: string): Result<seq<OpenItem>, RoadmapError> {
    match PropertyOf(block, "number", true)
    case Err(error) => Err(error)
    case Ok(number) =>
      match PropertyOf(block, "availability", true)
      case Err(error) => Err(error)
      case Ok(availability) =>
        if !IsNumber(number) then Err(PhaseNumberInvalid(number))
        else if !KnownAvailability(availability) then Err(AvailabilityInvalid(availability))
        else if availability != "upcoming" then Ok([])
        else UpcomingItems(number, block)
  }

  function PhasesItems(blocks: seq<string>): Result<seq<OpenItem>, RoadmapError> {
    if blocks == [] then Ok([])
    else Joined(PhasesItems(blocks[..|blocks| - 1]), PhaseItems(blocks[|blocks| - 1]))
  }

  /** What the whole text says is open. */
  function OpenItemsOf(text: string): Result<seq<OpenItem>, RoadmapError> {
    match DeclarationFrom(text, 0)
    case None => Err(DeclarationMissing)
    case Some(bracket) =>
      match ObjectsIn(Balanced(text, bracket, '[', ']'))
      case Err(error) => Err(LiteralInvalid(error))
      case Ok(blocks) => PhasesItems(blocks)
  }

  // ----- the loops -----

  lemma {:induction false} ItemErrorStops(phase: nat, blocks: seq<string>, i: nat)
    requires i <= |blocks| && ItemsOf(phase, blocks[..i]).Err?
    ensures ItemsOf(phase, blocks) == ItemsOf(phase, blocks[..i])
  {
    if i < |blocks| {
      assert blocks[..|blocks| - 1][..i] == blocks[..i];
      ItemErrorStops(phase, blocks[..|blocks| - 1], i);
    } else {
      assert blocks[..i] == blocks;
    }
  }

  lemma {:induction false} PhaseErrorStops(blocks: seq<string>, i: nat)
    requires i <= |blocks| && PhasesItems(blocks[..i]).Err?
    ensures PhasesItems(blocks) == PhasesItems(blocks[..i])
  {
    if i < |blocks| {
      assert blocks[..|blocks| - 1][..i] == blocks[..i];
      PhaseErrorStops(blocks[..|blocks| - 1], i);
    } else {
      assert blocks[..i] == blocks;
    }
  }

  lemma ItemsExtend(phase: nat, blocks: seq<string>, i: nat)
    requires i < |blocks|
    ensures ItemsOf(phase, blocks[..i + 1]) == Joined(ItemsOf(phase, blocks[..i]), ItemOf(phase, blocks[i]))
  {
    assert blocks[..i + 1][..i] == blocks[..i];
  }

  lemma PhasesExtend(blocks: seq<string>, i: nat)
    requires i < |blocks|
    ensures PhasesItems(blocks[..i + 1]) == Joined(PhasesItems(blocks[..i]), PhaseItems(blocks[i]))
  {
    assert blocks[..i + 1][..i] == blocks[..i];
  }

  /** One turn of the inner loop. */
  method ReadItem(phase: nat, block: string) returns (item: Result<seq<OpenItem>, RoadmapError>)
    ensures item == ItemOf(phase, block)
  {
    var state := StringProperty(block, "state", true);
    if state.Err? {
      return Err(state.error);
    }
    if !KnownState(state.value) {
      return Err(StateInvalid(state.value));
    }
    if Finished(state.value) {
      return Ok([]);
    }
    var caption := StringProperty(block, "label", true);
    if caption.Err? {
      return Err(caption.error);
    }
    var status := StringProperty(block, "status", false);
    if status.Err? {
      return Err(status.error);
    }
    item := Ok([OpenItem(phase, caption.value, state.value, status.value)]);
  }

  /** The inner loop. */
  method ReadItems(phase: nat, blocks: seq<string>) returns (items: Result<seq<OpenItem>, RoadmapError>)
    ensures items == ItemsOf(phase, blocks)
  {
    var found: seq<OpenItem> := [];
    for i := 0 to |blocks|
      invariant ItemsOf(phase, blocks[..i]) == Ok(found)
    {
      var item := ReadItem(phase, blocks[i]);
      ItemsExtend(phase, blocks, i);
      if item.Err? {
        ItemErrorStops(phase, blocks, i + 1);
        return item;
      }
      found := found + item.value;
    }
    assert blocks[..|blocks|] == blocks;
    items := Ok(found);
  }

  /** One turn of the outer loop. */
  method ReadPhase(block: string) returns (items: Result<seq<OpenItem>, RoadmapError>)
    ensures items == PhaseItems(block)
  {
    var number := StringProperty(block, "number", true);
    if number.Err? {
      return Err(number.error);
    }
    var availability := StringProperty(block, "availability", true);
    if availability.Err? {
      return Err(availability.error);
    }
    if !IsNumber(number.value) {
      return Err(PhaseNumberInvalid(number.value));
    }
    if !KnownAvailability(availability.value) {
      return Err(AvailabilityInvalid(availability.value));
    }
    if availability.value != "upcoming" {
      return Ok([]);
    }
    var start := PropertyValueStart(block, "items");
    if start.None? {
      return Err(ItemsMissing(number.value));
    }
    if start.value >= |block| || block[start.value] != '[' {
      return Err(ItemsNotArray(number.value));
    }
    var literal := BalancedLiteral(block, start.value, '[', ']');
    if literal.Err? {
      return Err(LiteralInvalid(literal.error));
    }
    var blocks := TopLevelObjects(Inner(literal.value));
    if blocks.Err? {
      return Err(LiteralInvalid(blocks.error));
    }
    items := ReadItems(Number(number.value), blocks.value);
  }

  method ProductRoadmapOpenItems(text: string) returns (items: Result<seq<OpenItem>, RoadmapError>)
    ensures items == OpenItemsOf(text)
  {
    var bracket := DeclarationFrom(text, 0);
    if bracket.None? {
      return Err(DeclarationMissing);
    }
    var literal := BalancedLiteral(text, bracket.value, '[', ']');
    if literal.Err? {
      return Err(LiteralInvalid(literal.error));
    }
    var blocks := TopLevelObjects(Inner(literal.value));
    if blocks.Err? {
      return Err(LiteralInvalid(blocks.error));
    }
    var found: seq<OpenItem> := [];
    for i := 0 to |blocks.value|
      invariant PhasesItems(blocks.value[..i]) == Ok(found)
    {
      var phase := ReadPhase(blocks.value[i]);
      PhasesExtend(blocks.value, i);
      if phase.Err? {
        PhaseErrorStops(blocks.value, i + 1);
        return phase;
      }
      found := found + phase.value;
    }
    assert blocks.value[..|blocks.value|] == blocks.value;
    items := Ok(found);
  }
}
