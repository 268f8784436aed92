/** Every list of phases and items can be written: one printer, with strings escaped as in section 7 of RFC 8259. */
module RoadmapPrinter {
  import opened Wrappers
  import opened Decimals
  import opened JsonStrings
  import opened Roadmap
  import opened RoadmapSyntax
  import opened RoadmapScanning
  import opened RoadmapRoundTrip

  function Separator(): Gap {
    [Comma, Blank('\n')]
  }

  function TextField(name: string, content: string): Field {
    Field(name, "", " ", Text(Escape(content)), Separator())
  }

  /** An empty status is left out. */
  function StatusFields(status: string): seq<Field> {
    if status == "" then [] else [TextField("status", status)]
  }

  function ItemObject(item: Item): Object {
    Object([], [TextField("label", item.caption)] + ([TextField("state", item.state)] + StatusFields(item.status)),
      Separator())
  }

  function ItemObjects(items: seq<Item>): (objects: seq<Object>)
    ensures |objects| == |items| && forall k :: 0 <= k < |items| ==> objects[k] == ItemObject(items[k])
  {
    seq(|items|, k requires 0 <= k < |items| => ItemObject(items[k]))
  }

  function ItemsField(items: seq<Item>): Field {
    Field("items", "", " ", Array([], ItemObjects(items)), Separator())
  }

  function PhaseObject(phase: Phase): Object {
    Object([],
           [TextField("number", Digits(phase.number))] +
             ([TextField("availability", phase.availability)] + ([ItemsField(phase.items)] + [])),
           Separator())
  }

  function PhaseObjects(phases: seq<Phase>): (objects: seq<Object>)
    ensures |objects| == |phases| && forall k :: 0 <= k < |phases| ==> objects[k] == PhaseObject(phases[k])
  {
    seq(|phases|, k requires 0 <= k < |phases| => PhaseObject(phases[k]))
  }

  lemma NamesAreNames()
    ensures IsName("label") && IsName("state") && IsName("status")
    ensures IsName("number") && IsName("availability") && IsName("items")
  {}

  lemma FirstField(field: Field, rest: seq<Field>)
    ensures WellFormedFields([field] + rest) <==> WellFormedField(field) && WellFormedFields(rest)
    ensures forall name: string ::
      Lookup([field] + rest, name) == if field.name == name then Some(field.value) else Lookup(rest, name)
  {
    assert ([field] + rest)[1..] == rest;
  }

  lemma TextFieldIsWellFormed(name: string, content: string)
    requires IsName(name)
    ensures WellFormedField(TextField(name, content)) && Decode(Escape(content)) == Some(content)
  {
    EscapeIsContained(content);
    DecodeEscape(content);
  }

  lemma ItemIsWritten(item: Item)
    ensures WellFormedObject(ItemObject(item)) && WritesItem(ItemObject(item), item)
  {
    NamesAreNames();
    TextFieldIsWellFormed("label", item.caption);
    TextFieldIsWellFormed("state", item.state);
    TextFieldIsWellFormed("status", item.status);
    FirstField(TextField("status", item.status), []);
    FirstField(TextField("state", item.state), StatusFields(item.status));
    FirstField(TextField("label", item.caption), [TextField("state", item.state)] + StatusFields(item.status));
    assert [TextField("status", item.status)] + [] == [TextField("status", item.status)];
  }

  lemma {:induction false} EachWellFormed(objects: seq<Object>)
    requires forall k :: 0 <= k < |objects| ==> WellFormedObject(objects[k])
    ensures WellFormedObjects(objects)
    decreases |objects|
  {
    if objects != [] {
      EachWellFormed(objects[1..]);
    }
  }

  lemma ItemsAreWritten(items: seq<Item>)
    ensures WellFormedField(ItemsField(items)) && WritesItems(ItemObjects(items), items)
  {
    forall k | 0 <= k < |items|
      ensures WellFormedObject(ItemObjects(items)[k]) && WritesItem(ItemObjects(items)[k], items[k])
    {
      ItemIsWritten(items[k]);
    }
    EachWellFormed(ItemObjects(items));
    NamesAreNames();
  }

  lemma SpellsItself(n: nat)
    ensures Spells(Digits(n), n)
  {
    assert Digits(n) == Zeros(0) + Digits(n);
  }

  lemma PhaseIsWritten(phase: Phase)
    ensures WellFormedObject(PhaseObject(phase)) && WritesPhase(PhaseObject(phase), phase)
  {
    NamesAreNames();
    TextFieldIsWellFormed("number", Digits(phase.number));
    SpellsItself(phase.number);
    TextFieldIsWellFormed("availability", phase.availability);
    ItemsAreWritten(phase.items);
    FirstField(ItemsField(phase.items), []);
    FirstField(TextField("availability", phase.availability), [ItemsField(phase.items)] + []);
    FirstField(TextField("number", Digits(phase.number)),
      [TextField("availability", phase.availability)] + ([ItemsField(phase.items)] + []));
  }

  /** Printing any list of phases and reading it back returns exactly its unfinished items of upcoming phases. */
  lemma PrintedRoundTrip(phases: seq<Phase>)
    requires forall phase <- phases :: ValidPhase(phase)
    ensures OpenItemsOf(Document("", Heading(" ", None, " "), [], PhaseObjects(phases), ";\n")) == Ok(Expected(phases))
  {
    var objects := PhaseObjects(phases);
    forall k | 0 <= k < |phases| ensures WellFormedObject(objects[k]) && WritesPhase(objects[k], phases[k]) {
      PhaseIsWritten(phases[k]);
    }
    EachWellFormed(objects);
    RoundTrip("", Heading(" ", None, " "), [], objects, ";\n", phases);
  }
}
