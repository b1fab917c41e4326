// The text wire format of a value container: how it is printed, parsed
// eagerly, and indexed without parsing.
module TextContainers {
  import opened Outcomes
  import opened TextScan

  datatype Header = Header(targetId: string, targetSub: string, sourceId: string, sourceSub: string,
                           messageType: string, version: string)

  // A value as the text shows it; the type is a word.
  datatype Unit = Unit(name: string, typ: string, text: string)

  const DATA_CONTAINER := "data_container"

  // After initialize().
  const BLANK := Header("", "", "", "", DATA_CONTAINER, "1.0")

  // ---- Printing ----

  // A numbered header field.
  datatype Field = Field(key: string, text: string)

  function Fields(h: Header): seq<Field> {
    (if h.messageType == DATA_CONTAINER then []
     else [Field("1", h.targetId), Field("2", h.targetSub), Field("3", h.sourceId), Field("4", h.sourceSub)]) +
    [Field("5", h.messageType), Field("6", h.version)]
  }

  function PairText(f: Field): string {
    "[" + f.key + "," + f.text + "];"
  }

  function PairsText(fs: seq<Field>): string {
    if fs == [] then "" else PairText(fs[0]) + PairsText(fs[1..])
  }

  function HeaderText(h: Header): string {
    PairsText(Fields(h))
  }

  function UnitText(u: Unit): string {
    "[" + u.name + "," + u.typ + "," + u.text + "];"
  }

  function Body(us: seq<Unit>): string {
    if us == [] then "" else UnitText(us[0]) + Body(us[1..])
  }

  function DataText(us: seq<Unit>): string {
    "@data={{" + Body(us) + "}};"
  }

  function Print(h: Header, data: string): string {
    "@header={{" + HeaderText(h) + "}};" + data
  }

  // ---- What parsing computes, on any text ----

  function TrimLeft(s: string): string {
    if s != "" && s[0] == ' ' then TrimLeft(s[1..]) else s
  }

  function TrimRight(s: string): string {
    if s != "" && s[|s| - 1] == ' ' then TrimRight(s[..|s| - 1]) else s
  }

  // parsing(): a field with blanks at its ends removed.
  function Trim(s: string): string {
    TrimRight(TrimLeft(s))
  }

  function SetField(h: Header, key: string, v: string): Header {
    if key == "1" then h.(targetId := Trim(v))
    else if key == "2" then h.(targetSub := Trim(v))
    else if key == "3" then h.(sourceId := Trim(v))
    else if key == "4" then h.(sourceSub := Trim(v))
    else if key == "5" then h.(messageType := Trim(v))
    else if key == "6" then h.(version := Trim(v))
    else h
  }

  // The fields set by the pairs found in s from position at on.
  function SetFields(h: Header, s: string): Header
    decreases |s|
  {
    match PairHere(s)
    case Some(p) => SetFields(SetField(h, s[1..1 + p.key], s[p.start..p.start + p.len]), s[p.end..])
    case None => if s == "" then h else SetFields(h, s[1..])
  }

  function ParseHeader(clean: string): Header {
    match FindBlock("@header=", clean)
    case None => BLANK
    case Some(f) => SetFields(BLANK, clean[f.at + f.block.start..f.at + f.block.start + f.block.len])
  }

  // The data section as it stands in the text.
  function DataSection(clean: string): Option<string> {
    match FindBlock("@data=", clean)
    case None => None
    case Some(f) => Some(clean[f.at..f.at + f.block.end])
  }

  function Units(s: string): seq<Unit>
    decreases |s|
  {
    match ItemHere(s)
    case Some(i) =>
      [Unit(s[1..1 + i.name], s[i.typeStart..i.typeStart + i.typ], s[i.start..i.start + i.len])] + Units(s[i.end..])
    case None => if s == "" then [] else Units(s[1..])
  }

  // The first value called key, as get(key) returns it.
  function Lookup(us: seq<Unit>, key: string): Option<string> {
    if us == [] then None else if us[0].name == key then Some(us[0].text) else Lookup(us[1..], key)
  }

  // An index entry: the name and where the value lies in the raw text.
  datatype IndexEntry = IndexEntry(name: string, typ: string, offset: nat, length: nat)

  // The offset is counted as if no space followed the commas.
  function Index(inside: string, dataStart: nat): seq<IndexEntry>
    decreases |inside|
  {
    match ItemHere(inside)
    case Some(i) =>
      [IndexEntry(inside[1..1 + i.name], inside[i.typeStart..i.typeStart + i.typ],
                  dataStart + 1 + i.name + 1 + i.typ + 1, i.len)] + Index(inside[i.end..], dataStart + i.end)
    case None => if inside == "" then [] else Index(inside[1..], dataStart + 1)
  }

  function RawIndex(raw: string): seq<IndexEntry> {
    match FindBlock("@data=", raw)
    case None => []
    case Some(f) =>
      Index(raw[f.at + f.block.start..f.at + f.block.start + f.block.len], f.at + f.block.start)
  }

  predicate Inside(raw: string, ix: seq<IndexEntry>) {
    forall e :: e in ix ==> e.offset + e.length <= |raw|
  }

  // The first entry called key, as the text its view shows.
  function ViewOf(raw: string, ix: seq<IndexEntry>, key: string): Option<string>
    requires Inside(raw, ix)
  {
    if ix == [] then None
    else if ix[0].name == key then
      assert ix[0] in ix;
      Some(raw[ix[0].offset..ix[0].offset + ix[0].length])
    else ViewOf(raw, ix[1..], key)
  }

  // Every view lies in the text it was built over, whatever the text is.
  lemma {:induction false} IndexInside(raw: string, inside: string, start: nat)
    requires start + |inside| <= |raw|
    ensures Inside(raw, Index(inside, start))
    decreases |inside|
  {
    hide ItemHere;
    match ItemHere(inside)
    case Some(i) =>
      IndexInside(raw, inside[i.end..], start + i.end);
    case None =>
      if inside != "" {
        IndexInside(raw, inside[1..], start + 1);
      }
  }

  lemma {:induction false} RawIndexInside(raw: string)
    ensures Inside(raw, RawIndex(raw))
  {
    hide FindBlock, Index;
    match FindBlock("@data=", raw)
    case None =>
    case Some(f) =>
      IndexInside(raw, raw[f.at + f.block.start..f.at + f.block.start + f.block.len], f.at + f.block.start);
  }

  lemma {:induction false} UnitsUnfold(s: string)
    requires s != ""
    ensures Units(s) == match ItemHere(s)
            case Some(i) => [Unit(s[1..1 + i.name], s[i.typeStart..i.typeStart + i.typ], s[i.start..i.start + i.len])] + Units(s[i.end..])
            case None => Units(s[1..])
  {
  }

  lemma {:induction false} IndexUnfold(s: string, start: nat)
    requires s != ""
    ensures Index(s, start) == match ItemHere(s)
            case Some(i) =>
              [IndexEntry(s[1..1 + i.name], s[i.typeStart..i.typeStart + i.typ], start + 1 + i.name + 1 + i.typ + 1, i.len)]
              + Index(s[i.end..], start + i.end)
            case None => Index(s[1..], start + 1)
  {
  }

  lemma {:induction false} NoIndex(start: nat)
    ensures Index("", start) == []
  {
  }

  // ---- A container ----

  // data is the section as parsed; it stands for the units until they are
  // parsed too.
  datatype State = State(header: Header, units: seq<Unit>, data: string, parsed: bool, changed: bool)

  // The data section of a container without values.
  const NO_DATA := "@data={{}};"

  // initialize()
  const CLEARED := State(BLANK, [], NO_DATA, true, false)

  // deserialize_values: the state after it, and what it returns.
  function ParseValues(st: State, text: string, headerOnly: bool): (State, bool) {
    match DataSection(text)
    case None => (State(st.header, [], "@data={{}}", true, false), false)
    case Some(d) => (State(st.header, if headerOnly then [] else Units(d), d, !headerOnly, false), true)
  }

  function Parse(text: string, headerOnly: bool): (State, bool) {
    if text == "" then (CLEARED, false)
    else ParseValues(CLEARED.(header := ParseHeader(Clean(text))), Clean(text), headerOnly)
  }

  function TextOf(st: State): string {
    Print(st.header, if st.parsed then DataText(st.units) else st.data)
  }

  function SetUnit(us: seq<Unit>, u: Unit): seq<Unit> {
    if us == [] then [u]
    else if us[0].name == u.name then [u] + us[1..]
    else [us[0]] + SetUnit(us[1..], u)
  }

  function Without(us: seq<Unit>, keys: seq<string>): seq<Unit> {
    if us == [] then []
    else if us[0].name in keys then Without(us[1..], keys)
    else [us[0]] + Without(us[1..], keys)
  }

  function SetIn(st: State, u: Unit): State {
    st.(units := SetUnit(st.units, u), changed := true)
  }

  // remove_batch
  function RemoveAll(st: State, keys: seq<string>): State {
    if keys == [] then st
    else
      var p := if st.parsed then st else ParseValues(st, st.data, false).0;
      var left := Without(p.units, keys);
      p.(units := left, changed := p.changed || |left| < |p.units|)
  }

  // ---- Fields the format can carry ----

  predicate IsWord(s: string) {
    s != "" && forall c :: c in s ==> IsWordChar(c)
  }

  predicate Plain(s: string) {
    OneLine(s) && Lacks(s, "];") && Lacks(s, "};")
  }

  predicate UnitOk(u: Unit) {
    IsWord(u.name) && IsWord(u.typ) && Plain(u.text)
  }

  predicate UnitsOk(us: seq<Unit>) {
    forall i :: 0 <= i < |us| ==> UnitOk(us[i])
  }

  predicate NoLeadingSpace(us: seq<Unit>) {
    forall i :: 0 <= i < |us| ==> Spaces(us[i].text) == 0
  }

  // Parts that neither end a section early nor lose newlines.
  predicate PartOk(s: string) {
    OneLine(s) && Lacks(s, "};")
  }

  predicate KeptOk(us: seq<Unit>) {
    forall i :: 0 <= i < |us| ==> PartOk(us[i].name) && PartOk(us[i].typ) && PartOk(us[i].text)
  }

  predicate KeysOk(fs: seq<Field>) {
    forall i :: 0 <= i < |fs| ==> IsWord(fs[i].key)
  }

  predicate FieldsPlain(fs: seq<Field>) {
    forall i :: 0 <= i < |fs| ==> Plain(fs[i].text)
  }

  // The fields that are printed; a plain container's ids are not.
  predicate HeaderPlain(h: Header) {
    FieldsPlain(Fields(h))
  }

  predicate FieldsDataFree(fs: seq<Field>) {
    forall i :: 0 <= i < |fs| ==> Lacks(Clean(fs[i].text), "@data=")
  }

  // No printed field can be taken for the start of the data section.
  predicate DataFree(h: Header) {
    FieldsDataFree(Fields(h))
  }
}
