// The container object: its fields as the methods change them, each method
// tied to the functions of TextContainers.
module ValueContainers {
  import opened Outcomes
  import opened TextScan
  import opened TextContainers
  import opened TextPieces
  import opened TextTheorems
  import opened TextResults

  // find_first_not_of and find_last_not_of, as parsing() uses them.
  method TrimField(v: string) returns (r: string)
    ensures r == Trim(v)
  {
    hide TrimLeft, TrimRight;
    var start := FirstNotBlank(v);
    if start == |v| {
      NothingTrimmed();
      return "";
    }
    var end := AfterLastNotBlank(v[start..]);
    r := v[start..][..end];
  }

  lemma {:induction false} NothingTrimmed()
    ensures TrimRight("") == ""
  {
  }

  method FirstNotBlank(v: string) returns (start: nat)
    ensures start <= |v| && TrimLeft(v) == v[start..] && (start < |v| ==> v[start] != ' ')
  {
    start := 0;
    assert v[start..] == v;
    while start < |v| && v[start] == ' '
      invariant start <= |v| && TrimLeft(v[start..]) == TrimLeft(v)
    {
      assert v[start..][1..] == v[start + 1..];
      start := start + 1;
    }
  }

  method AfterLastNotBlank(v: string) returns (end: nat)
    requires v != "" && v[0] != ' '
    ensures end <= |v| && TrimRight(v) == v[..end]
  {
    end := |v|;
    assert v[..end] == v;
    while v[end - 1] == ' '
      invariant 0 < end <= |v| && TrimRight(v[..end]) == TrimRight(v)
      decreases end
    {
      assert v[..end][..end - 1] == v[..end - 1];
      end := end - 1;
    }
  }

  class ValueContainer {
    var targetId: string
    var targetSub: string
    var sourceId: string
    var sourceSub: string
    var messageType: string
    var version: string
    var units: seq<Unit>
    var dataString: string
    var parsedData: bool
    var changedData: bool
    // Zero-copy mode: the text the container was made from.
    var raw: Option<string>
    var index: seq<IndexEntry>
    var indexBuilt: bool

    // An index that was built is that of the raw text.
    ghost predicate Valid()
      reads this
    {
      indexBuilt ==> raw.Some? && index == RawIndex(raw.value)
    }

    ghost function HeaderNow(): Header
      reads this
    {
      Header(targetId, targetSub, sourceId, sourceSub, messageType, version)
    }

    ghost function Now(): State
      reads this
    {
      State(HeaderNow(), units, dataString, parsedData, changedData)
    }

    constructor (text: string, headerOnly: bool)
      ensures Valid() && Now() == Parse(text, headerOnly).0
      ensures raw == (if headerOnly then Some(text) else None) && !indexBuilt
    {
      targetId, targetSub, sourceId, sourceSub := "", "", "", "";
      messageType, version := DATA_CONTAINER, "1.0.0.0";
      units, dataString, parsedData, changedData := [], NO_DATA, true, false;
      raw := if headerOnly then Some(text) else None;
      index, indexBuilt := [], false;
      new;
      var _ := Deserialize(text, headerOnly);
    }

    method Initialize()
      modifies this
      ensures Now() == CLEARED
      ensures raw == old(raw) && index == old(index) && indexBuilt == old(indexBuilt)
    {
      targetId, targetSub, sourceId, sourceSub := "", "", "", "";
      messageType, version := DATA_CONTAINER, "1.0";
      units, dataString, parsedData, changedData := [], NO_DATA, true, false;
    }

    method Deserialize(text: string, headerOnly: bool) returns (ok: bool)
      requires Valid()
      modifies this
      ensures Valid() && (Now(), ok) == Parse(text, headerOnly)
      ensures raw == old(raw) && index == old(index) && indexBuilt == old(indexBuilt)
    {
      hide FindBlock, Clean, SetFields, SetField, Units;
      Initialize();
      if text == "" {
        return false;
      }
      var clean := Clean(text);
      match FindBlock("@header=", clean) {
        case None =>
        case Some(f) =>
          ParseFields(clean[f.at + f.block.start..f.at + f.block.start + f.block.len]);
      }
      ok := DeserializeValues(clean, headerOnly);
    }

    method ParseFields(inside: string)
      modifies this
      ensures Now() == old(Now()).(header := SetFields(old(HeaderNow()), inside))
      ensures raw == old(raw) && index == old(index) && indexBuilt == old(indexBuilt)
    {
      hide SetField, PairHere;
      ghost var result := SetFields(HeaderNow(), inside);
      var pos := 0;
      while pos < |inside|
        invariant pos <= |inside| && SetFields(HeaderNow(), inside[pos..]) == result
        invariant Now() == old(Now()).(header := HeaderNow())
        invariant raw == old(raw) && index == old(index) && indexBuilt == old(indexBuilt)
        decreases |inside| - pos
      {
        var rest := inside[pos..];
        match PairHere(rest) {
          case Some(p) =>
            ParseField(rest[1..1 + p.key], rest[p.start..p.start + p.len]);
            assert rest[p.end..] == inside[pos + p.end..];
            pos := pos + p.end;
          case None =>
            assert rest[1..] == inside[pos + 1..];
            pos := pos + 1;
        }
      }
      NoFields();
    }

    static lemma {:induction false} NoFields()
      ensures forall h :: SetFields(h, "") == h
    {
    }

    // One field of the header; an unknown number is skipped.
    method ParseField(key: string, v: string)
      modifies this
      ensures Now() == old(Now()).(header := SetField(old(HeaderNow()), key, v))
      ensures raw == old(raw) && index == old(index) && indexBuilt == old(indexBuilt)
    {
      hide Trim;
      var t := TrimField(v);
      if key == "1" { targetId := t; }
      if key == "2" { targetSub := t; }
      if key == "3" { sourceId := t; }
      if key == "4" { sourceSub := t; }
      if key == "5" { messageType := t; }
      if key == "6" { version := t; }
    }

    method DeserializeValues(text: string, headerOnly: bool) returns (ok: bool)
      modifies this
      ensures (Now(), ok) == ParseValues(old(Now()), text, headerOnly)
      ensures raw == old(raw) && index == old(index) && indexBuilt == old(indexBuilt)
    {
      hide FindBlock, ItemHere;
      units := [];
      changedData := false;
      var section := FindBlock("@data=", text);
      if section.None? {
        dataString, parsedData := "@data={{}}", true;
        return false;
      }
      var f := section.value;
      dataString := text[f.at..f.at + f.block.end];
      if headerOnly {
        parsedData := false;
        return true;
      }
      parsedData := true;
      units := ParseItems(dataString);
      ok := true;
    }

    // The loop over the items of a data section.
    method ParseItems(section: string) returns (us: seq<Unit>)
      ensures us == Units(section)
    {
      hide ItemHere, Units;
      us := [];
      var pos := 0;
      assert section[pos..] == section;
      while pos < |section|
        invariant pos <= |section| && us + Units(section[pos..]) == Units(section)
        decreases |section| - pos
      {
        var rest := section[pos..];
        UnitsUnfold(rest);
        match ItemHere(rest) {
          case Some(i) =>
            var u := Unit(rest[1..1 + i.name], rest[i.typeStart..i.typeStart + i.typ], rest[i.start..i.start + i.len]);
            assert rest[i.end..] == section[pos + i.end..];
            assert Units(rest) == [u] + Units(rest[i.end..]);
            us := us + [u];
            pos := pos + i.end;
          case None =>
            assert rest[1..] == section[pos + 1..];
            pos := pos + 1;
        }
      }
      assert section[pos..] == "";
      NoUnits();
    }

    static lemma {:induction false} NoUnits()
      ensures Units("") == []
    {
    }

    // datas()
    method Datas() returns (r: string)
      ensures r == if parsedData then DataText(units) else dataString
    {
      if !parsedData {
        return dataString;
      }
      r := "@data={{";
      var i := 0;
      while i < |units|
        invariant i <= |units| && r + (Body(units[i..]) + "}};") == DataText(units)
      {
        hide UnitText;
        var u := units[i];
        assert units[i..][1..] == units[i + 1..];
        UnitTextIs(u);
        r := r + ("[" + u.name + "," + u.typ + "," + u.text + "];");
        i := i + 1;
      }
      r := r + "}};";
    }

    static lemma {:induction false} UnitTextIs(u: Unit)
      ensures UnitText(u) == "[" + u.name + "," + u.typ + "," + u.text + "];"
    {
    }

    // binary_serializer::serialize_to_string
    method Serialize() returns (r: string)
      ensures r == TextOf(Now())
    {
      var data := Datas();
      hide DataText, PairText, PairsText;
      ghost var fs: seq<Field> := [];
      NoPairs();
      r := "@header={{";
      if messageType != DATA_CONTAINER {
        fs := PairAdded(r, fs, Field("1", targetId));
        r := AppendPair(r, "1", targetId);
        fs := PairAdded(r, fs, Field("2", targetSub));
        r := AppendPair(r, "2", targetSub);
        fs := PairAdded(r, fs, Field("3", sourceId));
        r := AppendPair(r, "3", sourceId);
        fs := PairAdded(r, fs, Field("4", sourceSub));
        r := AppendPair(r, "4", sourceSub);
      }
      fs := PairAdded(r, fs, Field("5", messageType));
      r := AppendPair(r, "5", messageType);
      fs := PairAdded(r, fs, Field("6", version));
      r := AppendPair(r, "6", version);
      assert fs == Fields(HeaderNow());
      r := r + "}};";
      r := r + data;
    }

    static lemma {:induction false} NoPairs()
      ensures PairsText([]) == ""
    {
    }

    // The formatter call for one header field.
    static method AppendPair(r: string, key: string, v: string) returns (s: string)
      ensures s == r + PairText(Field(key, v))
    {
      s := r + ("[" + key + "," + v + "];");
    }

    static lemma {:induction false} PairAdded(r: string, fs: seq<Field>, f: Field) returns (gs: seq<Field>)
      requires r == "@header={{" + PairsText(fs)
      ensures gs == fs + [f] && r + PairText(f) == "@header={{" + PairsText(gs)
    {
      gs := fs + [f];
      PairsConcat(fs, [f]);
      assert [f][1..] == [];
      assert PairsText([f]) == PairText(f) + "";
    }

    // get(key)
    method Get(key: string) returns (r: Option<string>)
      ensures r == Lookup(units, key)
    {
      var i := 0;
      while i < |units|
        invariant i <= |units| && Lookup(units[i..], key) == Lookup(units, key)
      {
        if units[i].name == key {
          return Some(units[i].text);
        }
        assert units[i..][1..] == units[i + 1..];
        i := i + 1;
      }
      r := None;
    }

    method BuildIndex()
      requires Valid()
      modifies this`index, this`indexBuilt
      ensures Valid() && (raw.Some? ==> indexBuilt)
    {
      hide FindBlock, ItemHere;
      if indexBuilt || raw.None? {
        return;
      }
      index := [];
      var data := raw.value;
      var section := FindBlock("@data=", data);
      if section.None? {
        indexBuilt := true;
        return;
      }
      var dataStart := section.value.at + section.value.block.start;
      var inside := data[dataStart..dataStart + section.value.block.len];
      index := IndexItems(inside, dataStart);
      indexBuilt := true;
    }

    // The loop over the items of the data section.
    static method IndexItems(inside: string, dataStart: nat) returns (entries: seq<IndexEntry>)
      ensures entries == Index(inside, dataStart)
    {
      hide Index, ItemHere;
      entries := [];
      var pos := 0;
      assert inside[pos..] == inside;
      while pos < |inside|
        invariant pos <= |inside| && entries + Index(inside[pos..], dataStart + pos) == Index(inside, dataStart)
        decreases |inside| - pos
      {
        var rest := inside[pos..];
        IndexUnfold(rest, dataStart + pos);
        match ItemHere(rest) {
          case Some(i) =>
            var valueStart := dataStart + pos + 1 + i.name + 1 + i.typ + 1;
            var entry := IndexEntry(rest[1..1 + i.name], rest[i.typeStart..i.typeStart + i.typ], valueStart, i.len);
            assert rest[i.end..] == inside[pos + i.end..];
            assert Index(rest, dataStart + pos) == [entry] + Index(rest[i.end..], dataStart + pos + i.end);
            entries := entries + [entry];
            pos := pos + i.end;
          case None =>
            assert rest[1..] == inside[pos + 1..];
            pos := pos + 1;
        }
      }
      assert inside[pos..] == "";
      NoIndex(dataStart + pos);
    }

    // get(key, view_tag): the text a view of the key's value shows.
    method GetView(key: string) returns (r: Option<string>)
      requires Valid()
      modifies this`index, this`indexBuilt
      ensures Valid()
      ensures raw.Some? ==> Inside(raw.value, RawIndex(raw.value)) && r == ViewOf(raw.value, RawIndex(raw.value), key)
      ensures raw.None? ==> r.None?
    {
      if raw.None? {
        return None;
      }
      BuildIndex();
      hide RawIndex, Inside, ViewOf;
      RawIndexInside(raw.value);
      r := FindView(raw.value, index, key);
    }

    static method FindView(data: string, entries: seq<IndexEntry>, key: string) returns (r: Option<string>)
      requires Inside(data, entries)
      ensures r == ViewOf(data, entries, key)
    {
      hide Inside, ViewOf;
      var i := 0;
      while i < |entries|
        invariant i <= |entries| && forall j :: 0 <= j < i ==> entries[j].name != key
      {
        if entries[i].name == key {
          ViewFound(data, entries, i, key);
          return Some(data[entries[i].offset..entries[i].offset + entries[i].length]);
        }
        i := i + 1;
      }
      ViewAbsent(data, entries, key);
      r := None;
    }

    static lemma {:induction false} ViewFound(data: string, ix: seq<IndexEntry>, i: nat, key: string)
      requires Inside(data, ix) && i < |ix| && ix[i].name == key
      requires forall j :: 0 <= j < i ==> ix[j].name != key
      ensures ix[i].offset + ix[i].length <= |data|
      ensures ViewOf(data, ix, key) == Some(data[ix[i].offset..ix[i].offset + ix[i].length])
    {
      assert ix[i] in ix;
      if i > 0 {
        var tail := ix[1..];
        ViewFound(data, tail, i - 1, key);
      }
    }

    static lemma {:induction false} ViewAbsent(data: string, ix: seq<IndexEntry>, key: string)
      requires Inside(data, ix) && forall j :: 0 <= j < |ix| ==> ix[j].name != key
      ensures ViewOf(data, ix, key) == None
    {
      if ix != [] {
        ViewAbsent(data, ix[1..], key);
      }
    }

    // set(): the first value of that name is replaced, or one is added.
    method Set(u: Unit)
      requires Valid()
      modifies this`units, this`changedData
      ensures Valid() && Now() == SetIn(old(Now()), u)
      ensures changedData && parsedData == old(parsedData) && dataString == old(dataString)
    {
      var i := 0;
      while i < |units|
        invariant i <= |units| && units == old(units) && changedData == old(changedData)
        invariant forall j :: 0 <= j < i ==> units[j].name != u.name
      {
        if units[i].name == u.name {
          SetAt(units, i, u);
          units := units[..i] + [u] + units[i + 1..];
          changedData := true;
          return;
        }
        i := i + 1;
      }
      SetAt(units, i, u);
      units := units + [u];
      changedData := true;
    }

    static lemma {:induction false} SetAt(us: seq<Unit>, i: nat, u: Unit)
      requires i <= |us| && (forall j :: 0 <= j < i ==> us[j].name != u.name) && (i < |us| ==> us[i].name == u.name)
      ensures SetUnit(us, u) == us[..i] + [u] + (if i < |us| then us[i + 1..] else [])
    {
      if i > 0 {
        SetAt(us[1..], i - 1, u);
        assert us[..i] == [us[0]] + us[1..][..i - 1];
        assert i < |us| ==> us[i + 1..] == us[1..][i..];
      }
    }

    method RemoveBatch(keys: seq<string>) returns (removed: nat)
      requires Valid()
      modifies this
      ensures Valid() && raw == old(raw)
      ensures Now() == RemoveAll(old(Now()), keys)
      ensures keys == [] ==> removed == 0
      ensures keys != [] ==>
                removed + |units| == |(if old(parsedData) then old(Now()) else ParseValues(old(Now()), old(dataString), false).0).units|
      ensures keys != [] ==> parsedData && (changedData <==> removed > 0 || (old(parsedData) && old(changedData)))
    {
      hide Without, FindBlock, Units;
      removed := 0;
      if keys == [] {
        return;
      }
      if !parsedData {
        var _ := DeserializeValues(dataString, false);
      }
      var left := Keep(units, keys);
      removed := |units| - |left|;
      units := left;
      if removed > 0 {
        changedData := true;
      }
    }

    // remove_if over the values
    static method Keep(us: seq<Unit>, keys: seq<string>) returns (left: seq<Unit>)
      ensures left == Without(us, keys) && |left| <= |us|
    {
      hide Without;
      left := [];
      var i := 0;
      assert us[i..] == us;
      while i < |us|
        invariant |left| <= i <= |us| && left + Without(us[i..], keys) == Without(us, keys)
      {
        var u, rest := us[i], us[i..];
        assert rest[1..] == us[i + 1..];
        WithoutUnfold(rest, keys);
        if u.name !in keys {
          left := left + [u];
        }
        i := i + 1;
      }
      assert us[i..] == [];
      NothingWithout(keys);
    }

    static lemma {:induction false} NothingWithout(keys: seq<string>)
      ensures Without([], keys) == []
    {
    }

    static lemma {:induction false} WithoutUnfold(us: seq<Unit>, keys: seq<string>)
      requires us != []
      ensures Without(us, keys) == (if us[0].name in keys then [] else [us[0]]) + Without(us[1..], keys)
    {
    }
  }

  // ---- What the operations do to the text ----

  lemma {:induction false} LookupSet(us: seq<Unit>, u: Unit, key: string)
    ensures Lookup(SetUnit(us, u), key) == if key == u.name then Some(u.text) else Lookup(us, key)
  {
    if us != [] {
      LookupSet(us[1..], u, key);
      if us[0].name != u.name {
        assert SetUnit(us, u)[1..] == SetUnit(us[1..], u);
      } else {
        assert SetUnit(us, u)[1..] == us[1..];
      }
    }
  }

  lemma {:induction false} LookupWithout(us: seq<Unit>, keys: seq<string>, key: string)
    ensures Lookup(Without(us, keys), key) == if key in keys then None else Lookup(us, key)
  {
    if us != [] {
      LookupWithout(us[1..], keys, key);
      if us[0].name !in keys {
        assert Without(us, keys)[1..] == Without(us[1..], keys);
      }
    }
  }

  // On a container of which only the header was parsed, a value that is set is
  // found by name but is not printed, and removing any name drops it again.
  lemma {:induction false} SetOnHeaderOnly(st: State, u: Unit, keys: seq<string>)
    requires !st.parsed && keys != []
    ensures Lookup(SetIn(st, u).units, u.name) == Some(u.text)
    ensures TextOf(SetIn(st, u)) == TextOf(st)
    ensures RemoveAll(SetIn(st, u), keys) == RemoveAll(st, keys)
  {
    hide Print, DataSection, Units, Without;
    LookupSet(st.units, u, u.name);
  }

  // After set() the values as they now are get printed exactly if they were
  // parsed, or are what the kept section already says.
  lemma {:induction false} SetPrinted(st: State, u: Unit)
    ensures TextOf(SetIn(st, u)) == Print(st.header, DataText(SetUnit(st.units, u))) <==>
              st.parsed || st.data == DataText(SetUnit(st.units, u))
  {
    hide Print, DataText, SetUnit;
    SameData(st.header, st.data, DataText(SetUnit(st.units, u)));
  }

  lemma {:induction false} SameData(h: Header, a: string, b: string)
    ensures Print(h, a) == Print(h, b) <==> a == b
  {
    hide HeaderText;
    var p := "@header={{" + HeaderText(h) + "}};";
    assert Print(h, a) == p + a && Print(h, b) == p + b;
    if p + a == p + b {
      assert a == (p + a)[|p|..] == (p + b)[|p|..] == b;
    }
  }

  // Removing from a text parsed by its header alone parses the values first:
  // the result is that of removing after eager parsing, whatever the text.
  lemma {:induction false} RemoveAfterHeaderOnly(text: string, keys: seq<string>)
    requires keys != []
    ensures RemoveAll(Parse(text, true).0, keys) == RemoveAll(Parse(text, false).0, keys)
  {
    hide DataSection, ParseHeader, Clean, Units, Without;
    if text != "" && DataSection(Clean(text)).Some? {
      SectionAgain(Clean(text));
    }
  }
}
