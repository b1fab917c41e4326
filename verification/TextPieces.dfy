// The pieces of printed text, as the scanners and the parser see them.
module TextPieces {
  import opened Outcomes
  import opened TextScan
  import opened TextContainers

  // A value without the spaces the parser's \s* takes off its front.
  function Strip(v: string): string {
    v[Spaces(v)..]
  }

  function Stripped(us: seq<Unit>): (r: seq<Unit>)
    ensures |r| == |us|
  {
    if us == [] then [] else [us[0].(text := Strip(us[0].text))] + Stripped(us[1..])
  }

  // ---- One item, one pair ----

  lemma {:induction false} Assoc(p: string, q: string, r: string)
    ensures (p + q) + r == p + (q + r)
  {
  }

  // What follows the name, and the type, in a printed value.
  function AfterType(u: Unit, r: string): string {
    "," + (u.text + ("];" + r))
  }

  function AfterName(u: Unit, r: string): string {
    "," + (u.typ + AfterType(u, r))
  }

  lemma {:induction false} UnitParts(u: Unit, r: string)
    ensures UnitText(u) + r == "[" + (u.name + AfterName(u, r))
  {
    var n, t := "[" + u.name, "," + u.typ;
    Assoc("[", u.name, AfterName(u, r));
    Assoc(n + "," + u.typ + "," + u.text, "];", r);
    Assoc(n + "," + u.typ + ",", u.text, "];" + r);
    Assoc(n + "," + u.typ, ",", u.text + ("];" + r));
    Assoc(n + ",", u.typ, AfterType(u, r));
    Assoc(n, ",", u.typ + AfterType(u, r));
  }

  // Where the parts of a printed value lie: the type from b on, the text from
  // c on.
  lemma {:induction false} UnitSlices(u: Unit, r: string) returns (s: string, b: nat, c: nat)
    ensures s == UnitText(u) + r && b == |u.name| + 2 && c == b + |u.typ| + 1 && c + |u.text| + 2 == |UnitText(u)| <= |s|
    ensures s[0] == '[' && s[1..] == u.name + AfterName(u, r) && s[1..b - 1] == u.name && s[b - 1] == ','
    ensures s[b..] == u.typ + AfterType(u, r) && s[b..c - 1] == u.typ && s[c - 1] == ','
    ensures s[c..] == u.text + ("];" + r) && s[c..c + |u.text|] == u.text && s[c + |u.text| + 2..] == r
  {
    hide UnitText, AfterName, AfterType;
    s := UnitText(u) + r;
    UnitParts(u, r);
    UnitLength(u);
    b := NameSlice(s, u, r);
    c := TypeSlice(s, b, u, r);
    TextSlice(s, c, u.text, r);
  }

  lemma {:induction false} NameSlice(s: string, u: Unit, r: string) returns (b: nat)
    requires s == "[" + (u.name + AfterName(u, r))
    ensures b == |u.name| + 2 <= |s| && s[0] == '[' && s[1..] == u.name + AfterName(u, r) && s[1..b - 1] == u.name
    ensures s[b - 1] == ',' && s[b..] == u.typ + AfterType(u, r)
  {
    hide AfterType;
    assert s[0..] == s;
    Part(s, 0, "[", u.name + AfterName(u, r));
    WordPart(s, 1, u.name, AfterName(u, r), u.typ + AfterType(u, r));
    b := |u.name| + 2;
  }

  lemma {:induction false} TypeSlice(s: string, b: nat, u: Unit, r: string) returns (c: nat)
    requires b <= |s| && s[b..] == u.typ + AfterType(u, r)
    ensures c == b + |u.typ| + 1 <= |s| && s[b..c - 1] == u.typ && s[c - 1] == ',' && s[c..] == u.text + ("];" + r)
  {
    WordPart(s, b, u.typ, AfterType(u, r), u.text + ("];" + r));
    c := b + |u.typ| + 1;
  }

  lemma {:induction false} TextSlice(s: string, i: nat, text: string, r: string)
    requires i <= |s| && s[i..] == text + ("];" + r)
    ensures i + |text| + 2 <= |s| && s[i..i + |text|] == text && s[i + |text| + 2..] == r
  {
    Part(s, i, text, "];" + r);
    Part(s, i + |text|, "];", r);
  }

  lemma {:induction false} UnitLength(u: Unit)
    ensures |UnitText(u)| == |u.name| + |u.typ| + |u.text| + 5
    ensures forall r :: AfterName(u, r) == "," + (u.typ + AfterType(u, r)) && AfterType(u, r) == "," + (u.text + ("];" + r))
  {
  }

  // A word, the comma after it, and what follows.
  lemma {:induction false} WordPart(s: string, i: nat, w: string, after: string, q: string)
    requires i <= |s| && s[i..] == w + after && after == "," + q
    ensures i + |w| < |s| && s[i..i + |w|] == w && s[i + |w|] == ',' && s[i + |w| + 1..] == q
  {
    Part(s, i, w, after);
    Part(s, i + |w|, ",", q);
  }

  // A part of a text, where it starts.
  lemma {:induction false} Part(s: string, i: nat, p: string, q: string)
    requires i <= |s| && s[i..] == p + q
    ensures i + |p| <= |s| && s[i..i + |p|] == p && s[i + |p|..] == q && (p != "" ==> s[i] == p[0])
  {
    assert s[i..][|p|..] == s[i + |p|..];
    assert s[i..][..|p|] == s[i..i + |p|];
    assert p != "" ==> s[i] == s[i..][0];
  }

  lemma {:induction false} ItemPieces(s: string, b: nat, c: nat, k: nat, v: nat)
    requires 2 < b < c - 1 && c + k <= |s|
    requires s[0] == '[' && Word(s[1..]) == b - 2 && s[b - 1] == ','
    requires Spaces(s[b..]) == 0 && Word(s[b..]) == c - 1 - b && s[c - 1] == ','
    requires Spaces(s[c..]) == k && Lazy(Bracket, s[c + k..]) == Some(v)
    ensures ItemHere(s) == Some(Item(b - 2, b, c - 1 - b, c + k, v, c + k + v + 2))
  {
    hide Word, Spaces, Lazy;
  }

  // A printed value is found where it starts, less the spaces before its text.
  lemma {:induction false} UnitHere(u: Unit, r: string) returns (s: string, b: nat, c: nat)
    requires UnitOk(u)
    ensures s == UnitText(u) + r && b == |u.name| + 2 && c == b + |u.typ| + 1 && c + |u.text| + 2 == |UnitText(u)| <= |s|
    ensures s[1..b - 1] == u.name && s[b..c - 1] == u.typ && s[c..c + |u.text|] == u.text && s[c + |u.text| + 2..] == r
    ensures var k := Spaces(u.text);
            k <= |u.text| && ItemHere(s) == Some(Item(b - 2, b, c - 1 - b, c + k, |u.text| - k, c + |u.text| + 2))
  {
    hide Lazy, Word, Spaces, ItemHere, UnitText, UnitOk, AfterName, AfterType;
    s, b, c := UnitSlices(u, r);
    UnitItem(u, r, s, b, c);
  }

  lemma {:induction false} UnitItem(u: Unit, r: string, s: string, b: nat, c: nat)
    requires UnitOk(u) && b == |u.name| + 2 && c == b + |u.typ| + 1 && c + |u.text| + 2 <= |s|
    requires s[0] == '[' && s[1..] == u.name + AfterName(u, r) && s[b - 1] == ','
    requires s[b..] == u.typ + AfterType(u, r) && s[c - 1] == ',' && s[c..] == u.text + ("];" + r)
    ensures var k := Spaces(u.text);
            k <= |u.text| && ItemHere(s) == Some(Item(b - 2, b, c - 1 - b, c + k, |u.text| - k, c + |u.text| + 2))
  {
    hide Lazy, Word, Spaces, ItemHere, Lacks, UnitOk, StartsWith, OneLine, IsWord, Plain;
    var k := Spaces(u.text);
    NameAndType(u, AfterName(u, r), AfterType(u, r));
    TextPart(u, r);
    assert s[c + k..] == s[c..][k..];
    ItemPieces(s, b, c, k, |u.text| - k);
  }

  lemma {:induction false} NameAndType(u: Unit, a: string, b: string)
    requires UnitOk(u) && a != "" && a[0] == ',' && b != "" && b[0] == ','
    ensures Word(u.name + a) == |u.name| > 0 && Word(u.typ + b) == |u.typ| > 0 && Spaces(u.typ + b) == 0
  {
    hide Word, Spaces, Lacks;
    WordThen(u.name, a);
    WordThen(u.typ, b);
    assert u.typ[0] in u.typ;
    NoSpace(u.typ + b);
  }

  lemma {:induction false} TextPart(u: Unit, r: string)
    requires UnitOk(u)
    ensures var t, k := u.text + ("];" + r), Spaces(u.text);
            k <= |u.text| && Spaces(t) == k && Lazy(Bracket, t[k..]) == Some(|u.text| - k)
  {
    hide Lazy, Spaces, StartsWith;
    var t, k := u.text + ("];" + r), Spaces(u.text);
    SpacesThen(u.text, "];" + r);
    assert k <= |u.text| by { SpacesBound(u.text); }
    assert t[k..] == u.text[k..] + "];" + r;
    LacksTail(u.text, "];", k);
    OneLineTail(u.text, k);
    LazyBracket(u.text[k..], r);
  }

  lemma {:induction false} SpacesBound(s: string)
    ensures Spaces(s) <= |s|
  {
  }

  lemma {:induction false} NoSpace(s: string)
    requires s != "" && !IsSpace(s[0])
    ensures Spaces(s) == 0
  {
  }

  lemma {:induction false} OneLineTail(x: string, k: nat)
    requires OneLine(x) && k <= |x|
    ensures OneLine(x[k..])
  {
  }

  // ---- Whole bodies ----

  lemma {:induction false} SkipUnits(p: string, s: string)
    requires '[' !in p
    ensures Units(p + s) == Units(s)
  {
    if p == "" {
      assert p + s == s;
    } else {
      assert (p + s)[0] == p[0] && p[0] in p;
      assert (p + s)[1..] == p[1..] + s;
      SkipUnits(p[1..], s);
    }
  }

  lemma {:induction false} UnitsOfBody(us: seq<Unit>, r: string)
    requires UnitsOk(us)
    ensures Units(Body(us) + r) == Stripped(us) + Units(r)
  {
    hide Units, UnitText, UnitOk, Spaces, Lacks;
    if us == [] {
      assert Body(us) + r == r;
    } else {
      var first := [us[0].(text := Strip(us[0].text))];
      UnitsStep(us[0], Body(us[1..]) + r);
      UnitsOfBody(us[1..], r);
      assert Stripped(us) + Units(r) == first + (Stripped(us[1..]) + Units(r));
      assert Body(us) + r == UnitText(us[0]) + (Body(us[1..]) + r);
    }
  }

  lemma {:induction false} UnitsStep(u: Unit, r: string)
    requires UnitOk(u)
    ensures Units(UnitText(u) + r) == [u.(text := Strip(u.text))] + Units(r)
  {
    hide UnitText, ItemHere, Spaces, UnitOk, Units, Strip;
    var s, b, c := UnitHere(u, r);
    var k := Spaces(u.text);
    StripSlice(s, c, u.text);
    UnitsCons(s, b, c, k, |u.text| - k);
  }

  // The first value of a text, by where its parts lie.
  lemma {:induction false} UnitsCons(s: string, b: nat, c: nat, k: nat, v: nat)
    requires 2 <= b < c && c + k + v + 2 <= |s| && ItemHere(s) == Some(Item(b - 2, b, c - 1 - b, c + k, v, c + k + v + 2))
    ensures Units(s) == [Unit(s[1..b - 1], s[b..c - 1], s[c + k..c + k + v])] + Units(s[c + k + v + 2..])
  {
    hide ItemHere;
    UnitsUnfold(s);
  }

  lemma {:induction false} StripSlice(s: string, c: nat, text: string)
    requires c + |text| <= |s| && s[c..c + |text|] == text && Spaces(text) <= |text|
    ensures s[c + Spaces(text)..c + |text|] == Strip(text)
  {
    hide Spaces;
    var k := Spaces(text);
    assert s[c + k..c + |text|] == s[c..c + |text|][k..];
  }

  lemma {:induction false} UnitsOfData(us: seq<Unit>)
    requires UnitsOk(us)
    ensures Units(DataText(us)) == Stripped(us)
  {
    assert DataText(us) == "@data={{" + (Body(us) + "}};");
    SkipUnits("@data={{", Body(us) + "}};");
    UnitsOfBody(us, "}};");
    SkipUnits("}};", "");
    assert "}};" + "" == "}};";
    assert Units("") == [];
  }

  // ---- The header ----

  lemma {:induction false} PairSlices(f: Field, r: string)
    ensures var s, n, v := PairText(f) + r, |f.key|, |f.text|;
            s[0] == '[' && s[1..] == f.key + ("," + f.text + "];" + r) && s[1..1 + n] == f.key && s[1 + n] == ',' &&
            s[n + 2..] == f.text + "];" + r && s[n + 2..n + 2 + v] == f.text &&
            |PairText(f)| == n + v + 4 && s[|PairText(f)|..] == r
  {
    var s, n := PairText(f) + r, |f.key|;
    var a := f.key + ("," + f.text + "];" + r);
    assert a[n + 1..] == f.text + "];" + r;
    assert s[1..] == a;
    assert s[n + 2..] == a[n + 1..];
  }

  lemma {:induction false} SetStep(h: Header, f: Field, r: string)
    requires IsWord(f.key) && Plain(f.text)
    ensures SetFields(h, PairText(f) + r) == SetFields(SetField(h, f.key, f.text), r)
  {
    hide Word, Lazy, PairText, SetField, Lacks;
    PairSlices(f, r);
    WordThen(f.key, "," + f.text + "];" + r);
    LazyBracket(f.text, r);
    var s := PairText(f) + r;
    assert PairHere(s) == Some(Pair(|f.key|, |f.key| + 2, |f.text|, |PairText(f)|));
  }

  function Put(h: Header, fs: seq<Field>): Header
    decreases |fs|
  {
    if fs == [] then h else Put(SetField(h, fs[0].key, fs[0].text), fs[1..])
  }

  lemma {:induction false} SetFieldsOf(h: Header, fs: seq<Field>)
    requires KeysOk(fs) && FieldsPlain(fs)
    ensures SetFields(h, PairsText(fs)) == Put(h, fs)
    decreases |fs|
  {
    if fs != [] {
      hide SetField, PairText, PairHere, Plain, IsWord;
      SetStep(h, fs[0], PairsText(fs[1..]));
      SetFieldsOf(SetField(h, fs[0].key, fs[0].text), fs[1..]);
    }
  }

  // The header that comes back: fields trimmed, and the ids of a plain data
  // container lost, since they are not printed.
  function Returned(h: Header): Header {
    if h.messageType == DATA_CONTAINER then BLANK.(version := Trim(h.version))
    else Header(Trim(h.targetId), Trim(h.targetSub), Trim(h.sourceId), Trim(h.sourceSub),
                Trim(h.messageType), Trim(h.version))
  }

  lemma {:induction false} PutFields(h: Header)
    ensures Put(BLANK, Fields(h)) == Returned(h)
  {
    hide Trim;
    var ids := [Field("1", h.targetId), Field("2", h.targetSub), Field("3", h.sourceId), Field("4", h.sourceSub)];
    var rest := [Field("5", h.messageType), Field("6", h.version)];
    TrimTidy(DATA_CONTAINER);
    if h.messageType != DATA_CONTAINER {
      PutConcat(BLANK, ids, rest);
      PutConcat(BLANK, ids[..2], ids[2..]);
      assert ids == ids[..2] + ids[2..];
      PutTwo(BLANK, ids[..2]);
      PutTwo(Put(BLANK, ids[..2]), ids[2..]);
      var b := Put(BLANK, ids);
      assert b == BLANK.(targetId := Trim(h.targetId), targetSub := Trim(h.targetSub),
                         sourceId := Trim(h.sourceId), sourceSub := Trim(h.sourceSub));
      PutTwo(b, rest);
    } else {
      assert Fields(h) == rest;
      PutTwo(BLANK, rest);
    }
  }

  lemma {:induction false} PutTwo(h: Header, fs: seq<Field>)
    requires |fs| == 2
    ensures Put(h, fs) == SetField(SetField(h, fs[0].key, fs[0].text), fs[1].key, fs[1].text)
  {
    hide SetField;
    var h1 := SetField(h, fs[0].key, fs[0].text);
    assert Put(h1, fs[1..]) == Put(SetField(h1, fs[1].key, fs[1].text), fs[1..][1..]);
  }

  lemma {:induction false} PutConcat(h: Header, a: seq<Field>, b: seq<Field>)
    ensures Put(h, a + b) == Put(Put(h, a), b)
    decreases |a|
  {
    if a == [] {
      assert a + b == b;
    } else {
      hide SetField;
      assert (a + b)[1..] == a[1..] + b;
      PutConcat(SetField(h, a[0].key, a[0].text), a[1..], b);
    }
  }

  // No blank at either end.
  predicate Tidy(s: string) {
    s == "" || (s[0] != ' ' && s[|s| - 1] != ' ')
  }

  lemma {:induction false} TrimTidy(s: string)
    ensures Tidy(s) <==> Trim(s) == s
    ensures |Trim(s)| <= |s|
    ensures Trim(s) == s <==> |Trim(s)| == |s|
  {
    LeftShorter(s);
    RightShorter(TrimLeft(s));
  }

  lemma {:induction false} LeftShorter(s: string)
    ensures |TrimLeft(s)| <= |s| && (|TrimLeft(s)| == |s| ==> TrimLeft(s) == s)
    ensures s != "" && s[0] == ' ' ==> |TrimLeft(s)| < |s|
  {
    if s != "" { LeftShorter(s[1..]); }
  }

  lemma {:induction false} RightShorter(s: string)
    ensures |TrimRight(s)| <= |s| && (|TrimRight(s)| == |s| ==> TrimRight(s) == s)
    ensures s != "" && s[|s| - 1] == ' ' ==> |TrimRight(s)| < |s|
  {
    if s != "" { RightShorter(s[..|s| - 1]); }
  }

  // ---- Finding the two sections ----

  // Text a section can hold: printed items, one after the other.
  predicate Regular(s: string) {
    OneLine(s) && Lacks(s, "};") && (s != "" ==> s[0] == '[' && s[|s| - 1] == ';')
  }

  lemma {:induction false} RegularConcat(a: string, b: string)
    requires Regular(a) && Regular(b)
    ensures Regular(a + b)
  {
    hide Lacks;
    LacksJoin(a, b, "};");
  }

  lemma {:induction false} EntryRegular(a: string, text: string)
    requires a != "" && a[0] == '[' && a[|a| - 1] == ',' && PartOk(a) && PartOk(text)
    ensures Regular(a + text + "];")
  {
    hide Lacks;
    LacksJoin(a, text, "};");
    Closing();
    LacksJoin(a + text, "];", "};");
  }

  lemma {:induction false} Closing()
    ensures Lacks("];", "};")
  {
    var s := "];";
    assert s[0..] == s && s[..2] == s && s[0] == ']';
  }

  lemma {:induction false} WordChars(w: string)
    requires IsWord(w)
    ensures OneLine(w) && ';' !in w && '@' !in w
  {
  }

  // A part with a comma behind it, in front of which no brace ends.
  lemma {:induction false} CommaOk(a: string, w: string)
    requires PartOk(a) && PartOk(w) && a != "" && a[|a| - 1] != '}'
    ensures PartOk(a + w + ",")
  {
    hide Lacks;
    LacksJoin(a, w, "};");
    LacksChar(",", "};");
    LacksJoin(a + w, ",", "};");
  }

  lemma {:induction false} UnitRegular(u: Unit)
    requires PartOk(u.name) && PartOk(u.typ) && PartOk(u.text)
    ensures Regular(UnitText(u))
  {
    hide Lacks, Regular, PartOk;
    assert PartOk("[") by { BracketOk(); }
    CommaOk("[", u.name);
    CommaOk("[" + u.name + ",", u.typ);
    EntryRegular("[" + u.name + "," + u.typ + ",", u.text);
    assert UnitText(u) == "[" + u.name + "," + u.typ + "," + u.text + "];";
  }

  lemma {:induction false} BracketOk()
    ensures PartOk("[")
  {
    hide Lacks;
    LacksChar("[", "};");
  }

  lemma {:induction false} BodyRegular(us: seq<Unit>)
    requires KeptOk(us)
    ensures Regular(Body(us))
  {
    hide UnitText, PartOk;
    if us != [] {
      hide Regular;
      UnitRegular(us[0]);
      BodyRegular(us[1..]);
      RegularConcat(UnitText(us[0]), Body(us[1..]));
    }
  }

  lemma {:induction false} WordPartOk(w: string)
    requires IsWord(w)
    ensures PartOk(w)
  {
    hide Lacks;
    WordChars(w);
    LacksChar(w, "};");
  }

  lemma {:induction false} OkIsKept(us: seq<Unit>)
    requires UnitsOk(us)
    ensures KeptOk(us)
  {
    hide IsWord, Lacks, PartOk;
    forall i | 0 <= i < |us| ensures PartOk(us[i].name) && PartOk(us[i].typ) && PartOk(us[i].text) {
      assert UnitOk(us[i]);
      WordPartOk(us[i].name);
      WordPartOk(us[i].typ);
      PlainPartOk(us[i].text);
    }
  }

  lemma {:induction false} PlainPartOk(s: string)
    requires Plain(s)
    ensures PartOk(s)
  {
  }

  lemma {:induction false} PairRegular(f: Field)
    requires IsWord(f.key) && Plain(f.text)
    ensures Regular(PairText(f))
  {
    hide Lacks, Regular, IsWord, PartOk, Plain;
    WordPartOk(f.key);
    PlainPartOk(f.text);
    BracketOk();
    CommaOk("[", f.key);
    EntryRegular("[" + f.key + ",", f.text);
    assert PairText(f) == "[" + f.key + "," + f.text + "];";
  }

  lemma {:induction false} PairsRegular(fs: seq<Field>)
    requires KeysOk(fs) && FieldsPlain(fs)
    ensures Regular(PairsText(fs))
    decreases |fs|
  {
    hide PairText, Plain, IsWord;
    if fs != [] {
      hide Regular;
      PairRegular(fs[0]);
      PairsRegular(fs[1..]);
      RegularConcat(PairText(fs[0]), PairsText(fs[1..]));
    }
  }

  lemma {:induction false} PairNoStart(f: Field, r: string)
    requires IsWord(f.key) && Lacks(f.text, "@data=")
    ensures NoStart(PairText(f), r, "@data=")
  {
    hide Lacks, IsWord, NoStart;
    WordChars(f.key);
    var a := "[" + f.key + ",";
    NoStartFirst("];", r, "@data=");
    NoStartField(f.text, "];" + r, "@data=");
    NoStartConcat(f.text, "];", r, "@data=");
    NoStartFirst(a, f.text + "];" + r, "@data=");
    NoStartConcat(a, f.text + "];", r, "@data=");
    assert PairText(f) == a + (f.text + "];");
    assert f.text + "];" + r == f.text + ("];" + r);
  }

  lemma {:induction false} PairsNoStart(fs: seq<Field>, r: string)
    requires KeysOk(fs) && forall i :: 0 <= i < |fs| ==> Lacks(fs[i].text, "@data=")
    ensures NoStart(PairsText(fs), r, "@data=")
    decreases |fs|
  {
    hide PairText, IsWord, Lacks;
    if fs != [] {
      hide NoStart;
      PairNoStart(fs[0], PairsText(fs[1..]) + r);
      PairsNoStart(fs[1..], r);
      NoStartConcat(PairText(fs[0]), PairsText(fs[1..]), r, "@data=");
    }
  }

  lemma {:induction false} Keys(h: Header)
    ensures KeysOk(Fields(h))
  {
  }

  // ---- Newlines ----

  lemma {:induction false} CleanOneLine(s: string)
    ensures OneLine(Clean(s)) && |Clean(s)| <= |s|
  {
    if s != "" { CleanOneLine(s[1..]); }
  }

  lemma {:induction false} CleanPlainLine(s: string)
    requires OneLine(s)
    ensures Clean(s) == s
  {
    CleanPlain(s);
  }

  lemma {:induction false} CleanConcat(a: string, b: string)
    ensures Clean(a + b) == Clean(a) + Clean(b)
  {
    if a == "" {
      assert a + b == b;
    } else {
      assert (a + b)[1..] == a[1..] + b;
      CleanConcat(a[1..], b);
    }
  }

  function Cleaned(fs: seq<Field>): (r: seq<Field>)
    ensures |r| == |fs|
  {
    if fs == [] then [] else [fs[0].(text := Clean(fs[0].text))] + Cleaned(fs[1..])
  }

  lemma {:induction false} CleanedAt(fs: seq<Field>)
    ensures forall i :: 0 <= i < |fs| ==> Cleaned(fs)[i] == fs[i].(text := Clean(fs[i].text))
  {
    hide Clean;
    if fs != [] {
      CleanedAt(fs[1..]);
      assert Cleaned(fs)[1..] == Cleaned(fs[1..]);
    }
  }

  lemma {:induction false} CleanPair(f: Field)
    requires IsWord(f.key)
    ensures Clean(PairText(f)) == PairText(f.(text := Clean(f.text)))
  {
    hide Clean, IsWord;
    WordChars(f.key);
    var a := "[" + f.key + ",";
    CleanPlain(a);
    CleanPlain("];");
    CleanConcat(a, f.text);
    CleanConcat(a + f.text, "];");
    assert PairText(f) == a + f.text + "];";
    assert PairText(f.(text := Clean(f.text))) == a + Clean(f.text) + "];";
  }

  lemma {:induction false} CleanPairs(fs: seq<Field>)
    requires KeysOk(fs)
    ensures Clean(PairsText(fs)) == PairsText(Cleaned(fs))
  {
    if fs != [] {
      hide PairText, Clean, IsWord;
      CleanPair(fs[0]);
      CleanPairs(fs[1..]);
      CleanConcat(PairText(fs[0]), PairsText(fs[1..]));
      assert Cleaned(fs)[1..] == Cleaned(fs[1..]);
    } else {
      assert Clean("") == "" && Cleaned([]) == [];
    }
  }

  // ---- The two sections of printed text ----

  // The header section of printed text is found at its front, whatever data
  // follows, if the printed fields are plain.
  lemma {:induction false} HeaderFound(h: Header, d: string)
    requires HeaderPlain(h)
    ensures var s, n := Clean(Print(h, d)), |HeaderText(h)|;
            FindBlock("@header=", s) == Some(Found(0, Block(10, n, n + 13))) && n + 13 <= |s| && s[10..10 + n] == HeaderText(h)
  {
    hide Regular, HeaderText, FindBlock, Clean, HeaderPlain, OneLine;
    var t := HeaderText(h);
    PlainHeader(h);
    OneLineFront(t);
    CleanPlainLine("@header={{" + t + "}};");
    CleanConcat("@header={{" + t + "}};", d);
    FrontFound(t, Clean(d));
  }

  lemma {:induction false} FrontFound(t: string, e: string)
    requires Regular(t)
    ensures var s, n := "@header={{" + t + "}};" + e, |t|;
            FindBlock("@header=", s) == Some(Found(0, Block(10, n, n + 13))) && n + 13 <= |s| && s[10..10 + n] == t
  {
    hide Regular, FindBlock;
    RegularFound("@header=", t, e);
    assert "@header=" + "{{" + t + "}};" + e == "@header={{" + t + "}};" + e;
  }

  lemma {:induction false} PlainHeader(h: Header)
    requires HeaderPlain(h)
    ensures Regular(HeaderText(h)) && SetFields(BLANK, HeaderText(h)) == Returned(h)
  {
    hide Regular, SetFields, Put, Fields, Plain, IsWord, Returned, PairsText;
    Keys(h);
    PairsRegular(Fields(h));
    SetFieldsOf(BLANK, Fields(h));
    PutFields(h);
  }

  lemma {:induction false} OneLineFront(t: string)
    requires Regular(t)
    ensures OneLine("@header={{" + t + "}};")
  {
    hide Lacks;
  }

  // The data section is what it is in the data alone, if no printed field can
  // be taken for its start.
  lemma {:induction false} DataFound(h: Header, d: string)
    requires DataFree(h)
    ensures DataSection(Clean(Print(h, d))) == DataSection(Clean(d))
  {
    hide HeaderText, FindBlock, Clean, DataFree, PairsText, NoStart, Lacks, Fields;
    var t, e := Clean(HeaderText(h)), Clean(d);
    FieldsNoStart(h, "}};" + e);
    BeforeData(t, e);
    CleanedPrint(h, d);
    SkipData("@header={{" + t + "}};", e);
  }

  lemma {:induction false} CleanedPrint(h: Header, d: string)
    ensures Clean(Print(h, d)) == "@header={{" + Clean(HeaderText(h)) + "}};" + Clean(d)
  {
    hide Clean, HeaderText;
    CleanPlain("@header={{");
    CleanPlain("}};");
    CleanConcat("@header={{", HeaderText(h));
    CleanConcat("@header={{" + HeaderText(h), "}};");
    CleanConcat("@header={{" + HeaderText(h) + "}};", d);
  }

  lemma {:induction false} FieldsNoStart(h: Header, r: string)
    requires DataFree(h)
    ensures NoStart(Clean(HeaderText(h)), r, "@data=")
  {
    hide Clean, NoStart, Lacks, Fields, IsWord;
    var fs := Fields(h);
    Keys(h);
    CleanPairs(fs);
    CleanedAt(fs);
    PairsNoStart(Cleaned(fs), r);
  }

  lemma {:induction false} SkipData(p: string, e: string)
    requires NoStart(p, e, "@data=")
    ensures DataSection(p + e) == DataSection(e)
  {
    hide FindBlock, NoStart;
    SkipBlock(p, e, "@data=");
    match FindBlock("@data=", e)
    case None =>
    case Some(f) => assert (p + e)[f.at + |p|..f.at + |p| + f.block.end] == e[f.at..f.at + f.block.end];
  }

  // The data section of values whose parts neither end it nor lose newlines
  // is all of it.
  lemma {:induction false} KeptSection(us: seq<Unit>)
    requires KeptOk(us)
    ensures var d, b := DataText(us), |Body(us)|;
            Clean(d) == d && |d| == b + 11 && FindBlock("@data=", d) == Some(Found(0, Block(8, b, b + 11))) && DataSection(d) == Some(d)
  {
    hide Regular, Body, FindBlock, KeptOk, Clean, Lacks;
    var d, b := DataText(us), Body(us);
    BodyRegular(us);
    RegularFound("@data=", b, "");
    assert "@data=" + "{{" + b + "}};" + "" == d;
    OneLineData(b);
    CleanPlain(d);
    assert d[0..0 + |d|] == d;
  }

  lemma {:induction false} OneLineData(b: string)
    requires Regular(b)
    ensures OneLine("@data={{" + b + "}};")
  {
    hide Lacks;
  }

  lemma {:induction false} RegularFound(tag: string, t: string, r: string)
    requires Regular(t)
    ensures FindBlock(tag, tag + "{{" + t + "}};" + r) == Some(Found(0, Block(|tag| + 2, |t|, |tag| + |t| + 5)))
  {
    BlockFound(tag, t, r);
  }

  lemma {:induction false} BeforeData(t: string, d: string)
    requires NoStart(t, "}};" + d, "@data=")
    ensures NoStart("@header={{" + t + "}};", d, "@data=")
  {
    hide NoStart;
    NoStartFirst("}};", d, "@data=");
    NoStartConcat(t, "}};", d, "@data=");
    HeaderTag(t + "}};" + d);
    assert "@header={{" + t + "}};" == "@header={{" + (t + "}};");
    assert (t + "}};") + d == t + "}};" + d;
    NoStartConcat("@header={{", t + "}};", d, "@data=");
  }

  lemma {:induction false} HeaderTag(r: string)
    ensures NoStart("@header={{", r, "@data=")
  {
    var tag := "@data=";
    forall i | 0 <= i < 10 ensures !StartsWith("@header={{"[i..] + r, tag) {
      var t := "@header={{"[i..] + r;
      assert t[0] == "@header={{"[i];
      if StartsWith(t, tag) {
        FirstChar(t, tag);
        PrefixIs(t, tag);
      }
    }
  }

  lemma {:induction false} PrefixIs(t: string, tag: string)
    requires StartsWith(t, tag) && |tag| > 1
    ensures t[1] == tag[1]
  {
    assert t[..|tag|][1] == tag[1];
  }
}
