// What the text format carries, by the codes of the characters and by text
// written out.
module TextFormat {
  import opened Outcomes
  import opened TextScan
  import opened TextContainers
  import opened TextPieces
  import opened TextResults
  import opened TextTheorems
  import opened TextViews
  import opened TextPatterns

  predicate Words(s: string) {
    WordSpan(s, 0, |s|)
  }

  predicate NoPair(s: string, m: int, n: int) {
    forall i, j :: 0 <= i < |s| && j == i + 1 < |s| && s[i] as int == m ==> s[j] as int != n
  }

  // No newline, no "];" and no "};".
  predicate TextCarried(s: string) {
    LineSpan(s, 0, |s|) && NoPair(s, 93, 59) && NoPair(s, 125, 59)
  }

  predicate ValueCarried(u: Unit) {
    Words(u.name) && Words(u.typ) && TextCarried(u.text)
  }

  // Exactly n spaces stand in front of v.
  predicate LeadingSpaces(v: string, n: nat) {
    SpaceSpan(v, 0, n) && (n < |v| ==> !SpaceCode(v[n] as int))
  }

  lemma {:induction false} WordsSame(s: string)
    ensures IsWord(s) <==> Words(s)
  {
    if IsWord(s) {
      forall k | 0 <= k < |s| ensures WordCode(s[k] as int) {
        assert s[k] in s;
        Classes(s[k]);
      }
    }
    if Words(s) {
      forall c | c in s ensures IsWordChar(c) {
        var k :| 0 <= k < |s| && s[k] == c;
        Classes(c);
      }
    }
  }

  lemma {:induction false} LineSame(s: string)
    ensures OneLine(s) <==> LineSpan(s, 0, |s|)
  {
    if OneLine(s) {
      forall k | 0 <= k < |s| ensures !LineCode(s[k] as int) {
        assert s[k] in s;
        Classes(s[k]);
      }
    }
    if LineSpan(s, 0, |s|) {
      forall c | c in s ensures !IsNewline(c) {
        var k :| 0 <= k < |s| && s[k] == c;
        Classes(c);
      }
    }
  }

  lemma {:induction false} PairSame(s: string, p: string)
    requires |p| == 2
    ensures Lacks(s, p) <==> NoPair(s, p[0] as int, p[1] as int)
  {
    if Lacks(s, p) {
      forall i, j | 0 <= i < |s| && j == i + 1 < |s| && s[i] as int == p[0] as int ensures s[j] as int != p[1] as int {
        assert !StartsWith(s[i..], p);
        assert s[i..][..2] == [s[i], s[j]] && p == [p[0], p[1]];
      }
    }
    if NoPair(s, p[0] as int, p[1] as int) {
      forall i | 0 <= i <= |s| ensures !StartsWith(s[i..], p) {
        if i + 1 < |s| {
          assert s[i..][..2] == [s[i], s[i + 1]] && p == [p[0], p[1]];
        }
      }
    }
  }

  lemma {:induction false} PlainSame(s: string)
    ensures Plain(s) <==> TextCarried(s)
  {
    hide Lacks, OneLine, NoPair, LineSpan;
    LineSame(s);
    PairSame(s, "];");
    PairSame(s, "};");
  }

  lemma {:induction false} UnitsSame(us: seq<Unit>)
    ensures UnitsOk(us) <==> forall i :: 0 <= i < |us| ==> ValueCarried(us[i])
  {
    hide IsWord, Words, Plain, TextCarried;
    forall i | 0 <= i < |us| ensures UnitOk(us[i]) <==> ValueCarried(us[i]) {
      WordsSame(us[i].name);
      WordsSame(us[i].typ);
      PlainSame(us[i].text);
    }
  }

  // There is one such number, and it is the scanner's.
  lemma {:induction false} LeadingOnce(v: string, n: nat)
    ensures LeadingSpaces(v, n) <==> n == Spaces(v)
  {
    assert v[0..] == v;
    SpacesPart(v, 0);
    if Spaces(v) < |v| {
      Classes(v[Spaces(v)]);
    }
  }

  // ---- The header in front ----

  // The fields that are printed.
  function PrintedFields(h: Header): seq<string> {
    if h.messageType == "data_container" then [h.messageType, h.version]
    else [h.targetId, h.targetSub, h.sourceId, h.sourceSub, h.messageType, h.version]
  }

  // No printed field holds the data tag once newlines are taken out.
  predicate NoDataTag(h: Header) {
    forall t, i, j :: t in PrintedFields(h) && 0 <= i <= j <= |Clean(t)| ==> Clean(t)[i..j] != "@data="
  }

  lemma {:induction false} TagSame(s: string)
    ensures Lacks(s, "@data=") <==> forall i, j :: 0 <= i <= j <= |s| ==> s[i..j] != "@data="
  {
    if Lacks(s, "@data=") {
      forall i, j | 0 <= i <= j <= |s| ensures s[i..j] != "@data=" {
        assert !StartsWith(s[i..], "@data=");
        assert s[i..][..j - i] == s[i..j];
      }
    }
    if forall i, j :: 0 <= i <= j <= |s| ==> s[i..j] != "@data=" {
      forall i | 0 <= i <= |s| ensures !StartsWith(s[i..], "@data=") {
        assert i + 6 <= |s| ==> s[i..][..6] == s[i..i + 6];
      }
    }
  }

  lemma {:induction false} TagFree(h: Header)
    requires NoDataTag(h)
    ensures DataFree(h)
  {
    hide Lacks, Clean;
    forall i | 0 <= i < |Fields(h)| ensures Lacks(Clean(Fields(h)[i].text), "@data=") {
      var t := Fields(h)[i].text;
      assert t in PrintedFields(h) by { FieldPrinted(h, i); }
      TagSame(Clean(t));
    }
  }

  lemma {:induction false} FieldPrinted(h: Header, i: nat)
    requires i < |Fields(h)|
    ensures Fields(h)[i].text in PrintedFields(h)
  {
    var t, ts := Fields(h)[i].text, PrintedFields(h);
    assert t == ts[i];
  }

  // ---- Theorems ----

  // Printed values whose names and types are words and whose texts the format
  // carries come back in order, less the spaces in front of their texts.
  lemma {:induction false} ParsedValues(h: Header, us: seq<Unit>)
    requires NoDataTag(h) && forall i :: 0 <= i < |us| ==> ValueCarried(us[i])
    ensures var st := Parse(Print(h, DataText(us)), false).0;
            st.parsed && st.data == DataText(us) && |st.units| == |us| &&
            forall i, n: nat :: 0 <= i < |us| && LeadingSpaces(us[i].text, n) ==>
              st.units[i] == Unit(us[i].name, us[i].typ, us[i].text[n..])
  {
    hide Parse, Print, DataText, NoDataTag, DataFree, UnitsOk, ValueCarried, Spaces;
    TagFree(h);
    UnitsSame(us);
    ValuesBack(h, us);
    forall i, n: nat | 0 <= i < |us| && LeadingSpaces(us[i].text, n)
      ensures Stripped(us)[i] == Unit(us[i].name, us[i].typ, us[i].text[n..])
    {
      LeadingOnce(us[i].text, n);
      StrippedAt(us, i);
    }
  }

  lemma {:induction false} StrippedAt(us: seq<Unit>, i: nat)
    requires i < |us|
    ensures Stripped(us)[i] == us[i].(text := Strip(us[i].text))
  {
    hide Strip;
    if i > 0 {
      StrippedAt(us[1..], i - 1);
      assert Stripped(us)[1..] == Stripped(us[1..]);
    }
  }

  // Of any values at all, the same ones are parsed exactly when each name and
  // type is a word and each text is carried and does not start with a space.
  lemma {:induction false} UnitsRestored(h: Header, us: seq<Unit>)
    requires NoDataTag(h)
    ensures Parse(Print(h, DataText(us)), false).0.units == us <==>
              forall i :: 0 <= i < |us| ==> ValueCarried(us[i]) && LeadingSpaces(us[i].text, 0)
  {
    hide Parse, Print, DataText, NoDataTag, DataFree, UnitsOk, ValueCarried, LeadingSpaces, Spaces;
    TagFree(h);
    UnitsSame(us);
    UnitsBack(h, us);
    forall i | 0 <= i < |us| ensures LeadingSpaces(us[i].text, 0) <==> Spaces(us[i].text) == 0 {
      LeadingOnce(us[i].text, 0);
    }
  }

  // No blank at either end.
  predicate NoBlankEnds(s: string) {
    s != "" ==> s[0] as int != 32 && s[|s| - 1] as int != 32
  }

  predicate FieldCarried(s: string) {
    TextCarried(s) && NoBlankEnds(s)
  }

  // Of any header in front of any data, the same header is parsed exactly when
  // its six fields are carried and a plain data container has no ids.
  lemma {:induction false} HeaderRestored(h: Header, d: string, headerOnly: bool)
    ensures Parse(Print(h, d), headerOnly).0.header == h <==>
              FieldCarried(h.targetId) && FieldCarried(h.targetSub) && FieldCarried(h.sourceId) &&
              FieldCarried(h.sourceSub) && FieldCarried(h.messageType) && FieldCarried(h.version) &&
              (h.messageType == "data_container" ==>
                 h.targetId == "" && h.targetSub == "" && h.sourceId == "" && h.sourceSub == "")
  {
    hide Parse, Print, Plain, Tidy, FieldCarried;
    HeaderBack(h, d, headerOnly);
    FieldSame(h.targetId);
    FieldSame(h.targetSub);
    FieldSame(h.sourceId);
    FieldSame(h.sourceSub);
    FieldSame(h.messageType);
    FieldSame(h.version);
  }

  lemma {:induction false} FieldSame(s: string)
    ensures FieldCarried(s) <==> Plain(s) && Tidy(s)
  {
    hide Plain, TextCarried;
    PlainSame(s);
  }

  // A view shows the first value of its name: of a text behind n spaces, as
  // many characters as the parser keeps, but from the front.
  lemma {:induction false} ViewIsFirst(h: Header, us: seq<Unit>, key: string, i: nat, n: nat)
    requires NoDataTag(h) && LineSpan(HeaderText(h), 0, |HeaderText(h)|) && forall j :: 0 <= j < |us| ==> ValueCarried(us[j])
    requires i <= |us| && (forall j :: 0 <= j < i ==> us[j].name != key)
    requires i < |us| ==> us[i].name == key && LeadingSpaces(us[i].text, n)
    ensures var s := Print(h, DataText(us));
            Inside(s, RawIndex(s)) &&
            ViewOf(s, RawIndex(s), key) == if i == |us| then None else Some(us[i].text[..|us[i].text| - n])
  {
    hide Print, DataText, NoDataTag, DataFree, UnitsOk, ValueCarried, LeadingSpaces, Spaces, HeaderText, LineSpan, OneLine, Inside, RawIndex, ViewOf, First;
    TagFree(h);
    UnitsSame(us);
    LineSame(HeaderText(h));
    FirstView(h, us, key);
    FirstAt(us, key, i);
    if i < |us| {
      LeadingOnce(us[i].text, n);
    }
  }

  lemma {:induction false} FirstAt(us: seq<Unit>, key: string, i: nat)
    requires i <= |us| && (forall j :: 0 <= j < i ==> us[j].name != key) && (i < |us| ==> us[i].name == key)
    ensures First(us, key) == if i == |us| then None else Some(us[i])
  {
    if i > 0 {
      assert us[0].name != key;
      FirstAt(us[1..], key, i - 1);
    }
  }

  // Of such a text the parser keeps all behind the spaces, and so the view
  // and the parser agree exactly when there are none or nothing but spaces.
  lemma {:induction false} PrintedViews(h: Header, us: seq<Unit>, key: string, i: nat, n: nat)
    requires NoDataTag(h) && LineSpan(HeaderText(h), 0, |HeaderText(h)|) && forall j :: 0 <= j < |us| ==> ValueCarried(us[j])
    requires i < |us| && us[i].name == key && (forall j :: 0 <= j < i ==> us[j].name != key)
    requires LeadingSpaces(us[i].text, n)
    ensures var s := Print(h, DataText(us));
            var eager := Lookup(Parse(s, false).0.units, key);
            Inside(s, RawIndex(s)) && eager == Some(us[i].text[n..]) &&
            (ViewOf(s, RawIndex(s), key) == eager <==> n == 0 || n == |us[i].text|)
  {
    hide Parse, Print, DataText, NoDataTag, DataFree, UnitsOk, ValueCarried, LeadingSpaces, Spaces, HeaderText, LineSpan, OneLine, Inside, RawIndex, ViewOf, First, Lookup, Stripped;
    TagFree(h);
    UnitsSame(us);
    LineSame(HeaderText(h));
    FirstAt(us, key, i);
    LeadingOnce(us[i].text, n);
    ValuesBack(h, us);
    LookupStripped(us, key);
    ViewsAgree(h, us, key);
  }

  // ---- Text written out ----

  // Newlines are taken out and every other character stays, in order.
  lemma {:induction false} CleanInTurn(a: string, b: string, c: char)
    ensures Clean(a + b) == Clean(a) + Clean(b) && Clean("") == ""
    ensures Clean([c]) == if LineCode(c as int) then "" else [c]
  {
    CleanConcat(a, b);
    Classes(c);
    assert [c][1..] == "";
  }

  predicate BlankSpan(s: string, i: int, j: int) {
    0 <= i <= j <= |s| && forall k :: i <= k < j ==> s[k] as int == 32
  }

  // A field is trimmed to s[i..j]: blanks on both sides, none at the ends.
  predicate TrimmedTo(s: string, i: int, j: int) {
    BlankSpan(s, 0, i) && BlankSpan(s, j, |s|) && i <= j && NoBlankEnds(s[i..j])
  }

  lemma {:induction false} TrimIs(s: string)
    ensures exists i, j :: TrimmedTo(s, i, j) && Trim(s) == s[i..j]
  {
    var i := LeftBlanks(s);
    var t := TrimLeft(s);
    var n := RightBlanks(t);
    assert t[..n] == s[i..i + n];
    assert TrimmedTo(s, i, i + n) by {
      forall k | i + n <= k < |s| ensures s[k] as int == 32 {
        assert s[k] == t[k - i];
      }
      assert n > 0 ==> t[..n][0] == t[0];
    }
  }

  lemma {:induction false} LeftBlanks(s: string) returns (i: nat)
    ensures i <= |s| && TrimLeft(s) == s[i..] && BlankSpan(s, 0, i) && (i < |s| ==> s[i] as int != 32)
  {
    if s != "" && s[0] == ' ' {
      var k := LeftBlanks(s[1..]);
      i := k + 1;
      assert s[1..][k..] == s[i..];
      forall m | 0 <= m < i ensures s[m] as int == 32 {
        assert m > 0 ==> s[m] == s[1..][m - 1];
      }
    } else {
      i := 0;
    }
  }

  lemma {:induction false} RightBlanks(s: string) returns (n: nat)
    ensures n <= |s| && TrimRight(s) == s[..n] && BlankSpan(s, n, |s|) && (n > 0 ==> s[n - 1] as int != 32)
  {
    if s != "" && s[|s| - 1] == ' ' {
      n := RightBlanks(s[..|s| - 1]);
      assert s[..|s| - 1][..n] == s[..n];
      forall m | n <= m < |s| ensures s[m] as int == 32 {
        assert m < |s| - 1 ==> s[m] == s[..|s| - 1][m];
      }
    } else {
      n := |s|;
    }
  }

  // The printed header, field by field.
  lemma {:induction false} PrintedHeader(h: Header, d: string)
    ensures h.messageType != "data_container" ==>
              Print(h, d) == "@header={{" +
                ("[1," + h.targetId + "];" + ("[2," + h.targetSub + "];" + ("[3," + h.sourceId + "];" +
                ("[4," + h.sourceSub + "];" + ("[5," + h.messageType + "];" + ("[6," + h.version + "];" + "")))))) + "}};" + d
    ensures h.messageType == "data_container" ==>
              Print(h, d) == "@header={{" + ("[5," + h.messageType + "];" + ("[6," + h.version + "];" + "")) + "}};" + d
  {
    hide PairText, PairsText;
    FieldTexts(h);
    var f6 := [Field("6", h.version)];
    var f5 := [Field("5", h.messageType)] + f6;
    NoPairs();
    assert f6 == [Field("6", h.version)] + [];
    NextPair(Field("6", h.version), []);
    NextPair(Field("5", h.messageType), f6);
    if h.messageType != "data_container" {
      var f4 := [Field("4", h.sourceSub)] + f5;
      var f3 := [Field("3", h.sourceId)] + f4;
      var f2 := [Field("2", h.targetSub)] + f3;
      NextPair(Field("4", h.sourceSub), f5);
      NextPair(Field("3", h.sourceId), f4);
      NextPair(Field("2", h.targetSub), f3);
      NextPair(Field("1", h.targetId), f2);
      assert Fields(h) == [Field("1", h.targetId)] + f2;
    } else {
      assert Fields(h) == f5;
    }
  }

  lemma {:induction false} NoPairs()
    ensures PairsText([]) == ""
  {
  }

  lemma {:induction false} NextPair(f: Field, fs: seq<Field>)
    ensures PairsText([f] + fs) == PairText(f) + PairsText(fs)
  {
    assert ([f] + fs)[1..] == fs;
  }

  lemma {:induction false} FieldTexts(h: Header)
    ensures PairText(Field("1", h.targetId)) == "[1," + h.targetId + "];"
    ensures PairText(Field("2", h.targetSub)) == "[2," + h.targetSub + "];"
    ensures PairText(Field("3", h.sourceId)) == "[3," + h.sourceId + "];"
    ensures PairText(Field("4", h.sourceSub)) == "[4," + h.sourceSub + "];"
    ensures PairText(Field("5", h.messageType)) == "[5," + h.messageType + "];"
    ensures PairText(Field("6", h.version)) == "[6," + h.version + "];"
  {
    hide PairText;
    PairIs("1", h.targetId);
    PairIs("2", h.targetSub);
    PairIs("3", h.sourceId);
    PairIs("4", h.sourceSub);
    PairIs("5", h.messageType);
    PairIs("6", h.version);
    assert "[" + "1" + "," == "[1," && "[" + "2" + "," == "[2," && "[" + "3" + "," == "[3,";
    assert "[" + "4" + "," == "[4," && "[" + "5" + "," == "[5," && "[" + "6" + "," == "[6,";
  }

  lemma {:induction false} PairIs(k: string, v: string)
    ensures PairText(Field(k, v)) == "[" + k + "," + v + "];"
  {
  }

  // The printed values, one behind the other.
  lemma {:induction false} PrintedValues(us: seq<Unit>, u: Unit)
    ensures DataText([]) == "@data={{}};"
    ensures Body(us + [u]) == Body(us) + ("[" + u.name + "," + u.typ + "," + u.text + "];")
    ensures DataText(us + [u]) == "@data={{" + (Body(us) + ("[" + u.name + "," + u.typ + "," + u.text + "];")) + "}};"
  {
    BodyThen(us, u);
  }

  lemma {:induction false} BodyThen(us: seq<Unit>, u: Unit)
    ensures Body(us + [u]) == Body(us) + UnitText(u)
  {
    hide UnitText;
    if us == [] {
      assert [] + [u] == [u] && [u][1..] == [];
    } else {
      assert (us + [u])[1..] == us[1..] + [u];
      BodyThen(us[1..], u);
    }
  }

  // ---- Texts without sections ----

  // The pattern matches nowhere in t.
  ghost predicate NoMatch(tag: string, t: string) {
    forall i, c, p, e :: 0 <= i <= |t| ==> !SomeWay(tag, t[i..], c, p, e)
  }

  lemma {:induction false} NothingMatched(tag: string, t: string)
    ensures FindBlock(tag, t) == None <==> NoMatch(tag, t)
  {
    hide FindBlock, BlockHere, BlockWay;
    FirstBlock(tag, t);
    if FindBlock(tag, t).None? {
      forall i, c, p, e | 0 <= i <= |t| ensures !SomeWay(tag, t[i..], c, p, e) {
        if SomeWay(tag, t[i..], c, p, e) {
          var a, b, q :| BlockWay(tag, t[i..], a, b, c, p, q, e);
          WayInside(tag, t[i..], a, b, c, p, q, e);
          BlockIsFirst(tag, t[i..], a, b, c, p, q, e);
        }
      }
    } else {
      BlockIsWay(tag, t[FindBlock(tag, t).value.at..]);
    }
  }

  lemma {:induction false} WayInside(tag: string, s: string, a: int, b: int, c: int, p: int, q: int, e: int)
    requires BlockWay(tag, s, a, b, c, p, q, e)
    ensures 0 <= a && 0 <= b && 0 <= c && 0 <= p && 0 <= q && 0 <= e
  {
  }

  // What an empty text and texts without a header or a data section are
  // parsed as.
  lemma {:induction false} MissingSections(text: string, headerOnly: bool)
    ensures var (st, ok) := Parse(text, headerOnly);
            (text == "" ==>
               !ok && st == State(Header("", "", "", "", "data_container", "1.0"), [], "@data={{}};", true, false)) &&
            (text != "" && NoMatch("@header=", Clean(text)) ==>
               st.header == Header("", "", "", "", "data_container", "1.0")) &&
            (ok <==> text != "" && !NoMatch("@data=", Clean(text))) &&
            (text != "" && !ok ==> st.units == [] && st.data == "@data={{}}" && st.parsed && !st.changed)
  {
    hide FindBlock, Clean, NoMatch, SetFields, Units;
    NothingMatched("@header=", Clean(text));
    NothingMatched("@data=", Clean(text));
  }

  // The values are parsed at once unless only the header was asked for and
  // there is a data section; parsing changes nothing.
  lemma {:induction false} ParsedFlags(text: string, headerOnly: bool)
    ensures var (st, ok) := Parse(text, headerOnly); !st.changed && (st.parsed <==> !(headerOnly && ok))
  {
    hide FindBlock, Clean, SetFields, Units;
  }

  // get() returns the first value of the name.
  lemma {:induction false} LookupIsFirst(us: seq<Unit>, key: string, i: nat)
    requires i <= |us| && (forall j :: 0 <= j < i ==> us[j].name != key) && (i < |us| ==> us[i].name == key)
    ensures Lookup(us, key) == if i == |us| then None else Some(us[i].text)
  {
    if i > 0 {
      assert us[0].name != key;
      LookupIsFirst(us[1..], key, i - 1);
    }
  }

  // ---- Runs ----

  const BOB := Unit("User_id2", "string_value", "bob")

  // A name of letters of both cases, an underscore and a digit.
  lemma {:induction false} BobCarried()
    ensures ValueCarried(BOB) && LeadingSpaces(BOB.text, 0)
  {
  }

  // Its text, behind a blank header.
  function BobText(): string {
    "@header={{" + ("[5," + "data_container" + "];" + ("[6," + "1.0" + "];" + "")) + "}};" +
    ("@data={{" + ("" + ("[" + "User_id2" + "," + "string_value" + "," + "bob" + "];")) + "}};")
  }

  lemma {:induction false} BobPrinted()
    ensures Print(BLANK, DataText([BOB])) == BobText()
  {
    hide Print, DataText, Body;
    var us: seq<Unit> := [];
    assert us + [BOB] == [BOB];
    NoBody();
    PrintedValues(us, BOB);
    PrintedHeader(BLANK, DataText([BOB]));
  }

  lemma {:induction false} NoBody()
    ensures Body([]) == ""
  {
  }

  // It is printed so, parsed back and viewed.
  lemma {:induction false} BobRun()
    ensures var s := BobText();
            s == Print(BLANK, DataText([BOB])) && Parse(s, false).0.units == [BOB] && Lookup([BOB], "User_id2") == Some("bob") &&
            Inside(s, RawIndex(s)) && ViewOf(s, RawIndex(s), "User_id2") == Some("bob")
  {
    hide Parse, Print, DataText, NoDataTag, ValueCarried, LeadingSpaces, HeaderText, RawIndex, Inside, ViewOf;
    BobCarried();
    BobPrinted();
    BlankTagFree();
    UnitsRestored(BLANK, [BOB]);
    BlankFree();
    LineSame(HeaderText(BLANK));
    ViewIsFirst(BLANK, [BOB], "User_id2", 0, 0);
    assert BOB.text[..|BOB.text| - 0] == "bob";
  }

  lemma {:induction false} BlankTagFree()
    ensures NoDataTag(BLANK)
  {
    hide Clean;
    CleanPlain("data_container");
    CleanPlain("1.0");
    forall t, i, j | t in PrintedFields(BLANK) && 0 <= i <= j <= |Clean(t)| ensures Clean(t)[i..j] != "@data=" {
      assert Clean(t) == t && '@' !in t;
      if i < j { assert t[i..j][0] == t[i]; }
    }
  }
}
