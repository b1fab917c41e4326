// What parsing printed text gives back, and exactly when it is the original.
module TextTheorems {
  import opened Outcomes
  import opened TextScan
  import opened TextContainers
  import opened TextPieces
  import opened TextResults

  // The header of printed text whose printed fields are plain comes back
  // trimmed, and without the ids of a plain data container, whatever data
  // follows it.
  lemma {:induction false} ParsedHeader(h: Header, d: string, headerOnly: bool)
    requires HeaderPlain(h)
    ensures Parse(Print(h, d), headerOnly).0.header == Returned(h)
  {
    hide FindBlock, Clean, HeaderText, SetFields, HeaderPlain, Returned, DataSection, Units;
    HeaderFound(h, d);
    PlainHeader(h);
    assert Print(h, d) != "";
  }

  predicate HeaderTidy(h: Header) {
    Tidy(h.targetId) && Tidy(h.targetSub) && Tidy(h.sourceId) && Tidy(h.sourceSub) &&
    Tidy(h.messageType) && Tidy(h.version)
  }

  predicate NoIds(h: Header) {
    h.targetId == h.targetSub == h.sourceId == h.sourceSub == ""
  }

  // Of any header, printed in front of any data, the same header is parsed
  // exactly when its six fields are plain and have no blank at an end, and a
  // plain data container has no ids.
  lemma {:induction false} HeaderBack(h: Header, d: string, headerOnly: bool)
    ensures Parse(Print(h, d), headerOnly).0.header == h <==>
              AllPlain(h) && HeaderTidy(h) && (h.messageType == DATA_CONTAINER ==> NoIds(h))
  {
    hide Parse, Print, Plain, Returned, HeaderTidy, NoIds;
    HeadersPlain(Print(h, d), headerOnly);
    if AllPlain(h) {
      PrintedToo(h);
      ParsedHeader(h, d, headerOnly);
      ReturnedSame(h);
    }
  }

  lemma {:induction false} PrintedToo(h: Header)
    requires AllPlain(h)
    ensures HeaderPlain(h)
  {
    hide Plain;
  }

  lemma {:induction false} ReturnedSame(h: Header)
    ensures Returned(h) == h <==> HeaderTidy(h) && (h.messageType == DATA_CONTAINER ==> NoIds(h))
  {
    hide Trim, Tidy;
    TrimTidy(h.targetId);
    TrimTidy(h.targetSub);
    TrimTidy(h.sourceId);
    TrimTidy(h.sourceSub);
    TrimTidy(h.messageType);
    TrimTidy(h.version);
    AlwaysTidy();
  }

  lemma {:induction false} AlwaysTidy()
    ensures Tidy("") && Tidy(DATA_CONTAINER)
  {
  }

  // Printed values with words for names and types and plain texts come back in
  // order, less the spaces in front of their texts.
  lemma {:induction false} ValuesBack(h: Header, us: seq<Unit>)
    requires DataFree(h) && UnitsOk(us)
    ensures var st := Parse(Print(h, DataText(us)), false).0; st.units == Stripped(us) && st.data == DataText(us) && st.parsed
  {
    hide Print, DataText, DataSection, ParseHeader, Clean, Units, DataFree, UnitsOk, KeptOk, FindBlock;
    OkIsKept(us);
    KeptSection(us);
    DataFound(h, DataText(us));
    UnitsOfData(us);
    NotEmpty(h, DataText(us));
  }

  lemma {:induction false} NotEmpty(h: Header, d: string)
    ensures Print(h, d) != ""
  {
  }

  // Of any values, printed behind a header that holds no data tag, the same
  // values are parsed exactly when their names and types are words and their
  // texts are plain and do not start with a space.
  lemma {:induction false} UnitsBack(h: Header, us: seq<Unit>)
    requires DataFree(h)
    ensures Parse(Print(h, DataText(us)), false).0.units == us <==> UnitsOk(us) && NoLeadingSpace(us)
  {
    hide Parse, Print, DataText, UnitsOk, NoLeadingSpace, Stripped;
    ValuesFound(Print(h, DataText(us)));
    if UnitsOk(us) {
      ValuesBack(h, us);
      StrippedSame(us);
    }
  }

  lemma {:induction false} StrippedSame(us: seq<Unit>)
    ensures Stripped(us) == us <==> NoLeadingSpace(us)
  {
    hide Spaces;
    if us != [] {
      var tail, v := us[1..], us[0].text;
      StrippedSame(tail);
      SpacesBound(v);
      assert us == [us[0]] + tail;
      assert Stripped(us)[1..] == Stripped(tail);
      assert Strip(v) == v <==> Spaces(v) == 0;
      if NoLeadingSpace(us) {
        assert forall i :: 0 <= i < |tail| ==> tail[i] == us[i + 1];
      }
      if NoLeadingSpace(tail) && Spaces(v) == 0 {
        forall i | 0 <= i < |us| ensures Spaces(us[i].text) == 0 {
          if i > 0 { assert us[i] == tail[i - 1]; }
        }
      }
    }
  }

  // ---- Header-only parsing ----

  // Parts of a section's body that hold nothing that ends it.
  lemma {:induction false} UnitPartsOk(u: Unit)
    requires PartOk(UnitText(u))
    ensures PartOk(u.name) && PartOk(u.typ) && PartOk(u.text)
  {
    hide Lacks, UnitText;
    var s, b, c := UnitSlices(u, "");
    assert s == UnitText(u);
    OkPart(s, 1, b - 1);
    OkPart(s, b, c - 1);
    OkPart(s, c, c + |u.text|);
  }

  lemma {:induction false} OkPart(s: string, i: nat, j: nat)
    requires i <= j <= |s| && PartOk(s)
    ensures PartOk(s[i..j])
  {
    hide Lacks;
    PartLacks(s, "};", i, j);
    PartOneLine(s, i, j);
  }

  lemma {:induction false} BodyPartsOk(us: seq<Unit>)
    requires PartOk(Body(us))
    ensures KeptOk(us)
  {
    hide PartOk, UnitText;
    if us != [] {
      var a, b := UnitText(us[0]), Body(us[1..]);
      OkPart(a + b, 0, |a|);
      OkPart(a + b, |a|, |a + b|);
      assert (a + b)[0..|a|] == a && (a + b)[|a|..|a + b|] == b;
      UnitPartsOk(us[0]);
      BodyPartsOk(us[1..]);
      assert forall i :: 0 < i < |us| ==> us[i] == us[1..][i - 1];
    }
  }

  // The section that is kept is the one printed exactly when no part of a
  // value holds a newline or what ends a section.
  lemma {:induction false} SectionKept(h: Header, us: seq<Unit>)
    requires DataFree(h)
    ensures DataSection(Clean(Print(h, DataText(us)))) == Some(DataText(us)) <==> KeptOk(us)
  {
    hide Print, DataText, DataSection, Clean, DataFree, KeptOk, EndsOnly, OneLine, FindBlock;
    var d := DataText(us);
    DataFound(h, d);
    CleanOneLine(d);
    if KeptOk(us) {
      KeptSection(us);
    }
    if DataSection(Clean(d)) == Some(d) {
      SectionFacts(Clean(d));
      BodyOk(us);
      BodyPartsOk(us);
    }
  }

  lemma {:induction false} BodyOk(us: seq<Unit>)
    requires OneLine(DataText(us)) && EndsOnly(DataText(us))
    ensures PartOk(Body(us))
  {
    hide Lacks, OneLine, EndsOnly, Body;
    var d, b := DataText(us), Body(us);
    assert d[8..8 + |b|] == b;
    PartOneLine(d, 8, 8 + |b|);
    EndsLacks(d, 8, 8 + |b|);
  }

  function TrimFields(fs: seq<Field>): seq<Field> {
    if fs == [] then [] else [fs[0].(text := Trim(fs[0].text))] + TrimFields(fs[1..])
  }

  predicate FieldsTidy(fs: seq<Field>) {
    forall i :: 0 <= i < |fs| ==> Tidy(fs[i].text)
  }

  lemma {:induction false} TrimmedShorter(fs: seq<Field>)
    ensures |PairsText(TrimFields(fs))| <= |PairsText(fs)|
    ensures |PairsText(TrimFields(fs))| == |PairsText(fs)| ==> FieldsTidy(fs)
    ensures FieldsTidy(fs) ==> TrimFields(fs) == fs
  {
    hide Trim, Tidy;
    if fs != [] {
      var tail := fs[1..];
      TrimTidy(fs[0].text);
      TrimmedShorter(tail);
      assert TrimFields(fs)[1..] == TrimFields(tail);
      assert fs == [fs[0]] + tail;
      if FieldsTidy(tail) && Tidy(fs[0].text) {
        forall i | 0 <= i < |fs| ensures Tidy(fs[i].text) {
          if i > 0 { assert fs[i] == tail[i - 1]; }
        }
      }
      if FieldsTidy(fs) {
        assert forall i :: 0 <= i < |tail| ==> tail[i] == fs[i + 1];
      }
    }
  }

  lemma {:induction false} PairsConcat(a: seq<Field>, b: seq<Field>)
    ensures PairsText(a + b) == PairsText(a) + PairsText(b)
  {
    hide PairText;
    if a == [] {
      assert a + b == b;
    } else {
      assert (a + b)[1..] == a[1..] + b;
      PairsConcat(a[1..], b);
    }
  }

  lemma {:induction false} TrimConcat(a: seq<Field>, b: seq<Field>)
    ensures TrimFields(a + b) == TrimFields(a) + TrimFields(b)
  {
    hide Trim;
    if a == [] {
      assert a + b == b;
    } else {
      assert (a + b)[1..] == a[1..] + b;
      TrimConcat(a[1..], b);
    }
  }

  lemma {:induction false} TrimTwo(fs: seq<Field>)
    requires |fs| == 2
    ensures TrimFields(fs) == [fs[0].(text := Trim(fs[0].text)), fs[1].(text := Trim(fs[1].text))]
  {
    hide Trim;
    assert TrimFields(fs[1..]) == [fs[1].(text := Trim(fs[1].text))] + TrimFields(fs[1..][1..]);
  }

  // The fields printed after a return trip are the trimmed ones, less the ids
  // if the message type was trimmed to that of a plain container.
  lemma {:induction false} ReturnedShorter(h: Header)
    ensures |HeaderText(Returned(h))| <= |PairsText(TrimFields(Fields(h)))|
  {
    hide Trim, PairText, PairsText, TrimFields;
    assert Trim(DATA_CONTAINER) == DATA_CONTAINER by { TrimTidy(DATA_CONTAINER); AlwaysTidy(); }
    var to := [Field("1", h.targetId), Field("2", h.targetSub)];
    var from := [Field("3", h.sourceId), Field("4", h.sourceSub)];
    var rest := [Field("5", h.messageType), Field("6", h.version)];
    TrimTwo(to);
    TrimTwo(from);
    TrimTwo(rest);
    if h.messageType == DATA_CONTAINER {
      assert Fields(h) == rest;
      assert Fields(Returned(h)) == TrimFields(rest);
    } else {
      assert Fields(h) == to + from + rest;
      TrimConcat(to + from, rest);
      TrimConcat(to, from);
      PairsConcat(TrimFields(to) + TrimFields(from), TrimFields(rest));
      assert Fields(Returned(h)) == TrimFields(rest) ||
             Fields(Returned(h)) == TrimFields(to) + TrimFields(from) + TrimFields(rest);
    }
  }

  // A header-only parse keeps the data section as printed exactly when no part
  // of a value holds a newline or what ends a section, and what it keeps
  // prints as the same text exactly when besides no printed field has a blank
  // at an end.
  lemma {:induction false} Reprinted(h: Header, us: seq<Unit>)
    requires HeaderPlain(h) && DataFree(h)
    ensures var s := Print(h, DataText(us)); var (st, ok) := Parse(s, true);
            ok && !st.parsed && (st.data == DataText(us) <==> KeptOk(us)) &&
            (TextOf(st) == s <==> KeptOk(us) && FieldsTidy(Fields(h)))
  {
    hide Print, DataText, DataSection, ParseHeader, Clean, DataFree, HeaderPlain, Returned, KeptOk, HeaderText, FieldsTidy, Fields, PairsText, Units;
    var d := DataText(us);
    NotEmpty(h, d);
    ParsedHeader(h, d, true);
    SectionKept(h, us);
    DataFound(h, d);
    SomeSection(us);
    HeaderTextKept(h);
    ReturnedShorter(h);
    TrimmedShorter(Fields(h));
    HeaderIs(h);
    PrintShorter(Returned(h), h, DataSection(Clean(d)).value, d);
  }

  lemma {:induction false} HeaderIs(h: Header)
    ensures HeaderText(h) == PairsText(Fields(h))
  {
  }

  lemma {:induction false} SomeSection(us: seq<Unit>)
    ensures DataSection(Clean(DataText(us))).Some? && |DataSection(Clean(DataText(us))).value| <= |DataText(us)|
  {
    hide Clean, DataSection, Body;
    var b := Body(us);
    CleanOneLine(b);
    CleanPlain("@data={{");
    CleanPlain("}};");
    CleanConcat("@data={{", b);
    CleanConcat("@data={{" + b, "}};");
    SectionFound(Clean(b));
  }

  // Text printed from a header text and data that are no longer.
  lemma {:induction false} PrintShorter(g: Header, h: Header, c: string, d: string)
    requires |HeaderText(g)| <= |HeaderText(h)| && |c| <= |d|
    ensures Print(g, c) == Print(h, d) <==> HeaderText(g) == HeaderText(h) && c == d
  {
    hide HeaderText;
    var a, b := HeaderText(g), HeaderText(h);
    assert |Print(g, c)| == |a| + |c| + 13 && |Print(h, d)| == |b| + |d| + 13;
    if Print(g, c) == Print(h, d) {
      assert Print(g, c)[10..10 + |a|] == a && Print(h, d)[10..10 + |b|] == b;
      assert Print(g, c)[13 + |a|..] == c && Print(h, d)[13 + |b|..] == d;
    }
  }

  lemma {:induction false} HeaderTextKept(h: Header)
    ensures HeaderText(Returned(h)) == HeaderText(h) <==> FieldsTidy(Fields(h))
  {
    hide PairsText, Trim, Tidy;
    ReturnedShorter(h);
    TrimmedShorter(Fields(h));
    if FieldsTidy(Fields(h)) {
      TidyKept(h);
    }
  }

  lemma {:induction false} TidyKept(h: Header)
    requires FieldsTidy(Fields(h))
    ensures Fields(Returned(h)) == Fields(h)
  {
    hide Trim, Tidy;
    var fs := Fields(h);
    if h.messageType == DATA_CONTAINER {
      TrimTidy(fs[1].text);
    } else {
      TrimTidy(fs[0].text);
      TrimTidy(fs[1].text);
      TrimTidy(fs[2].text);
      TrimTidy(fs[3].text);
      TrimTidy(fs[4].text);
      TrimTidy(fs[5].text);
    }
  }
}
