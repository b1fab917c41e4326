// What parsing gives on any text at all: whatever the text, the parser can
// return only headers and values that the format can carry.
module TextResults {
  import opened Outcomes
  import opened TextScan
  import opened TextContainers
  import opened TextPieces

  // ---- Parts of a text ----

  lemma {:induction false} StartsPart(x: string, p: string, i: nat, j: nat, k: nat)
    requires i <= j <= |x| && k <= j - i
    ensures StartsWith(x[i..j][k..], p) ==> StartsWith(x[i + k..], p) && i + k + |p| <= j
  {
    assert x[i..j][k..] == x[i + k..j];
    assert |p| <= j - i - k ==> x[i + k..j][..|p|] == x[i + k..][..|p|];
  }

  lemma {:induction false} PartLacks(x: string, p: string, i: nat, j: nat)
    requires i <= j <= |x| && Lacks(x, p)
    ensures Lacks(x[i..j], p)
  {
    forall k | 0 <= k <= j - i ensures !StartsWith(x[i..j][k..], p) {
      StartsPart(x, p, i, j, k);
    }
  }

  lemma {:induction false} PartOneLine(x: string, i: nat, j: nat)
    requires i <= j <= |x| && OneLine(x)
    ensures OneLine(x[i..j])
  {
  }

  lemma {:induction false} LeftPart(s: string) returns (i: nat)
    ensures i <= |s| && TrimLeft(s) == s[i..]
  {
    if s != "" && s[0] == ' ' {
      var k := LeftPart(s[1..]);
      i := k + 1;
      assert s[1..][k..] == s[i..];
    } else {
      i := 0;
    }
  }

  lemma {:induction false} RightPart(s: string) returns (j: nat)
    ensures j <= |s| && TrimRight(s) == s[..j]
  {
    if s != "" && s[|s| - 1] == ' ' {
      j := RightPart(s[..|s| - 1]);
    } else {
      j := |s|;
    }
  }

  // A trimmed text is a part of the text.
  lemma {:induction false} TrimPart(s: string) returns (i: nat, j: nat)
    ensures i <= j <= |s| && Trim(s) == s[i..j]
  {
    i := LeftPart(s);
    var k := RightPart(s[i..]);
    j := i + k;
    assert s[i..][..k] == s[i..j];
  }

  // ---- Lazy groups ----

  // What ends the group when no space comes before it.
  function Mark(stop: Stop): string {
    if stop == Bracket then "];" else "};"
  }

  lemma {:induction false} MarkStops(stop: Stop, x: string)
    requires StartsWith(x, Mark(stop))
    ensures StopAt(stop, x).Some?
  {
    assert x[0] == Mark(stop)[0];
    assert Spaces(x) == 0 && x[0..] == x;
  }

  // Nothing ends a lazy group before its end, and no newline is in it.
  lemma {:induction false} LazyBefore(stop: Stop, s: string, n: nat, i: nat)
    requires Lazy(stop, s) == Some(n) && i < n
    ensures i < |s| && StopAt(stop, s[i..]) == None && !IsNewline(s[i])
    decreases i
  {
    hide StopAt;
    if i == 0 {
      assert s[0..] == s;
    } else {
      LazyBefore(stop, s[1..], n - 1, i - 1);
      assert s[1..][i - 1..] == s[i..];
    }
  }

  lemma {:induction false} GroupLacks(stop: Stop, s: string, n: nat)
    requires Lazy(stop, s) == Some(n)
    ensures Lacks(s[..n], Mark(stop))
  {
    hide StopAt, Lazy, StartsWith;
    forall i | 0 <= i <= n ensures !StartsWith(s[..n][i..], Mark(stop)) {
      StartsPart(s, Mark(stop), 0, n, i);
      if i < n {
        LazyBefore(stop, s, n, i);
        NotMarked(stop, s[i..]);
      }
    }
  }

  lemma {:induction false} NotMarked(stop: Stop, x: string)
    requires StopAt(stop, x) == None
    ensures !StartsWith(x, Mark(stop))
  {
    if StartsWith(x, Mark(stop)) {
      MarkStops(stop, x);
    }
  }

  lemma {:induction false} FoundHere(tag: string, s: string)
    requires FindBlock(tag, s).Some?
    ensures var f := FindBlock(tag, s).value; f.at <= |s| && BlockHere(tag, s[f.at..]) == Some(f.block)
  {
    hide BlockHere;
    if BlockHere(tag, s).Some? {
      assert s[0..] == s;
    } else {
      FoundHere(tag, s[1..]);
      var f := FindBlock(tag, s[1..]).value;
      assert s[1..][f.at..] == s[f.at + 1..];
    }
  }

  // Where the parts of a block begin: the opening brace at a, the end of the
  // braces at c.
  lemma {:induction false} BlockSteps(tag: string, s: string) returns (a: nat, c: nat)
    requires BlockHere(tag, s).Some?
    ensures StartsWith(s, tag) && a == |tag| + Spaces(s[|tag|..]) < |s| && s[a] == '{'
    ensures c == (if a + 1 < |s| && s[a + 1] == '{' then a + 2 else a + 1) && c <= |s|
    ensures var b := BlockHere(tag, s).value;
            b.start == c + Spaces(s[c..]) && b.start + b.len <= b.end <= |s| && Lazy(Braces, s[b.start..]) == Some(b.len) &&
            StopAt(Braces, s[b.start + b.len..]) == Some(b.end - b.start - b.len)
  {
    hide Lazy, StopAt, Spaces;
    a := |tag| + Spaces(s[|tag|..]);
    c := if a + 1 < |s| && s[a + 1] == '{' then a + 2 else a + 1;
  }

  lemma {:induction false} BlockBuilt(tag: string, s: string, a: nat, c: nat, from: nat, n: nat, k: nat)
    requires StartsWith(s, tag) && a == |tag| + Spaces(s[|tag|..]) < |s| && s[a] == '{'
    requires c == (if a + 1 < |s| && s[a + 1] == '{' then a + 2 else a + 1) && c <= |s| && from == c + Spaces(s[c..])
    requires from + n <= |s| && Lazy(Braces, s[from..]) == Some(n) && StopAt(Braces, s[from + n..]) == Some(k)
    ensures BlockHere(tag, s) == Some(Block(from, n, from + n + k))
  {
    hide Lazy, StopAt, Spaces, GroupHere;
    GroupBuilt(s, from, n, k);
  }

  lemma {:induction false} GroupBuilt(s: string, from: nat, n: nat, k: nat)
    requires from + n <= |s| && Lazy(Braces, s[from..]) == Some(n) && StopAt(Braces, s[from + n..]) == Some(k)
    ensures GroupHere(s, from) == Some(Block(from, n, from + n + k))
  {
    hide Lazy, StopAt;
    assert s[from..][n..] == s[from + n..];
  }

  // The parts of a block: the tag, spaces and opening braces, the group, and
  // what ends it.
  lemma {:induction false} BlockParts(tag: string, s: string)
    requires BlockHere(tag, s).Some?
    ensures var b := BlockHere(tag, s).value;
            StartsWith(s, tag) && |tag| < b.start && Lazy(Braces, s[b.start..]) == Some(b.len) &&
            StopAt(Braces, s[b.start + b.len..]) == Some(b.end - b.start - b.len) &&
            forall i :: |tag| <= i < b.start ==> IsSpace(s[i]) || s[i] == '{'
  {
    hide BlockHere, Lazy, StopAt, Spaces;
    var a, c := BlockSteps(tag, s);
    forall i | |tag| <= i < BlockHere(tag, s).value.start ensures IsSpace(s[i]) || s[i] == '{' {
      if i < a {
        SpaceAt(s, |tag|, i);
      } else if i >= c {
        SpaceAt(s, c, i);
      }
    }
  }

  lemma {:induction false} SpaceAt(s: string, from: nat, i: nat)
    requires from <= |s| && from <= i < from + Spaces(s[from..])
    ensures i < |s| && IsSpace(s[i])
  {
    assert s[from..][i - from] == s[i];
  }

  // A group lacks what ends it, and lies on one line with the text.
  lemma {:induction false} GroupOf(tag: string, s: string)
    requires FindBlock(tag, s).Some? && OneLine(s)
    ensures var f := FindBlock(tag, s).value;
            var inside := s[f.at + f.block.start..f.at + f.block.start + f.block.len];
            OneLine(inside) && Lacks(inside, "};")
  {
    hide FindBlock, BlockHere, Lazy, StopAt, Lacks, OneLine, StartsWith;
    var f := FindBlock(tag, s).value;
    var from, b := s[f.at..], f.block;
    FoundHere(tag, s);
    BlockParts(tag, from);
    GroupLacks(Braces, from[b.start..], b.len);
    assert from[b.start..][..b.len] == s[f.at + b.start..f.at + b.start + b.len];
    PartOneLine(s, f.at + b.start, f.at + b.start + b.len);
  }

  // ---- Headers ----

  predicate AllPlain(h: Header) {
    Plain(h.targetId) && Plain(h.targetSub) && Plain(h.sourceId) && Plain(h.sourceSub) &&
    Plain(h.messageType) && Plain(h.version)
  }

  lemma {:induction false} BlankPlain()
    ensures AllPlain(BLANK)
  {
    hide Plain;
    NoMarkPlain("");
    NoMarkPlain(DATA_CONTAINER);
    NoMarkPlain("1.0");
  }

  lemma {:induction false} NoMarkPlain(s: string)
    requires ';' !in s && OneLine(s)
    ensures Plain(s)
  {
    hide Lacks;
    LacksChar(s, "];");
    LacksChar(s, "};");
  }

  lemma {:induction false} TrimPlain(s: string)
    requires Plain(s)
    ensures Plain(Trim(s))
  {
    hide Lacks, Trim, OneLine;
    var i, j := TrimPart(s);
    PartOneLine(s, i, j);
    PartLacks(s, "];", i, j);
    PartLacks(s, "};", i, j);
  }

  lemma {:induction false} PairGroup(s: string)
    requires PairHere(s).Some?
    ensures var p := PairHere(s).value; Lazy(Bracket, s[p.start..]) == Some(p.len)
  {
    hide Lazy;
  }

  lemma {:induction false} SetPlain(h: Header, s: string)
    requires AllPlain(h) && PairHere(s).Some? && OneLine(s) && Lacks(s, "};")
    ensures var p := PairHere(s).value; AllPlain(SetField(h, s[1..1 + p.key], s[p.start..p.start + p.len]))
  {
    hide Lacks, Lazy, PairHere, OneLine, Trim;
    var p := PairHere(s).value;
    var v := s[p.start..p.start + p.len];
    PairGroup(s);
    GroupLacks(Bracket, s[p.start..], p.len);
    assert s[p.start..][..p.len] == v;
    PartLacks(s, "};", p.start, p.start + p.len);
    PartOneLine(s, p.start, p.start + p.len);
    TrimPlain(v);
  }

  lemma {:induction false} SetFieldsPlain(h: Header, s: string)
    requires AllPlain(h) && OneLine(s) && Lacks(s, "};")
    ensures AllPlain(SetFields(h, s))
    decreases |s|
  {
    hide AllPlain, PairHere, SetField, Lacks, OneLine;
    match PairHere(s)
    case Some(p) =>
      SetPlain(h, s);
      PartLacks(s, "};", p.end, |s|);
      PartOneLine(s, p.end, |s|);
      assert s[p.end..|s|] == s[p.end..];
      SetFieldsPlain(SetField(h, s[1..1 + p.key], s[p.start..p.start + p.len]), s[p.end..]);
    case None =>
      if s != "" {
        PartLacks(s, "};", 1, |s|);
        PartOneLine(s, 1, |s|);
        assert s[1..|s|] == s[1..];
        SetFieldsPlain(h, s[1..]);
      }
  }

  // Whatever the text, every field of the header that comes back is plain.
  lemma {:induction false} HeadersPlain(text: string, headerOnly: bool)
    ensures AllPlain(Parse(text, headerOnly).0.header)
  {
    hide AllPlain, FindBlock, SetFields, Clean, Lacks, OneLine, DataSection, Units;
    BlankPlain();
    var clean := Clean(text);
    CleanOneLine(text);
    match FindBlock("@header=", clean)
    case None =>
    case Some(f) =>
      GroupOf("@header=", clean);
      SetFieldsPlain(BLANK, clean[f.at + f.block.start..f.at + f.block.start + f.block.len]);
  }

  // ---- Values ----

  // The text that ends a section stands only at its end.
  predicate EndsOnly(s: string) {
    forall i :: 0 <= i < |s| - 2 ==> !StartsWith(s[i..], "};")
  }

  lemma {:induction false} EndsTail(s: string, n: nat)
    requires EndsOnly(s) && n <= |s|
    ensures EndsOnly(s[n..])
  {
    forall i | 0 <= i < |s[n..]| - 2 ensures !StartsWith(s[n..][i..], "};") {
      assert s[n..][i..] == s[n + i..];
    }
  }

  // Where a brace with a semicolon can stand behind a group.
  lemma {:induction false} StopEnds(y: string, i: nat)
    requires StopAt(Braces, y).Some? && i + 2 < StopAt(Braces, y).value <= |y|
    ensures y[i] != '}' || y[i + 1] != ';'
  {
    var n := Spaces(y);
    assert StopAt(Braces, y).value == n + 3 ==> y[n..][..3] == "}};";
    assert StopAt(Braces, y).value == n + 3 ==> y[n + 1] == y[n..][..3][1];
  }

  lemma {:induction false} MarkedAt(s: string, i: nat, a: char, b: char)
    requires i <= |s|
    ensures StartsWith(s[i..], [a, b]) <==> i + 1 < |s| && s[i] == a && s[i + 1] == b
  {
    if i + 1 < |s| {
      assert s[i..][..2] == [s[i], s[i + 1]];
    }
  }

  // No brace with a semicolon before the end of a section.
  lemma {:induction false} NotInSection(s: string, i: nat)
    requires BlockHere("@data=", s).Some? && i + 2 < BlockHere("@data=", s).value.end
    ensures s[i] != '}' || s[i + 1] != ';'
  {
    hide BlockHere, Lazy, StopAt;
    var b := BlockHere("@data=", s).value;
    var g := b.start + b.len;
    BlockParts("@data=", s);
    if i < 6 {
      assert s[i] == s[..6][i] == "@data="[i];
    } else if b.start <= i < g {
      LazyBefore(Braces, s[b.start..], b.len, i - b.start);
      assert s[b.start..][i - b.start..] == s[i..];
      NotMarked(Braces, s[i..]);
      MarkedAt(s, i, '}', ';');
    } else if i >= g {
      StopEnds(s[g..], i - g);
    }
  }

  lemma {:induction false} SectionEnds(s: string)
    requires BlockHere("@data=", s).Some?
    ensures EndsOnly(s[..BlockHere("@data=", s).value.end])
  {
    hide BlockHere, StartsWith;
    var d := s[..BlockHere("@data=", s).value.end];
    forall i | 0 <= i < |d| - 2 ensures !StartsWith(d[i..], "};") {
      NotInSection(s, i);
      MarkedAt(d, i, '}', ';');
    }
  }

  lemma {:induction false} ItemSteps(s: string)
    requires ItemHere(s).Some?
    ensures var i := ItemHere(s).value;
            i.name == Word(s[1..]) > 0 && i.typeStart <= |s| && i.typ == Word(s[i.typeStart..]) > 0 &&
            i.typeStart + i.typ < |s| && i.start == i.typeStart + i.typ + 1 + Spaces(s[i.typeStart + i.typ + 1..]) &&
            Lazy(Bracket, s[i.start..]) == Some(i.len) && i.end == i.start + i.len + 2
  {
    hide Lazy, Word, Spaces;
  }

  lemma {:induction false} ItemParts(s: string)
    requires ItemHere(s).Some?
    ensures var i := ItemHere(s).value;
            IsWord(s[1..1 + i.name]) && IsWord(s[i.typeStart..i.typeStart + i.typ]) &&
            Lazy(Bracket, s[i.start..]) == Some(i.len) && i.end == i.start + i.len + 2 &&
            (i.start < |s| ==> !IsSpace(s[i.start]))
  {
    hide ItemHere, Lazy, Word, Spaces, IsWord;
    var i := ItemHere(s).value;
    ItemSteps(s);
    WordAt(s, 1, i.name);
    WordAt(s, i.typeStart, i.typ);
    AfterSpaces(s, i.typeStart + i.typ + 1);
  }

  lemma {:induction false} AfterSpaces(s: string, k: nat)
    requires k <= |s|
    ensures var n := Spaces(s[k..]); k + n <= |s| && (k + n < |s| ==> !IsSpace(s[k + n]))
  {
    var n := Spaces(s[k..]);
    assert k + n < |s| ==> s[k..][n] == s[k + n];
  }

  lemma {:induction false} WordAt(s: string, i: nat, n: nat)
    requires i <= |s| && n == Word(s[i..]) > 0
    ensures i + n <= |s| && IsWord(s[i..i + n])
  {
    assert s[i..i + n] == s[i..][..n];
  }

  lemma {:induction false} ItemOk(s: string)
    requires ItemHere(s).Some? && OneLine(s) && EndsOnly(s)
    ensures var i := ItemHere(s).value;
            var u := Unit(s[1..1 + i.name], s[i.typeStart..i.typeStart + i.typ], s[i.start..i.start + i.len]);
            UnitOk(u) && Spaces(u.text) == 0
  {
    hide ItemHere, Lazy, IsWord, Lacks;
    var i := ItemHere(s).value;
    var v := s[i.start..i.start + i.len];
    ItemParts(s);
    GroupLacks(Bracket, s[i.start..], i.len);
    assert s[i.start..][..i.len] == v;
    PartOneLine(s, i.start, i.start + i.len);
    EndsLacks(s, i.start, i.start + i.len);
    assert v != "" ==> v[0] == s[i.start];
  }

  lemma {:induction false} EndsLacks(s: string, i: nat, j: nat)
    requires EndsOnly(s) && i <= j && j + 2 <= |s|
    ensures Lacks(s[i..j], "};")
  {
    forall k | 0 <= k <= j - i ensures !StartsWith(s[i..j][k..], "};") {
      StartsPart(s, "};", i, j, k);
    }
  }

  lemma {:induction false} UnitsFound(s: string)
    requires OneLine(s) && EndsOnly(s)
    ensures UnitsOk(Units(s)) && NoLeadingSpace(Units(s))
    decreases |s|
  {
    hide ItemHere, UnitOk, Spaces, EndsOnly, OneLine, Units;
    if s == "" {
      NoUnitsIn();
    } else {
      UnitsUnfold(s);
      var n := if ItemHere(s).Some? then ItemHere(s).value.end else 1;
      EndsTail(s, n);
      OneLineTail(s, n);
      UnitsFound(s[n..]);
      if ItemHere(s).Some? {
        ItemOk(s);
      }
    }
  }

  lemma {:induction false} NoUnitsIn()
    ensures Units("") == []
  {
  }

  // Whatever the text, every value that comes back has a word for a name and
  // for a type, and a plain text without spaces in front.
  lemma {:induction false} ValuesFound(text: string)
    ensures UnitsOk(Parse(text, false).0.units) && NoLeadingSpace(Parse(text, false).0.units)
  {
    hide ParseHeader, Clean, Units, UnitsOk, NoLeadingSpace, OneLine, EndsOnly, FindBlock;
    assert UnitsOk([]) && NoLeadingSpace([]) by { Nothing(); }
    CleanOneLine(text);
    if DataSection(Clean(text)).Some? {
      SectionFacts(Clean(text));
      UnitsFound(DataSection(Clean(text)).value);
    }
  }

  lemma {:induction false} Nothing()
    ensures UnitsOk([]) && NoLeadingSpace([])
  {
  }

  // The data section found in a text of one line.
  lemma {:induction false} SectionFacts(s: string)
    requires OneLine(s) && DataSection(s).Some?
    ensures var d := DataSection(s).value; OneLine(d) && EndsOnly(d) && |d| <= |s|
  {
    hide FindBlock, BlockHere, OneLine, EndsOnly;
    var f := FindBlock("@data=", s).value;
    FoundHere("@data=", s);
    SectionEnds(s[f.at..]);
    assert s[f.at..][..f.block.end] == s[f.at..f.at + f.block.end];
    PartOneLine(s, f.at, f.at + f.block.end);
  }

  // ---- A section found again in itself ----

  lemma {:induction false} SpacesCut(x: string, m: nat)
    requires m <= |x|
    ensures Spaces(x[..m]) == if Spaces(x) < m then Spaces(x) else m
  {
    if x != "" && m > 0 && IsSpace(x[0]) {
      SpacesCut(x[1..], m - 1);
      assert x[..m][1..] == x[1..][..m - 1];
    }
  }

  // What ends a group in a text cut short ends it in the whole text, and
  // conversely if it lies in what was left.
  lemma {:induction false} StopCut(x: string, m: nat)
    requires m <= |x|
    ensures StopAt(Braces, x[..m]).Some? ==> StopAt(Braces, x) == StopAt(Braces, x[..m])
    ensures StopAt(Braces, x).Some? && StopAt(Braces, x).value <= m ==> StopAt(Braces, x[..m]) == StopAt(Braces, x)
  {
    hide Spaces;
    SpacesCut(x, m);
    SpacesBound(x);
    var n := Spaces(x);
    if n < m {
      var y, z := x[n..], x[..m][n..];
      assert |z| == m - n && z == y[..m - n];
      assert |z| >= 2 ==> z[..2] == y[..2];
      assert |z| >= 3 ==> z[..3] == y[..3];
      assert StartsWith(z, "};") ==> y[1] == z[..2][1] == ';';
      assert StartsWith(y, "}};") ==> y[1] == y[..3][1] == '}';
    }
  }

  lemma {:induction false} LazyCut(x: string, n: nat, m: nat)
    requires Lazy(Braces, x) == Some(n) && m <= |x| && n + StopAt(Braces, x[n..]).value <= m
    ensures Lazy(Braces, x[..m]) == Some(n) && StopAt(Braces, x[..m][n..]) == StopAt(Braces, x[n..])
    decreases n
  {
    hide StopAt;
    StopCut(x, m);
    if n == 0 {
      assert x[0..] == x && x[..m][0..] == x[..m];
    } else {
      assert x[..m][1..] == x[1..][..m - 1] && x[1..][n - 1..] == x[n..];
      LazyCut(x[1..], n - 1, m - 1);
      assert x[..m][1..][n - 1..] == x[..m][n..];
    }
  }

  // A block is found again in the text cut at its end.
  lemma {:induction false} BlockAgain(tag: string, s: string)
    requires BlockHere(tag, s).Some?
    ensures var b := BlockHere(tag, s).value; BlockHere(tag, s[..b.end]) == Some(b)
  {
    hide BlockHere, Lazy, StopAt, Spaces;
    var b := BlockHere(tag, s).value;
    var d := s[..b.end];
    var a, c := BlockSteps(tag, s);
    assert d[..|tag|] == s[..|tag|];
    SpacesAgain(s, |tag|, b.end);
    SpacesAgain(s, c, b.end);
    LazyAgain(s, b.start, b.len, b.end);
    BlockBuilt(tag, d, a, c, b.start, b.len, b.end - b.start - b.len);
  }

  lemma {:induction false} SpacesAgain(s: string, from: nat, end: nat)
    requires from <= |s| && from + Spaces(s[from..]) <= end <= |s|
    ensures Spaces(s[..end][from..]) == Spaces(s[from..])
  {
    hide Spaces;
    SpacesCut(s[from..], end - from);
    assert s[..end][from..] == s[from..][..end - from];
  }

  lemma {:induction false} LazyAgain(s: string, from: nat, n: nat, end: nat)
    requires from + n <= end <= |s| && Lazy(Braces, s[from..]) == Some(n)
    requires StopAt(Braces, s[from + n..]) == Some(end - from - n)
    ensures Lazy(Braces, s[..end][from..]) == Some(n) && StopAt(Braces, s[..end][from + n..]) == Some(end - from - n)
  {
    hide Lazy, StopAt;
    assert s[from..][n..] == s[from + n..];
    LazyCut(s[from..], n, end - from);
    assert s[..end][from..] == s[from..][..end - from];
    assert s[from..][..end - from][n..] == s[..end][from + n..];
  }

  lemma {:induction false} SectionAgain(s: string)
    requires DataSection(s).Some?
    ensures DataSection(DataSection(s).value) == DataSection(s)
  {
    hide BlockHere;
    var f := FindBlock("@data=", s).value;
    var d := DataSection(s).value;
    FoundHere("@data=", s);
    BlockAgain("@data=", s[f.at..]);
    assert s[f.at..][..f.block.end] == d;
    assert d[0..0 + |d|] == d;
  }

  // ---- A data section is always found ----

  lemma {:induction false} LazyNow(stop: Stop, s: string)
    requires StopAt(stop, s).Some?
    ensures Lazy(stop, s).Some?
  {
    hide StopAt;
  }

  lemma {:induction false} LazyLater(stop: Stop, s: string)
    requires s != "" && !IsNewline(s[0]) && Lazy(stop, s[1..]).Some?
    ensures Lazy(stop, s).Some?
  {
    hide StopAt;
  }

  lemma {:induction false} LazyFinds(x: string)
    requires OneLine(x)
    ensures Lazy(Braces, x + "}};").Some?
  {
    hide Lazy, StopAt;
    var y := x + "}};";
    if x == "" {
      assert y == "}};" + "";
      EndsHere("");
      LazyNow(Braces, y);
    } else {
      assert y[0] == x[0] && x[0] in x;
      OneLineTail(x, 1);
      LazyFinds(x[1..]);
      assert y[1..] == x[1..] + "}};";
      LazyLater(Braces, y);
    }
  }

  // In the data of printed text a section begins at the front, and it ends no
  // later than the data.
  lemma {:induction false} SectionFound(x: string)
    requires OneLine(x)
    ensures var e := "@data={{" + x + "}};"; DataSection(e).Some? && |DataSection(e).value| <= |e|
  {
    hide Lazy, StopAt, BlockHere, Spaces;
    var e, k := "@data={{" + x + "}};", Spaces(x);
    var rest := x + "}};";
    SpacesBound(x);
    var y := x[k..] + "}};";
    assert e[0..] == e == "@data={{" + rest && rest == x[..k] + y;
    Part(e, 0, "@data={{", rest);
    Part(e, 8, x[..k], y);
    SpacesThen(x, "}};");
    OneLineTail(x, k);
    LazyFinds(x[k..]);
    TagOf(e);
    GroupFound(e, 8 + k, Lazy(Braces, y).value);
  }

  lemma {:induction false} TagOf(e: string)
    requires |e| >= 8 && e[0..8] == "@data={{"
    ensures StartsWith(e, "@data=") && Spaces(e[6..]) == 0 && e[6] == '{' && e[7] == '{'
  {
    assert e[..6] == e[0..8][..6] && e[6] == e[0..8][6] && e[7] == e[0..8][7];
    NoSpace(e[6..]);
  }

  lemma {:induction false} GroupFound(e: string, from: nat, n: nat)
    requires |e| >= 8 && StartsWith(e, "@data=") && Spaces(e[6..]) == 0 && e[6] == '{' && e[7] == '{'
    requires from == 8 + Spaces(e[8..]) <= |e| && Lazy(Braces, e[from..]) == Some(n)
    ensures DataSection(e).Some? && |DataSection(e).value| <= |e|
  {
    hide Lazy, StopAt, BlockHere, Spaces;
    assert e[from..][n..] == e[from + n..];
    BlockBuilt("@data=", e, 6, 8, from, n, StopAt(Braces, e[from + n..]).value);
    FoundFirst("@data=", e);
  }

  lemma {:induction false} FoundFirst(tag: string, s: string)
    requires BlockHere(tag, s).Some?
    ensures FindBlock(tag, s) == Some(Found(0, BlockHere(tag, s).value))
  {
  }
}
