// The lazy index against the eager parser.
module TextViews {
  import opened Outcomes
  import opened TextScan
  import opened TextContainers
  import opened TextPieces
  import opened TextResults
  import opened TextTheorems

  // ---- Where the values of a text lie ----

  // A value as both scans find it: its text at `at`, and how many spaces the
  // pattern skipped behind each comma.
  datatype Place = Place(name: string, at: nat, len: nat, beforeType: nat, beforeText: nat)

  function PlaceOf(s: string, i: Item, start: nat): Place
    requires ItemHere(s) == Some(i)
  {
    Place(s[1..1 + i.name], start + i.start, i.len, i.typeStart - (i.name + 2), i.start - (i.typeStart + i.typ + 1))
  }

  // The values found in s, which begins at position start of a text.
  function Places(s: string, start: nat): seq<Place>
    decreases |s|
  {
    match ItemHere(s)
    case Some(i) => [PlaceOf(s, i, start)] + Places(s[i.end..], start + i.end)
    case None => if s == "" then [] else Places(s[1..], start + 1)
  }

  function RawPlaces(raw: string): seq<Place> {
    match FindBlock("@data=", raw)
    case None => []
    case Some(f) =>
      Places(raw[f.at + f.block.start..f.at + f.block.start + f.block.len], f.at + f.block.start)
  }

  function FirstPlace(ps: seq<Place>, key: string): Option<Place> {
    if ps == [] then None else if ps[0].name == key then Some(ps[0]) else FirstPlace(ps[1..], key)
  }

  // A place lies in the text behind the spaces that were skipped before it.
  predicate PlaceOk(raw: string, p: Place) {
    p.beforeType + p.beforeText <= p.at && p.at + p.len <= |raw| &&
    (forall j :: p.at - p.beforeText <= j < p.at ==> IsSpace(raw[j])) &&
    (p.len > 0 ==> !IsSpace(raw[p.at]))
  }

  // What the parser stores, and what the index shows.
  function Stored(raw: string, p: Place): string
    requires PlaceOk(raw, p)
  {
    raw[p.at..p.at + p.len]
  }

  function Shown(raw: string, p: Place): string
    requires PlaceOk(raw, p)
  {
    raw[p.at - p.beforeType - p.beforeText..p.at - p.beforeType - p.beforeText + p.len]
  }

  lemma {:induction false} PlacesUnfold(s: string, start: nat)
    requires s != ""
    ensures Places(s, start) == match ItemHere(s)
            case Some(i) => [PlaceOf(s, i, start)] + Places(s[i.end..], start + i.end)
            case None => Places(s[1..], start + 1)
  {
  }

  lemma {:induction false} ItemPlaced(raw: string, s: string, start: nat)
    requires start + |s| <= |raw| && raw[start..start + |s|] == s && ItemHere(s).Some?
    ensures PlaceOk(raw, PlaceOf(s, ItemHere(s).value, start))
    ensures var i := ItemHere(s).value; var p := PlaceOf(s, i, start);
            Stored(raw, p) == s[i.start..i.start + i.len] && start + 1 + i.name + 1 + i.typ + 1 == p.at - p.beforeType - p.beforeText
  {
    hide ItemHere, Lazy, Word, Spaces, IsWord;
    var i := ItemHere(s).value;
    ItemSteps(s);
    ItemParts(s);
    var k := i.typeStart + i.typ + 1;
    forall j | start + k <= j < start + i.start ensures IsSpace(raw[j]) {
      SpaceAt(s, k, j - start);
      SliceAt(raw, s, start, j - start);
    }
    if i.len > 0 {
      SliceAt(raw, s, start, i.start);
    }
    SubSlice(raw, s, start, i.start, i.start + i.len);
  }

  lemma {:induction false} SubSlice(raw: string, s: string, start: nat, i: nat, j: nat)
    requires start + |s| <= |raw| && raw[start..start + |s|] == s && i <= j <= |s|
    ensures raw[start + i..start + j] == s[i..j]
  {
    var a, b := raw[start + i..start + j], s[i..j];
    forall k | 0 <= k < |a| ensures a[k] == b[k] {
      SliceAt(raw, s, start, i + k);
    }
  }

  lemma {:induction false} SliceAt(raw: string, s: string, start: nat, j: nat)
    requires start + |s| <= |raw| && raw[start..start + |s|] == s && j < |s|
    ensures raw[start + j] == s[j]
  {
    assert raw[start + j] == raw[start..start + |s|][j];
  }

  // Both scans find the same values at the same places.
  lemma {:induction false} BothFind(raw: string, s: string, start: nat, key: string)
    requires start + |s| <= |raw| && raw[start..start + |s|] == s && Inside(raw, Index(s, start))
    ensures match FirstPlace(Places(s, start), key)
            case None => Lookup(Units(s), key) == None && ViewOf(raw, Index(s, start), key) == None
            case Some(p) =>
              PlaceOk(raw, p) && Lookup(Units(s), key) == Some(Stored(raw, p)) &&
              ViewOf(raw, Index(s, start), key) == Some(Shown(raw, p))
    decreases |s|
  {
    hide ItemHere, PlaceOf, PlaceOk, Stored, Shown, Inside, ViewOf, Lookup, Places, Units, Index;
    if s == "" {
      NothingFound(raw, start, key);
    } else {
      PlacesUnfold(s, start);
      UnitsUnfold(s);
      IndexUnfold(s, start);
      match ItemHere(s) {
        case Some(i) =>
          TailOf(raw, s, start, i.end);
          ItemPlaced(raw, s, start);
          FirstOf(raw, s, start, key, i, s[i.end..]);
          BothFind(raw, s[i.end..], start + i.end, key);
        case None =>
          TailOf(raw, s, start, 1);
          BothFind(raw, s[1..], start + 1, key);
      }
    }
  }

  lemma {:induction false} TailOf(raw: string, s: string, start: nat, n: nat)
    requires start + |s| <= |raw| && raw[start..start + |s|] == s && n <= |s|
    ensures raw[start + n..start + n + |s[n..]|] == s[n..]
  {
    assert raw[start..start + |s|][n..] == raw[start + n..start + |s|];
  }

  lemma {:induction false} NothingFound(raw: string, start: nat, key: string)
    ensures Places("", start) == [] && FirstPlace([], key) == None && Units("") == [] && Index("", start) == []
    ensures Lookup([], key) == None && Inside(raw, []) && ViewOf(raw, [], key) == None
  {
  }

  // The first value of s, and the rest.
  lemma {:induction false} FirstOf(raw: string, s: string, start: nat, key: string, i: Item, rest: string)
    requires start + |s| <= |raw| && raw[start..start + |s|] == s && Inside(raw, Index(s, start))
    requires ItemHere(s) == Some(i) && rest == s[i.end..]
    ensures PlaceOk(raw, PlaceOf(s, i, start)) && Inside(raw, Index(rest, start + i.end))
    ensures var p := PlaceOf(s, i, start);
            FirstPlace(Places(s, start), key) == (if p.name == key then Some(p) else FirstPlace(Places(rest, start + i.end), key)) &&
            Lookup(Units(s), key) == (if p.name == key then Some(Stored(raw, p)) else Lookup(Units(rest), key)) &&
            ViewOf(raw, Index(s, start), key)
              == if p.name == key then Some(Shown(raw, p)) else ViewOf(raw, Index(rest, start + i.end), key)
  {
    hide ItemHere, PlaceOk, Inside, ViewOf, Places, FirstPlace, Lookup, Units, Index;
    ItemPlaced(raw, s, start);
    PlacesUnfold(s, start);
    UnitsUnfold(s);
    IndexUnfold(s, start);
    var e := IndexEntry(s[1..1 + i.name], s[i.typeStart..i.typeStart + i.typ], start + 1 + i.name + 1 + i.typ + 1, i.len);
    ViewStep(raw, e, Index(rest, start + i.end), key);
    LookupStep(Unit(e.name, e.typ, s[i.start..i.start + i.len]), Units(rest), key);
    PlaceStep(PlaceOf(s, i, start), Places(rest, start + i.end), key);
  }

  lemma {:induction false} LookupStep(u: Unit, us: seq<Unit>, key: string)
    ensures Lookup([u] + us, key) == if u.name == key then Some(u.text) else Lookup(us, key)
  {
    assert ([u] + us)[1..] == us;
  }

  lemma {:induction false} PlaceStep(p: Place, ps: seq<Place>, key: string)
    ensures FirstPlace([p] + ps, key) == if p.name == key then Some(p) else FirstPlace(ps, key)
  {
    assert ([p] + ps)[1..] == ps;
  }

  // ---- The group and the whole section ----

  lemma {:induction false} WordBehind(a: string, post: string)
    requires post != "" && !IsWordChar(post[0])
    ensures Word(a + post) == Word(a)
  {
    if a == "" {
      assert a + post == post;
    } else {
      assert (a + post)[1..] == a[1..] + post;
      WordBehind(a[1..], post);
    }
  }

  lemma {:induction false} SpacesBehind(a: string, post: string)
    ensures Spaces(a) < |a| ==> Spaces(a + post) == Spaces(a)
    ensures Spaces(a) == |a| ==> Spaces(a + post) == |a| + Spaces(post)
  {
    if a == "" {
      assert a + post == post;
    } else {
      assert (a + post)[1..] == a[1..] + post;
      SpacesBehind(a[1..], post);
    }
  }

  // What can follow the group of a section: spaces, braces and a semicolon.
  predicate Closes(post: string) {
    post != "" && post[0] != ';' && forall c :: c in post ==> c != ']' && c != ',' && c != '[' && !IsWordChar(c)
  }

  lemma {:induction false} LazyNone(x: string)
    requires ']' !in x
    ensures Lazy(Bracket, x) == None
  {
    if x != "" {
      assert x[0] in x && x[0..] == x;
      MarkedAt(x, 0, ']', ';');
      LazyNone(x[1..]);
    }
  }

  lemma {:induction false} LazyBehind(y: string, post: string)
    requires Closes(post)
    ensures Lazy(Bracket, y + post) == Lazy(Bracket, y)
  {
    if y == "" {
      assert y + post == post;
      LazyNone(post);
      LazyNone("");
    } else {
      var z := y + post;
      assert z[1..] == y[1..] + post && z[0] == y[0];
      LazyBehind(y[1..], post);
      MarkedAt(z, 0, ']', ';');
      MarkedAt(y, 0, ']', ';');
      assert z[0..] == z && y[0..] == y;
      assert z[1] == if |y| > 1 then y[1] else post[0];
    }
  }

  // An item in front of what closes a section is found, or not, as alone.
  lemma {:induction false} ItemBehind(x: string, post: string)
    requires x != "" && Closes(post)
    ensures ItemHere(x + post) == ItemHere(x)
  {
    hide Lazy, Word, Spaces, Closes, TypeHere;
    var z, n := x + post, Word(x[1..]);
    assert z[0] == x[0] && z[1..] == x[1..] + post;
    ClosesFirst(post);
    WordBehind(x[1..], post);
    if n + 1 < |x| {
      assert z[n + 1] == x[n + 1];
      TypeBehind(x, post, n);
    } else {
      assert n + 1 == |x| && z[n + 1] == post[0];
    }
  }

  lemma {:induction false} ClosesFirst(post: string)
    requires Closes(post)
    ensures post != "" && post[0] != ',' && !IsWordChar(post[0]) && ']' !in post && '[' !in post
    ensures Spaces(post) <= |post| && Word(post[Spaces(post)..]) == 0
  {
    assert post[0] in post;
    SpacesBound(post);
    var t := post[Spaces(post)..];
    assert t != "" ==> t[0] in post;
  }

  lemma {:induction false} TypeBehind(x: string, post: string, n: nat)
    requires Closes(post) && n + 2 <= |x|
    ensures TypeHere(x + post, n) == TypeHere(x, n)
  {
    hide Lazy, Word, Spaces, Closes, ValueHere;
    var z, y := x + post, x[n + 2..];
    assert z[n + 2..] == y + post;
    ClosesFirst(post);
    SpacesBehind(y, post);
    SpacesBound(y);
    var a := n + 2 + Spaces(y);
    if a == |x| {
      assert z[n + 2 + Spaces(y + post)..] == post[Spaces(post)..];
      NothingLeft(x, a);
    } else {
      TypeAt(x, post, n, a);
    }
  }

  lemma {:induction false} TypeAt(x: string, post: string, n: nat, a: nat)
    requires Closes(post) && n + 2 <= a < |x|
    requires a == n + 2 + Spaces(x[n + 2..]) == n + 2 + Spaces((x + post)[n + 2..])
    ensures TypeHere(x + post, n) == TypeHere(x, n)
  {
    hide Lazy, Word, Spaces, Closes, ValueHere;
    var z, t := x + post, Word(x[a..]);
    assert z[a..] == x[a..] + post;
    ClosesFirst(post);
    WordBehind(x[a..], post);
    WordBound(x[a..]);
    if a + t < |x| {
      assert z[a + t] == x[a + t];
      ValueBehind(x, post, n, a, t);
    } else {
      assert z[a + t] == post[0];
    }
  }

  lemma {:induction false} WordBound(s: string)
    ensures Word(s) <= |s|
  {
  }

  lemma {:induction false} NothingLeft(x: string, a: nat)
    requires a == |x|
    ensures Word(x[a..]) == 0 && Lazy(Bracket, x[a..]) == None
  {
    assert x[a..] == "";
  }

  lemma {:induction false} ValueBehind(x: string, post: string, n: nat, a: nat, t: nat)
    requires Closes(post) && n + 2 <= a && a + t < |x|
    ensures ValueHere(x + post, n, a, t) == ValueHere(x, n, a, t)
  {
    hide Lazy, Spaces, Closes, ValueHere;
    var z, y := x + post, x[a + t + 1..];
    assert z[a + t + 1..] == y + post;
    ClosesFirst(post);
    SpacesBehind(y, post);
    SpacesBound(y);
    if Spaces(y) == |y| {
      ValueGone(x, post, n, a, t);
    } else {
      var b := a + t + 1 + Spaces(y);
      assert z[b..] == x[b..] + post;
      LazyBehind(x[b..], post);
      SameValue(x, z, n, a, t, b);
    }
  }

  // Nothing but spaces behind the second comma.
  lemma {:induction false} ValueGone(x: string, post: string, n: nat, a: nat, t: nat)
    requires Closes(post) && n + 2 <= a && a + t < |x|
    requires var y := x[a + t + 1..]; Spaces(y) == |y| && Spaces(y + post) == |y| + Spaces(post)
    ensures ValueHere(x + post, n, a, t) == ValueHere(x, n, a, t) == None
  {
    hide Lazy, Spaces, Closes, ValueHere;
    var z, y := x + post, x[a + t + 1..];
    var rest := post[Spaces(post)..];
    ClosesFirst(post);
    assert z[a + t + 1..] == y + post;
    var c := |x| + Spaces(post);
    assert z[c..] == rest;
    LazyNone(rest);
    NothingLeft(x, |x|);
    NoValue(z, n, a, t, c);
    NoValue(x, n, a, t, |x|);
  }

  lemma {:induction false} NoValue(s: string, n: nat, a: nat, t: nat, b: nat)
    requires n + 2 <= a && a + t < |s| && b == a + t + 1 + Spaces(s[a + t + 1..]) <= |s| && Lazy(Bracket, s[b..]) == None
    ensures ValueHere(s, n, a, t) == None
  {
    hide Lazy, Spaces;
  }

  lemma {:induction false} SameValue(x: string, z: string, n: nat, a: nat, t: nat, b: nat)
    requires n + 2 <= a && a + t < |x| <= |z| && b <= |x|
    requires b == a + t + 1 + Spaces(x[a + t + 1..]) == a + t + 1 + Spaces(z[a + t + 1..])
    requires Lazy(Bracket, x[b..]) == Lazy(Bracket, z[b..])
    ensures ValueHere(x, n, a, t) == ValueHere(z, n, a, t)
  {
    hide Lazy, Spaces;
  }

  lemma {:induction false} UnitsBehind(g: string, post: string)
    requires Closes(post)
    ensures Units(g + post) == Units(g)
    decreases |g|
  {
    hide ItemHere, Units, Closes;
    ClosesFirst(post);
    if g == "" {
      assert g + post == post + "";
      SkipUnits(post, "");
    } else {
      var z := g + post;
      ItemBehind(g, post);
      UnitsUnfold(z);
      UnitsUnfold(g);
      match ItemHere(g) {
        case Some(i) =>
          assert z[i.end..] == g[i.end..] + post;
          SameItem(g, post);
          UnitsBehind(g[i.end..], post);
        case None =>
          assert z[1..] == g[1..] + post;
          UnitsBehind(g[1..], post);
      }
    }
  }

  lemma {:induction false} SameItem(g: string, post: string)
    requires ItemHere(g).Some? && ItemHere(g + post) == ItemHere(g)
    ensures var z, i := g + post, ItemHere(g).value;
            z[1..1 + i.name] == g[1..1 + i.name] && z[i.typeStart..i.typeStart + i.typ] == g[i.typeStart..i.typeStart + i.typ] &&
            z[i.start..i.start + i.len] == g[i.start..i.start + i.len]
  {
    hide ItemHere;
  }

  lemma {:induction false} StopCloses(y: string)
    requires StopAt(Braces, y).Some?
    ensures StopAt(Braces, y).value <= |y| && Closes(y[..StopAt(Braces, y).value])
  {
    var n, k := Spaces(y), StopAt(Braces, y).value;
    assert k == n + 3 ==> y[n..][..3] == "}};" && y[n + 1] == y[n..][..3][1] && y[n + 2] == y[n..][..3][2];
    assert k == n + 2 ==> y[n..][..2] == "};" && y[n + 1] == y[n..][..2][1];
    assert y[n] == '}' by { assert y[n] == y[n..][..2][0]; }
    forall c | c in y[..k] ensures IsSpace(c) || c == '}' || c == ';' {
      var j :| 0 <= j < k && y[j] == c;
    }
  }

  // The values of a section are those of its group.
  lemma {:induction false} GroupUnits(raw: string)
    requires FindBlock("@data=", raw).Some?
    ensures var f := FindBlock("@data=", raw).value;
            Units(DataSection(raw).value) == Units(raw[f.at + f.block.start..f.at + f.block.start + f.block.len])
  {
    hide BlockHere, FindBlock, Units;
    var f := FindBlock("@data=", raw).value;
    var s, b := raw[f.at..], f.block;
    FoundHere("@data=", raw);
    BlockUnits(s);
    assert DataSection(raw).value == s[..b.end];
    assert s[b.start..b.start + b.len] == raw[f.at + b.start..f.at + b.start + b.len];
  }

  lemma {:induction false} BlockUnits(s: string)
    requires BlockHere("@data=", s).Some?
    ensures var b := BlockHere("@data=", s).value; Units(s[..b.end]) == Units(s[b.start..b.start + b.len])
  {
    hide BlockHere, Lazy, StopAt, Units, Closes;
    var b := BlockHere("@data=", s).value;
    var pre, g, post := s[..b.start], s[b.start..b.start + b.len], s[b.start + b.len..b.end];
    BlockParts("@data=", s);
    StopCloses(s[b.start + b.len..]);
    assert s[b.start + b.len..][..b.end - b.start - b.len] == post;
    NoItemBefore(s, b.start);
    SkipUnits(pre, g + post);
    UnitsBehind(g, post);
    assert s[..b.end] == pre + (g + post);
  }

  lemma {:induction false} NoItemBefore(s: string, n: nat)
    requires StartsWith(s, "@data=") && n <= |s| && forall i :: 6 <= i < n ==> IsSpace(s[i]) || s[i] == '{'
    ensures '[' !in s[..n]
  {
    forall i | 0 <= i < n ensures s[i] != '[' {
      assert i < 6 ==> s[i] == s[..6][i];
    }
  }

  // Of any text of one line: a view is absent exactly when eager parsing finds
  // no such value. The value found first is stored as it lies in the text; the
  // view shows as many characters, from as far in front of it as spaces were
  // skipped behind the two commas. When none were skipped before the type they
  // show the same exactly if none were skipped before the text either, or the
  // text is empty.
  lemma {:induction false} LazyAgainstEager(raw: string, key: string)
    requires OneLine(raw)
    ensures Inside(raw, RawIndex(raw))
    ensures var eager, lazy := Lookup(Parse(raw, false).0.units, key), ViewOf(raw, RawIndex(raw), key);
            match FirstPlace(RawPlaces(raw), key)
            case None => eager == None && lazy == None
            case Some(p) =>
              PlaceOk(raw, p) && eager == Some(Stored(raw, p)) && lazy == Some(Shown(raw, p)) &&
              (p.beforeType == 0 ==> (lazy == eager <==> p.beforeText == 0 || p.len == 0))
  {
    hide FindBlock, Lookup, ViewOf, Places, FirstPlace, Index, Inside, PlaceOk, Stored, Shown, Clean, SetFields, Units, OneLine;
    RawIndexInside(raw);
    CleanPlainLine(raw);
    EagerUnits(raw);
    match FindBlock("@data=", raw)
    case None =>
      NothingFound(raw, 0, key);
    case Some(f) =>
      var from := f.at + f.block.start;
      GroupUnits(raw);
      BothFind(raw, raw[from..from + f.block.len], from, key);
      match FirstPlace(RawPlaces(raw), key)
      case None =>
      case Some(p) =>
        if p.beforeType == 0 { ShownStored(raw, p); }
  }

  lemma {:induction false} EagerUnits(raw: string)
    requires Clean(raw) == raw
    ensures Parse(raw, false).0.units == match DataSection(raw) case None => [] case Some(d) => Units(d)
  {
    hide FindBlock, Units, Clean, ParseHeader;
    if raw == "" {
      assert DataSection("") == None by { NoSectionInNothing(); }
    }
  }

  lemma {:induction false} NoSectionInNothing()
    ensures DataSection("") == None
  {
  }

  lemma {:induction false} ShownStored(raw: string, p: Place)
    requires PlaceOk(raw, p) && p.beforeType == 0
    ensures Shown(raw, p) == Stored(raw, p) <==> p.beforeText == 0 || p.len == 0
  {
    if p.beforeText > 0 && p.len > 0 {
      assert Shown(raw, p)[0] == raw[p.at - p.beforeText] && Stored(raw, p)[0] == raw[p.at];
    }
  }

  // ---- Printed text ----

  // The first value called key.
  function First(us: seq<Unit>, key: string): Option<Unit> {
    if us == [] then None else if us[0].name == key then Some(us[0]) else First(us[1..], key)
  }

  lemma {:induction false} LookupStripped(us: seq<Unit>, key: string)
    ensures Lookup(Stripped(us), key) == match First(us, key) case None => None case Some(u) => Some(Strip(u.text))
  {
    hide Strip;
    if us != [] {
      assert Stripped(us)[1..] == Stripped(us[1..]);
      LookupStripped(us[1..], key);
    }
  }

  // What a view shows of a text: as many characters as the parser keeps, but
  // from the front.
  function Seen(v: string): string {
    SpacesLeft(v);
    v[..|v| - Spaces(v)]
  }

  lemma {:induction false} SpacesLeft(v: string)
    ensures Spaces(v) <= |v|
  {
  }

  lemma {:induction false} ViewInBody(raw: string, us: seq<Unit>, r: string, start: nat, key: string)
    requires UnitsOk(us) && start <= |raw| && raw[start..] == Body(us) + r
    requires Inside(raw, Index(Body(us), start))
    ensures ViewOf(raw, Index(Body(us), start), key)
         == match First(us, key) case None => None case Some(u) => Some(Seen(u.text))
    decreases |us|
  {
    hide Index, UnitText, Seen, UnitOk, ViewOf, Inside;
    if us == [] {
      NoIndex(start);
      NothingFound(raw, start, key);
    } else {
      var u, tail := us[0], us[1..];
      var next := start + |UnitText(u)|;
      assert Body(us) == UnitText(u) + Body(tail);
      Assoc(UnitText(u), Body(tail), r);
      Part(raw, start, UnitText(u), Body(tail) + r);
      ViewUnit(raw, u, Body(tail), r, start, next, key);
      ViewInBody(raw, tail, r, next, key);
    }
  }

  // One value of the body: its view, and the index of the rest.
  lemma {:induction false} ViewUnit(raw: string, u: Unit, body: string, r: string, start: nat, next: nat, key: string)
    requires UnitOk(u) && start <= |raw| && raw[start..] == UnitText(u) + (body + r)
    requires next == start + |UnitText(u)| && Inside(raw, Index(UnitText(u) + body, start))
    ensures Inside(raw, Index(body, next))
    ensures ViewOf(raw, Index(UnitText(u) + body, start), key)
         == if u.name == key then Some(Seen(u.text)) else ViewOf(raw, Index(body, next), key)
  {
    hide Index, UnitText, Seen, UnitOk, ViewOf, Inside;
    IndexStep(u, body, start);
    ViewAt(raw, u, body + r, start);
    ViewStep(raw, IndexEntry(u.name, u.typ, start + |u.name| + |u.typ| + 3, |Seen(u.text)|), Index(body, next), key);
  }

  lemma {:induction false} ViewStep(raw: string, e: IndexEntry, rest: seq<IndexEntry>, key: string)
    requires Inside(raw, [e] + rest)
    ensures Inside(raw, rest) && e.offset + e.length <= |raw|
    ensures ViewOf(raw, [e] + rest, key)
         == if e.name == key then Some(raw[e.offset..e.offset + e.length]) else ViewOf(raw, rest, key)
  {
    var ix := [e] + rest;
    assert ix[0] in ix && ix[1..] == rest;
    forall x | x in rest ensures x.offset + x.length <= |raw| {
      assert x in ix;
    }
  }

  lemma {:induction false} IndexStep(u: Unit, r: string, start: nat)
    requires UnitOk(u)
    ensures Index(UnitText(u) + r, start)
         == [IndexEntry(u.name, u.typ, start + |u.name| + |u.typ| + 3, |Seen(u.text)|)] + Index(r, start + |UnitText(u)|)
  {
    hide UnitText, ItemHere, Spaces, UnitOk, Index, Seen;
    var s, b, c := UnitHere(u, r);
    var k := Spaces(u.text);
    SeenLength(u.text);
    IndexCons(s, b, c, k, |u.text| - k, start);
  }

  // The first entry of an index, by where the parts of the value lie.
  lemma {:induction false} IndexCons(s: string, b: nat, c: nat, k: nat, v: nat, start: nat)
    requires 2 <= b < c && c + k + v + 2 <= |s| && ItemHere(s) == Some(Item(b - 2, b, c - 1 - b, c + k, v, c + k + v + 2))
    ensures Index(s, start)
         == [IndexEntry(s[1..b - 1], s[b..c - 1], start + c, v)] + Index(s[c + k + v + 2..], start + c + k + v + 2)
  {
    hide ItemHere;
    IndexUnfold(s, start);
  }

  lemma {:induction false} ViewAt(raw: string, u: Unit, r: string, start: nat)
    requires start <= |raw| && raw[start..] == UnitText(u) + r
    ensures var o := start + |u.name| + |u.typ| + 3; o + |Seen(u.text)| <= |raw| && raw[o..o + |Seen(u.text)|] == Seen(u.text)
  {
    hide UnitText, Seen, AfterName, AfterType;
    var s, b, c := UnitSlices(u, r);
    var n, k := start + c, |Seen(u.text)|;
    assert raw[n..] == raw[start..][c..];
    Part(raw, n, u.text, "];" + r);
    SeenPrefix(u.text);
    assert raw[n..n + k] == raw[n..n + |u.text|][..k];
  }

  lemma {:induction false} SeenLength(v: string)
    ensures |Seen(v)| == |v| - Spaces(v)
  {
    hide Spaces;
    SpacesLeft(v);
  }

  lemma {:induction false} SeenPrefix(v: string)
    ensures |Seen(v)| <= |v| && Seen(v) == v[..|Seen(v)|]
  {
  }

  // The header text of one line and with no data tag in a field, printed in
  // front of values that parse: each view shows the first value called key,
  // as many characters as the parser keeps but from the front.
  lemma {:induction false} FirstView(h: Header, us: seq<Unit>, key: string)
    requires DataFree(h) && OneLine(HeaderText(h)) && UnitsOk(us)
    ensures var s := Print(h, DataText(us));
            Inside(s, RawIndex(s)) &&
            ViewOf(s, RawIndex(s), key) == match First(us, key) case None => None case Some(u) => Some(Seen(u.text))
  {
    hide FindBlock, Clean, HeaderText, DataFree, UnitsOk, KeptOk, Seen, Body, Index, ViewOf, Inside, NoStart, OneLine;
    var t, b, d := HeaderText(h), Body(us), DataText(us);
    var p, s := "@header={{" + t + "}};", Print(h, d);
    RawIndexInside(s);
    OkIsKept(us);
    KeptSection(us);
    CleanPlainLine(t);
    FieldsNoStart(h, "}};" + d);
    BeforeData(t, d);
    assert s == p + d && d == "@data={{" + (b + "}};");
    SkipBlock(p, d, "@data=");
    assert s[|p| + 8..] == b + "}};";
    assert s[|p| + 8..|p| + 8 + |b|] == b;
    ViewInBody(s, us, "}};", |p| + 8, key);
  }

  // Of such printed text, a view and the parser show the same text exactly
  // when the first value's text has no leading space or only spaces.
  lemma {:induction false} ViewsAgree(h: Header, us: seq<Unit>, key: string)
    requires DataFree(h) && OneLine(HeaderText(h)) && UnitsOk(us)
    ensures var s := Print(h, DataText(us)); var eager := Lookup(Parse(s, false).0.units, key);
            Inside(s, RawIndex(s)) &&
            (ViewOf(s, RawIndex(s), key) == eager <==>
               First(us, key).Some? ==> var v := First(us, key).value.text; Spaces(v) == 0 || Spaces(v) == |v|)
  {
    hide Parse, Print, Lookup, ViewOf, RawIndex, Stripped, DataFree, UnitsOk, Inside, DataText, First, HeaderText, OneLine;
    ValuesBack(h, us);
    FirstView(h, us, key);
    LookupStripped(us, key);
    match First(us, key)
    case None =>
    case Some(u) => SeenStrip(u.text);
  }

  lemma {:induction false} SeenStrip(v: string)
    ensures Seen(v) == Strip(v) <==> Spaces(v) == 0 || Spaces(v) == |v|
  {
    if 0 < Spaces(v) < |v| {
      assert IsSpace(v[0]) && Seen(v)[0] == v[0] && Strip(v)[0] == v[Spaces(v)];
    }
  }

  // ---- Newlines ----

  // The index reads the text with its newlines, across which no section is
  // found: one newline in a value hides every view.
  lemma {:induction false} NewlineHidesViews(h: Header, us: seq<Unit>)
    requires DataFree(h) && OneLine(HeaderText(h)) && '@' !in Body(us) && Lacks(Body(us), "};") && !OneLine(Body(us))
    ensures RawIndex(Print(h, DataText(us))) == []
  {
    hide FindBlock, BlockHere, HeaderText, DataFree, Body, NoStart, Clean, Lacks, OneLine;
    var t, b, d := HeaderText(h), Body(us), DataText(us);
    var p := "@header={{" + t + "}};";
    CleanPlainLine(t);
    FieldsNoStart(h, "}};" + d);
    BeforeData(t, d);
    SkipBlock(p, d, "@data=");
    assert Print(h, d) == p + d;
    NoSection(us);
  }

  lemma {:induction false} NoSection(us: seq<Unit>)
    requires '@' !in Body(us) && Lacks(Body(us), "};") && !OneLine(Body(us))
    ensures FindBlock("@data=", DataText(us)) == None
  {
    hide BlockHere, Lazy, Lacks, NoStart, FindBlock;
    var b, d := Body(us), DataText(us);
    BodyEnds(us);
    NewlineStops(b);
    NoBlock(b);
    var rest := d[1..];
    assert d == "@data={{" + b + "}};" && rest == "data={{" + b + "}};";
    assert '@' !in rest;
    NoStartFirst(rest, "", "@data=");
    SkipBlock(rest, "", "@data=");
    assert rest + "" == rest;
    NextBlock(d);
  }

  lemma {:induction false} NextBlock(d: string)
    requires d != "" && BlockHere("@data=", d) == None
    ensures FindBlock("@data=", "") == None
    ensures FindBlock("@data=", d[1..]) == None ==> FindBlock("@data=", d) == None
  {
    hide BlockHere;
    assert BlockHere("@data=", "") == None by { NothingHere(); }
  }

  lemma {:induction false} NothingHere()
    ensures BlockHere("@data=", "") == None
  {
  }

  lemma {:induction false} BodyEnds(us: seq<Unit>)
    ensures Body(us) != "" ==> Body(us)[0] == '[' && Body(us)[|Body(us)| - 1] == ';'
  {
    if us != [] {
      BodyEnds(us[1..]);
    }
  }

  // A group that would have to run over a newline does not end.
  lemma {:induction false} NewlineStops(x: string)
    requires Lacks(x, "};") && x != "" && x[|x| - 1] == ';' && !OneLine(x)
    ensures Lazy(Braces, x + "}};") == None
  {
    hide Lacks, StopAt;
    var y := x + "}};";
    NotYet(x, "");
    assert x + "}};" + "" == y;
    assert y[0] == x[0] && y[1..] == x[1..] + "}};";
    if !IsNewline(x[0]) {
      NewlineLater(x);
      LacksTail(x, "};", 1);
      NewlineStops(x[1..]);
    }
  }

  lemma {:induction false} NewlineLater(x: string)
    requires x != "" && !OneLine(x) && !IsNewline(x[0]) && x[|x| - 1] == ';'
    ensures |x| > 1 && !OneLine(x[1..])
  {
    var c :| c in x && IsNewline(c);
    var i :| 0 <= i < |x| && x[i] == c;
    assert x[1..][i - 1] == c;
  }

  lemma {:induction false} NoBlock(b: string)
    requires b != "" && b[0] == '[' && Lazy(Braces, b + "}};") == None
    ensures BlockHere("@data=", "@data={{" + b + "}};") == None
  {
    hide Lazy, StopAt;
    var d := "@data={{" + b + "}};";
    assert d[0..8] == "@data={{";
    TagOf(d);
    assert d[8..] == b + "}};";
    NoSpace(d[8..]);
    assert d[6 + 2..] == d[8..] && d[8 + 0..] == d[8..];
  }

  // The run in small: with one newline for its text a value is found by the
  // parser, as empty, and by no view.
  lemma {:induction false} NewlineRun()
    ensures var raw := Print(BLANK, DataText([Unit("a", "s", "\n")]));
            RawIndex(raw) == [] && Lookup(Parse(raw, false).0.units, "a") == Some("")
  {
    hide Parse, Print, RawIndex, DataText, Lacks, Units, DataFree, HeaderText, OneLine;
    NewlineBody();
    BlankFree();
    NewlineHidesViews(BLANK, [Unit("a", "s", "\n")]);
    NewlineEager();
  }

  lemma {:induction false} NewlineBody()
    ensures var b := Body([Unit("a", "s", "\n")]); b == "[a,s,\n];" && '@' !in b && Lacks(b, "};") && !OneLine(b)
  {
    hide Lacks;
    var us := [Unit("a", "s", "\n")];
    assert us[1..] == [] && Body([]) == "";
    var b := "[a,s,\n];";
    assert Body(us) == UnitText(us[0]) + "" == b;
    assert b[5] == '\n' && IsNewline(b[5]) && b[5] in b;
    LacksChar("[a,s,\n]", "};");
    LacksOne(";");
    LacksJoin("[a,s,\n]", ";", "};");
    assert b == "[a,s,\n]" + ";";
  }

  lemma {:induction false} LacksOne(s: string)
    requires |s| == 1
    ensures Lacks(s, "};")
  {
  }

  lemma {:induction false} BlankFree()
    ensures DataFree(BLANK) && OneLine(HeaderText(BLANK))
  {
    hide HeaderText, AllPlain, HeaderPlain, DataFree;
    BlankPlain();
    PrintedToo(BLANK);
    PlainHeader(BLANK);
    BlankDataFree();
  }

  lemma {:induction false} BlankDataFree()
    ensures DataFree(BLANK)
  {
    hide Lacks, Clean;
    CleanPlain(DATA_CONTAINER);
    CleanPlain("1.0");
    LacksChar(DATA_CONTAINER, "@data=");
    LacksChar("1.0", "@data=");
  }

  lemma {:induction false} NewlineEager()
    ensures Lookup(Parse(Print(BLANK, DataText([Unit("a", "s", "\n")])), false).0.units, "a") == Some("")
  {
    hide Print, DataText, DataSection, Units, Clean, ParseHeader, FindBlock, UnitsOk, KeptOk, Body;
    var us, vs := [Unit("a", "s", "\n")], [Unit("a", "s", "")];
    BlankFree();
    DataFound(BLANK, DataText(us));
    NotEmpty(BLANK, DataText(us));
    CleanedNewline();
    EmptyOk();
    OkIsKept(vs);
    KeptSection(vs);
    UnitsOfData(vs);
    assert Stripped(vs) == vs && Lookup(vs, "a") == Some("") by { OneStripped(); }
  }

  lemma {:induction false} OneStripped()
    ensures var vs := [Unit("a", "s", "")]; Stripped(vs) == vs && Lookup(vs, "a") == Some("")
  {
    var vs := [Unit("a", "s", "")];
    assert vs[1..] == [] && Stripped([]) == [];
    assert Spaces("") == 0 && Strip("") == "";
  }

  lemma {:induction false} EmptyOk()
    ensures UnitsOk([Unit("a", "s", "")])
  {
    hide Lacks;
    LacksChar("", "];");
    LacksChar("", "};");
  }

  lemma {:induction false} CleanedNewline()
    ensures Clean(DataText([Unit("a", "s", "\n")])) == DataText([Unit("a", "s", "")])
  {
    hide Clean;
    var us, vs := [Unit("a", "s", "\n")], [Unit("a", "s", "")];
    assert us[1..] == [] && vs[1..] == [] && Body([]) == "";
    assert Body(us) == UnitText(us[0]) + "" && Body(vs) == UnitText(vs[0]) + "";
    var p, q := "@data={{[a,s,", "];}};";
    assert DataText(us) == p + "\n" + q && DataText(vs) == p + "" + q;
    CleanConcat(p, "\n");
    CleanConcat(p + "\n", q);
    CleanPlain(p);
    CleanPlain(q);
    CleanNewline();
  }

  lemma {:induction false} CleanNewline()
    ensures Clean("\n") == ""
  {
    assert "\n"[1..] == "";
  }
}
