// The regular expressions of the text format as first-match scanners.
//
// Each pattern is made of parts whose greedy runs (\s*, \w+, \{?) are followed
// by a character outside the run, so taking the longest run is the only way
// to match, and of one lazy group, which ends at the first place where what
// follows it matches; TextPatterns proves that the scanners find what the
// patterns match. A scanner looks at a suffix of the text and says where,
// counted from the start of the suffix, the groups lie.
module TextScan {
  import opened Outcomes

  predicate IsSpace(c: char) {
    c == ' ' || c == '\t' || c == '\n' || c == '\r' || c == 11 as char || c == 12 as char
  }

  predicate IsWordChar(c: char) {
    'a' <= c <= 'z' || 'A' <= c <= 'Z' || '0' <= c <= '9' || c == '_'
  }

  predicate IsNewline(c: char) {
    c == '\n' || c == '\r'
  }

  predicate StartsWith(s: string, p: string) {
    |p| <= |s| && s[..|p|] == p
  }

  // Length of the run of spaces, and of word characters, at the front.
  function Spaces(s: string): (n: nat)
    ensures n <= |s| && (n < |s| ==> !IsSpace(s[n])) && forall i :: 0 <= i < n ==> IsSpace(s[i])
  {
    if s != "" && IsSpace(s[0]) then 1 + Spaces(s[1..]) else 0
  }

  function Word(s: string): (n: nat)
    ensures n <= |s| && (n < |s| ==> !IsWordChar(s[n])) && forall i :: 0 <= i < n ==> IsWordChar(s[i])
  {
    if s != "" && IsWordChar(s[0]) then 1 + Word(s[1..]) else 0
  }

  // What ends a lazy group: \s*\}\}?; or \];
  datatype Stop = Braces | Bracket

  // Length of the text matched at the front by the end of a group.
  function StopAt(stop: Stop, s: string): Option<nat> {
    match stop
    case Bracket => if StartsWith(s, "];") then Some(2) else None
    case Braces =>
      var n := Spaces(s);
      if StartsWith(s[n..], "}};") then Some(n + 3)
      else if StartsWith(s[n..], "};") then Some(n + 2)
      else None
  }

  // Length of a lazy group at the front: (.*?) followed by its end.
  function Lazy(stop: Stop, s: string): (r: Option<nat>)
    ensures r.Some? ==> r.value <= |s| && StopAt(stop, s[r.value..]).Some?
  {
    if StopAt(stop, s).Some? then Some(0)
    else if s == "" || IsNewline(s[0]) then None
    else
      match Lazy(stop, s[1..])
      case None => None
      case Some(n) => Some(n + 1)
  }

  // ---- tag\s*\{\{?\s*(.*?)\s*\}\}?; ----

  // Start and length of the group, and the end of the match.
  datatype Block = Block(start: nat, len: nat, end: nat)

  function BlockHere(tag: string, s: string): (r: Option<Block>)
    ensures r.Some? ==> r.value.start + r.value.len <= r.value.end <= |s|
  {
    if !StartsWith(s, tag) then None
    else
      var a := |tag| + Spaces(s[|tag|..]);
      if a >= |s| || s[a] != '{' then None
      else
        var b := if a + 1 < |s| && s[a + 1] == '{' then a + 2 else a + 1;
        GroupHere(s, b + Spaces(s[b..]))
  }

  // The group from c on, and what ends it.
  function GroupHere(s: string, c: nat): (r: Option<Block>)
    requires c <= |s|
    ensures r.Some? ==> c == r.value.start && c + r.value.len <= r.value.end <= |s|
  {
    match Lazy(Braces, s[c..])
    case None => None
    case Some(n) =>
      var rest := s[c..][n..];
      StopFits(rest);
      assert rest == s[c + n..];
      Some(Block(c, n, c + n + StopAt(Braces, rest).value))
  }

  lemma {:induction false} StopFits(s: string)
    ensures StopAt(Braces, s).Some? ==> StopAt(Braces, s).value <= |s|
  {
  }

  // The leftmost match: where it starts, and the match from there.
  datatype Found = Found(at: nat, block: Block)

  function FindBlock(tag: string, s: string): (r: Option<Found>)
    ensures r.Some? ==> r.value.at + r.value.block.end <= |s| &&
                        r.value.block.start + r.value.block.len <= r.value.block.end
  {
    match BlockHere(tag, s)
    case Some(b) => Some(Found(0, b))
    case None =>
      if s == "" then None
      else
        match FindBlock(tag, s[1..])
        case None => None
        case Some(f) => Some(Found(f.at + 1, f.block))
  }

  // ---- \[(\w+),\s*(\w+),\s*(.*?)\]; ----

  // Lengths of the name and type words, where the value starts and how long
  // it is, and the end of the match; typeStart allows for the first \s*.
  datatype Item = Item(name: nat, typeStart: nat, typ: nat, start: nat, len: nat, end: nat)

  function ItemHere(s: string): (r: Option<Item>)
    ensures r.Some? ==> var i := r.value;
              1 + i.name < i.typeStart && i.typeStart + i.typ < i.start && i.start + i.len < i.end <= |s|
  {
    if s == "" || s[0] != '[' then None
    else
      var n := Word(s[1..]);
      if n == 0 || n + 1 >= |s| || s[n + 1] != ',' then None else TypeHere(s, n)
  }

  // The type and the value, behind a name of length n.
  function TypeHere(s: string, n: nat): (r: Option<Item>)
    requires n + 2 <= |s|
    ensures r.Some? ==> var i := r.value;
              i.name == n && 1 + n < i.typeStart && i.typeStart + i.typ < i.start && i.start + i.len < i.end <= |s|
  {
    var a := n + 2 + Spaces(s[n + 2..]);
    var t := Word(s[a..]);
    if t == 0 || a + t >= |s| || s[a + t] != ',' then None else ValueHere(s, n, a, t)
  }

  // The value, behind a type of length t at a.
  function ValueHere(s: string, n: nat, a: nat, t: nat): (r: Option<Item>)
    requires n + 2 <= a && a + t < |s|
    ensures r.Some? ==> var i := r.value;
              i.name == n && i.typeStart == a && i.typ == t && a + t < i.start && i.start + i.len < i.end <= |s|
  {
    var b := a + t + 1 + Spaces(s[a + t + 1..]);
    match Lazy(Bracket, s[b..])
    case None => None
    case Some(v) =>
      assert s[b..][v..] == s[b + v..];
      Some(Item(n, a, t, b, v, b + v + 2))
  }

  // ---- \[(\w+),(.*?)\]; ----

  datatype Pair = Pair(key: nat, start: nat, len: nat, end: nat)

  function PairHere(s: string): (r: Option<Pair>)
    ensures r.Some? ==> var p := r.value; 1 + p.key < p.start && p.start + p.len < p.end <= |s|
  {
    if s == "" || s[0] != '[' then None
    else
      var n := Word(s[1..]);
      if n == 0 || n + 1 >= |s| || s[n + 1] != ',' then None
      else
        match Lazy(Bracket, s[n + 2..])
        case None => None
        case Some(v) =>
          assert s[n + 2..][v..] == s[n + 2 + v..];
          Some(Pair(n, n + 2, v, n + 4 + v))
  }

  // ---- regex_replace of \r\n?|\n by nothing ----

  function Clean(s: string): string {
    if s == "" then ""
    else if IsNewline(s[0]) then Clean(s[1..])
    else [s[0]] + Clean(s[1..])
  }

  lemma {:induction false} CleanPlain(s: string)
    requires forall c :: c in s ==> !IsNewline(c)
    ensures Clean(s) == s
  {
    if s != "" {
      CleanPlain(s[1..]);
      assert s == [s[0]] + s[1..];
    }
  }

  // ---- What the scanners find in text put together from parts ----

  // No occurrence of p in s.
  predicate Lacks(s: string, p: string) {
    forall i :: 0 <= i <= |s| ==> !StartsWith(s[i..], p)
  }

  predicate OneLine(s: string) {
    forall c :: c in s ==> !IsNewline(c)
  }

  lemma {:induction false} WordThen(w: string, r: string)
    requires (forall c :: c in w ==> IsWordChar(c)) && r != "" && !IsWordChar(r[0])
    ensures Word(w + r) == |w|
  {
    if w == "" {
      assert w + r == r;
    } else {
      WordThen(w[1..], r);
      assert (w + r)[1..] == w[1..] + r;
      assert w[0] in w;
    }
  }

  lemma {:induction false} SpacesThen(s: string, r: string)
    requires r != "" && !IsSpace(r[0])
    ensures Spaces(s + r) == Spaces(s)
  {
    if s == "" {
      assert s + r == r;
    } else {
      SpacesThen(s[1..], r);
      assert (s + r)[1..] == s[1..] + r;
    }
  }

  // Joining two parts makes no new occurrence of a two-character text.
  lemma {:induction false} LacksJoin(a: string, b: string, p: string)
    requires |p| == 2 && Lacks(a, p) && Lacks(b, p)
    requires a == "" || b == "" || a[|a| - 1] != p[0] || b[0] != p[1]
    ensures Lacks(a + b, p)
  {
    forall i | 0 <= i <= |a + b| ensures !StartsWith((a + b)[i..], p) {
      var t := (a + b)[i..];
      if i >= |a| {
        assert t == b[i - |a|..];
      } else {
        assert t == a[i..] + b && !StartsWith(a[i..], p);
        assert i + 1 < |a| ==> t[..2] == a[i..][..2];
        assert i + 1 == |a| && b != "" ==> t[0] == a[|a| - 1] && t[1] == b[0];
        if StartsWith(t, p) {
          TwoChars(t, p);
        }
      }
    }
  }

  lemma {:induction false} TwoChars(t: string, p: string)
    requires StartsWith(t, p) && |p| == 2
    ensures t[0] == p[0] && t[1] == p[1]
  {
    assert t[..2][0] == p[0] && t[..2][1] == p[1];
  }

  lemma {:induction false} InSuffix(a: string, i: nat, c: char)
    requires i <= |a| && c in a[i..]
    ensures c in a
  {
  }

  lemma {:induction false} LastChar(t: string, p: string)
    requires StartsWith(t, p) && p != ""
    ensures p[|p| - 1] in t
  {
    assert t[|p| - 1] == t[..|p|][|p| - 1];
  }

  // Text without the last character of p has no occurrence of p.
  lemma {:induction false} LacksChar(a: string, p: string)
    requires p != "" && p[|p| - 1] !in a
    ensures Lacks(a, p)
  {
    var c := p[|p| - 1];
    forall i | 0 <= i <= |a| ensures !StartsWith(a[i..], p) {
      if StartsWith(a[i..], p) {
        LastChar(a[i..], p);
        InSuffix(a, i, c);
      }
    }
  }

  lemma {:induction false} LacksTail(x: string, p: string, n: nat)
    requires n <= |x| && Lacks(x, p)
    ensures Lacks(x[n..], p)
  {
    forall i | 0 <= i <= |x[n..]| ensures !StartsWith(x[n..][i..], p) {
      assert x[n..][i..] == x[n + i..];
    }
  }

  // A lazy group up to "];" takes all of x if x has none.
  lemma {:induction false} LazyBracket(x: string, r: string)
    requires OneLine(x) && Lacks(x, "];")
    ensures Lazy(Bracket, x + "];" + r) == Some(|x|)
  {
    var s := x + "];" + r;
    if x == "" {
      assert s[..2] == "];";
    } else {
      assert s[1..] == x[1..] + "];" + r;
      LacksTail(x, "];", 1);
      LazyBracket(x[1..], r);
      assert x[0..] == x && !StartsWith(x[0..], "];");
      assert s[..2] == if |x| > 1 then x[..2] else [x[0], ']'];
      assert x[0] in x;
    }
  }

  // A lazy group up to "}};" takes all of x if x has no "};" and does not end
  // in a space.
  lemma {:induction false} LazyBraces(x: string, r: string)
    requires OneLine(x) && Lacks(x, "};") && (x != "" ==> x[|x| - 1] == ';')
    ensures Lazy(Braces, x + "}};" + r) == Some(|x|)
    ensures StopAt(Braces, "}};" + r) == Some(3)
  {
    var s := x + "}};" + r;
    EndsHere(r);
    if x == "" {
      assert s == "}};" + r;
    } else {
      assert s[1..] == x[1..] + "}};" + r;
      LacksTail(x, "};", 1);
      LazyBraces(x[1..], r);
      NotYet(x, r);
      assert x[0] in x;
    }
  }

  lemma {:induction false} EndsHere(r: string)
    ensures StopAt(Braces, "}};" + r) == Some(3)
  {
    var s := "}};" + r;
    assert s[0] == '}' && s[0..] == s && s[..3] == "}};";
  }

  // No end of the group before the end of x.
  lemma {:induction false} NotYet(x: string, r: string)
    requires x != "" && Lacks(x, "};") && x[|x| - 1] == ';'
    ensures StopAt(Braces, x + "}};" + r) == None
  {
    var s := x + "}};" + r;
    var n := Spaces(x);
    assert s == x + ("}};" + r);
    SpacesThen(x, "}};" + r);
    assert n < |x|;
    var t := s[n..];
    assert t[0] == x[n];
    assert |x| - n > 1 ==> t[..2] == x[n..][..2] && !StartsWith(x[n..], "};");
    assert |x| - n > 2 ==> t[..3] == x[n..][..3] && t[1..3] == x[n + 1..][..2] && !StartsWith(x[n + 1..], "};");
    assert |x| - n == 1 ==> t[0] == ';';
    assert |x| - n == 2 ==> t[1] == ';';
  }

  // ---- Skipping text in which no block can start ----

  // No occurrence of tag starts in p when r follows.
  predicate NoStart(p: string, r: string, tag: string) {
    forall i :: 0 <= i < |p| ==> !StartsWith(p[i..] + r, tag)
  }

  lemma {:induction false} SkipBlock(p: string, s: string, tag: string)
    requires tag != "" && NoStart(p, s, tag)
    ensures FindBlock(tag, p + s)
         == match FindBlock(tag, s) case None => None case Some(f) => Some(Found(f.at + |p|, f.block))
  {
    if p == "" {
      assert p + s == s;
    } else {
      assert p[0..] == p && !StartsWith(p[0..] + s, tag);
      assert (p + s)[1..] == p[1..] + s;
      forall i | 0 <= i < |p[1..]| ensures !StartsWith(p[1..][i..] + s, tag) {
        assert p[1..][i..] == p[i + 1..];
      }
      SkipBlock(p[1..], s, tag);
    }
  }

  lemma {:induction false} NoStartConcat(p: string, q: string, r: string, tag: string)
    requires NoStart(p, q + r, tag) && NoStart(q, r, tag)
    ensures NoStart(p + q, r, tag)
  {
    forall i | 0 <= i < |p + q| ensures !StartsWith((p + q)[i..] + r, tag) {
      if i < |p| {
        assert (p + q)[i..] + r == p[i..] + (q + r);
      } else {
        assert (p + q)[i..] + r == q[i - |p|..] + r;
      }
    }
  }

  // Text without the tag's first character.
  lemma {:induction false} NoStartFirst(p: string, r: string, tag: string)
    requires tag != "" && tag[0] !in p
    ensures NoStart(p, r, tag)
  {
    forall i | 0 <= i < |p| ensures !StartsWith(p[i..] + r, tag) {
      var t := p[i..] + r;
      assert t[0] == p[i] && p[i] in p;
      if StartsWith(t, tag) {
        FirstChar(t, tag);
      }
    }
  }

  lemma {:induction false} FirstChar(t: string, p: string)
    requires StartsWith(t, p) && p != ""
    ensures t[0] == p[0]
  {
    assert t[..|p|][0] == p[0];
  }

  lemma {:induction false} PrefixChar(t: string, p: string, n: nat)
    requires StartsWith(t, p) && n < |p|
    ensures t[n] in p
  {
    assert t[n] == t[..|p|][n];
  }

  // Text without the tag, followed by a character the tag does not contain.
  lemma {:induction false} NoStartField(p: string, r: string, tag: string)
    requires Lacks(p, tag) && r != "" && r[0] !in tag
    ensures NoStart(p, r, tag)
  {
    forall i | 0 <= i < |p| ensures !StartsWith(p[i..] + r, tag) {
      var t, n := p[i..] + r, |p| - i;
      assert t[n] == r[0];
      assert n >= |tag| ==> t[..|tag|] == p[i..][..|tag|] && !StartsWith(p[i..], tag);
      if n < |tag| && StartsWith(t, tag) {
        PrefixChar(t, tag, n);
      }
    }
  }

  // A block printed with two braces on each side is found where it starts.
  lemma {:induction false} BlockFound(tag: string, body: string, r: string)
    requires OneLine(body) && Lacks(body, "};")
    requires body != "" ==> body[0] == '[' && body[|body| - 1] == ';'
    ensures FindBlock(tag, tag + "{{" + body + "}};" + r)
         == Some(Found(0, Block(|tag| + 2, |body|, |tag| + |body| + 5)))
  {
    hide BlockHere, Lazy;
    var s := tag + "{{" + body + "}};" + r;
    var rest := body + "}};" + r;
    assert s[..|tag|] == tag && s[|tag|..] == "{{" + rest;
    assert rest[0] == '[' || rest[0] == '}';
    LazyBraces(body, r);
    assert rest[|body|..] == "}};" + r;
    BlockPieces(tag, s, rest, |body|);
  }

  lemma {:induction false} BlockPieces(tag: string, s: string, rest: string, n: nat)
    requires StartsWith(s, tag) && s[|tag|..] == "{{" + rest && rest != "" && !IsSpace(rest[0])
    requires Lazy(Braces, rest) == Some(n) && StopAt(Braces, rest[n..]) == Some(3)
    ensures BlockHere(tag, s) == Some(Block(|tag| + 2, n, |tag| + n + 5))
  {
    hide Lazy, StopAt;
    var t := s[|tag|..];
    assert s[|tag|] == t[0] == '{' && s[|tag| + 1] == t[1] == '{';
    assert s[|tag| + 2..] == t[2..] == rest;
    assert Spaces(t) == 0 && Spaces(rest) == 0;
    assert s[|tag| + 2 + n..] == rest[n..];
  }
}
