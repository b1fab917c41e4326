// The regular expressions of the text format as ways to match, by the codes
// of the characters, and the scanners against them. A way to match says where
// each part of the pattern ends; among several, a backtracking matcher takes
// the one whose greedy parts reach furthest and whose lazy part is shortest.
module TextPatterns {
  import opened Outcomes
  import opened TextScan

  // \w, \s, and what . does not match.
  predicate WordCode(n: int) {
    48 <= n <= 57 || 65 <= n <= 90 || n == 95 || 97 <= n <= 122
  }

  predicate SpaceCode(n: int) {
    n == 9 || n == 10 || n == 11 || n == 12 || n == 13 || n == 32
  }

  predicate LineCode(n: int) {
    n == 10 || n == 13
  }

  lemma {:induction false} Classes(c: char)
    ensures IsWordChar(c) <==> WordCode(c as int)
    ensures IsSpace(c) <==> SpaceCode(c as int)
    ensures IsNewline(c) <==> LineCode(c as int)
  {
  }

  // ---- Parts of a text ----

  predicate WordSpan(s: string, i: int, j: int) {
    0 <= i < j <= |s| && forall k :: i <= k < j ==> WordCode(s[k] as int)
  }

  predicate SpaceSpan(s: string, i: int, j: int) {
    0 <= i <= j <= |s| && forall k :: i <= k < j ==> SpaceCode(s[k] as int)
  }

  predicate LineSpan(s: string, i: int, j: int) {
    0 <= i <= j <= |s| && forall k :: i <= k < j ==> !LineCode(s[k] as int)
  }

  // ---- Ways to match ----

  // \[(\w+),\s*(\w+),\s*(.*?)\];
  predicate ItemWay(s: string, n: int, a: int, t: int, b: int, p: int) {
    |s| > 0 && s[0] == '[' && WordSpan(s, 1, n) && n < |s| && s[n] == ',' && SpaceSpan(s, n + 1, a) &&
    WordSpan(s, a, t) && t < |s| && s[t] == ',' && SpaceSpan(s, t + 1, b) &&
    LineSpan(s, b, p) && p + 2 <= |s| && s[p] == ']' && s[p + 1] == ';'
  }

  // \[(\w+),(.*?)\];
  predicate PairWay(s: string, n: int, p: int) {
    |s| > 0 && s[0] == '[' && WordSpan(s, 1, n) && n < |s| && s[n] == ',' &&
    LineSpan(s, n + 1, p) && p + 2 <= |s| && s[p] == ']' && s[p + 1] == ';'
  }

  // tag\s*\{\{?\s*(.*?)\s*\}\}?;
  predicate BlockWay(tag: string, s: string, a: int, b: int, c: int, p: int, q: int, e: int) {
    StartsWith(s, tag) && SpaceSpan(s, |tag|, a) && a < |s| && s[a] == '{' &&
    (b == a + 1 || (b == a + 2 <= |s| && s[a + 1] == '{')) && SpaceSpan(s, b, c) &&
    LineSpan(s, c, p) && SpaceSpan(s, p, q) && e <= |s| &&
    ((e == q + 2 && s[q] == '}' && s[q + 1] == ';') ||
     (e == q + 3 && s[q] == '}' && s[q + 1] == '}' && s[q + 2] == ';'))
  }

  // ---- Runs ----

  lemma {:induction false} WordRun(s: string, i: nat, j: nat)
    requires i <= j < |s| && (forall k :: i <= k < j ==> WordCode(s[k] as int)) && !WordCode(s[j] as int)
    ensures Word(s[i..]) == j - i
  {
    var n := Word(s[i..]);
    if n < j - i {
      Classes(s[i..][n]);
    } else if n > j - i {
      Classes(s[i..][j - i]);
    }
  }

  lemma {:induction false} SpaceRun(s: string, i: nat, j: nat)
    requires i <= j <= |s| && (forall k :: i <= k < j ==> SpaceCode(s[k] as int))
    ensures Spaces(s[i..]) >= j - i
    ensures j < |s| && !SpaceCode(s[j] as int) ==> Spaces(s[i..]) == j - i
  {
    var n := Spaces(s[i..]);
    if n < j - i {
      Classes(s[i..][n]);
    } else if n > j - i {
      Classes(s[i..][j - i]);
    }
  }

  // A lazy group ends no later than at any place where it can end.
  lemma {:induction false} LazyLeast(stop: Stop, s: string, i: nat, p: nat)
    requires i <= p <= |s| && LineSpan(s, i, p) && StopAt(stop, s[p..]).Some?
    ensures Lazy(stop, s[i..]).Some? && Lazy(stop, s[i..]).value <= p - i
    decreases p - i
  {
    hide StopAt;
    if i < p {
      Classes(s[i]);
      assert s[i..][1..] == s[i + 1..];
      LazyLeast(stop, s, i + 1, p);
    }
  }

  // It holds no newline.
  lemma {:induction false} LazyLine(stop: Stop, s: string, i: nat)
    requires i <= |s| && Lazy(stop, s[i..]).Some?
    ensures LineSpan(s, i, i + Lazy(stop, s[i..]).value)
    decreases |s| - i
  {
    hide StopAt;
    if StopAt(stop, s[i..]).None? {
      Classes(s[i]);
      assert s[i..][1..] == s[i + 1..];
      LazyLine(stop, s, i + 1);
    }
  }

  lemma {:induction false} BracketStop(s: string, p: nat)
    requires p <= |s|
    ensures StopAt(Bracket, s[p..]).Some? <==> p + 2 <= |s| && s[p] == ']' && s[p + 1] == ';'
  {
    if p + 2 <= |s| {
      assert s[p..][..2] == [s[p], s[p + 1]];
    }
  }

  lemma {:induction false} SpacesPart(s: string, i: nat)
    requires i <= |s|
    ensures i + Spaces(s[i..]) <= |s| && SpaceSpan(s, i, i + Spaces(s[i..]))
  {
    forall k | i <= k < i + Spaces(s[i..]) ensures SpaceCode(s[k] as int) {
      assert IsSpace(s[i..][k - i]);
      Classes(s[k]);
    }
  }

  lemma {:induction false} WordsPart(s: string, i: nat)
    requires i <= |s| && Word(s[i..]) > 0
    ensures i + Word(s[i..]) <= |s| && WordSpan(s, i, i + Word(s[i..]))
  {
    forall k | i <= k < i + Word(s[i..]) ensures WordCode(s[k] as int) {
      assert IsWordChar(s[i..][k - i]);
      Classes(s[k]);
    }
  }

  // ---- Items ----

  // The item found is a way to match.
  lemma {:induction false} ItemIsWay(s: string)
    requires ItemHere(s).Some?
    ensures var i := ItemHere(s).value;
            ItemWay(s, 1 + i.name, i.typeStart, i.typeStart + i.typ, i.start, i.start + i.len) && i.end == i.start + i.len + 2
  {
    hide Lazy, StopAt, Word, Spaces, WordSpan, SpaceSpan, LineSpan, ValueHere;
    var i := ItemHere(s).value;
    WordsPart(s, 1);
    SpacesPart(s, i.name + 2);
    WordsPart(s, i.typeStart);
    ValueIsWay(s, i.name, i.typeStart, i.typ);
  }

  lemma {:induction false} ValueIsWay(s: string, n: nat, a: nat, t: nat)
    requires n + 2 <= a && a + t < |s| && ValueHere(s, n, a, t).Some?
    ensures var i := ValueHere(s, n, a, t).value;
            SpaceSpan(s, a + t + 1, i.start) && LineSpan(s, i.start, i.start + i.len) && i.end == i.start + i.len + 2 <= |s| &&
            s[i.start + i.len] == ']' && s[i.start + i.len + 1] == ';'
  {
    hide Lazy, StopAt, Spaces, SpaceSpan, LineSpan;
    var i := ValueHere(s, n, a, t).value;
    SpacesPart(s, a + t + 1);
    LazyLine(Bracket, s, i.start);
    BracketStop(s, i.start + i.len);
    assert s[i.start..][i.len..] == s[i.start + i.len..];
  }

  // If there is any way to match, an item is found: with the same name and
  // type, and of all ways that one whose text begins last, and ends first.
  lemma {:induction false} ItemIsFirst(s: string, n: nat, a: nat, t: nat, b: nat, p: nat)
    requires ItemWay(s, n, a, t, b, p)
    ensures ItemHere(s).Some?
    ensures var i := ItemHere(s).value;
            1 + i.name == n && i.typeStart == a && i.typeStart + i.typ == t && b <= i.start &&
            (b == i.start ==> i.start + i.len <= p)
  {
    hide TypeHere, Word, SpaceSpan, LineSpan;
    WordRun(s, 1, n);
    assert a >= n + 1 && b >= t + 1 && b <= p by { PartOrder(s, n, a, t, b, p); }
    TypeIsFirst(s, n - 1, a, t, b, p);
  }

  lemma {:induction false} PartOrder(s: string, n: int, a: int, t: int, b: int, p: int)
    requires SpaceSpan(s, n + 1, a) && WordSpan(s, a, t) && SpaceSpan(s, t + 1, b) && LineSpan(s, b, p)
    ensures n + 1 <= a < t < b <= p <= |s|
  {
  }

  lemma {:induction false} TypeIsFirst(s: string, n: nat, a: nat, t: nat, b: nat, p: nat)
    requires SpaceSpan(s, n + 2, a) && WordSpan(s, a, t) && t < |s| && s[t] == ',' && t < b <= p
    requires SpaceSpan(s, t + 1, b) && LineSpan(s, b, p) && p + 2 <= |s| && s[p] == ']' && s[p + 1] == ';'
    ensures TypeHere(s, n).Some?
    ensures var i := TypeHere(s, n).value;
            i.name == n && i.typeStart == a && i.typeStart + i.typ == t && b <= i.start &&
            (b == i.start ==> i.start + i.len <= p)
  {
    hide ValueHere, Word, Spaces, LineSpan;
    SpaceRun(s, n + 2, a);
    WordRun(s, a, t);
    ValueIsFirst(s, n, a, t - a, b, p);
  }

  lemma {:induction false} ValueIsFirst(s: string, n: nat, a: nat, t: nat, b: nat, p: nat)
    requires n + 2 <= a && a + t + 1 <= b <= p && a + t < |s| && SpaceSpan(s, a + t + 1, b) && LineSpan(s, b, p)
    requires p + 2 <= |s| && s[p] == ']' && s[p + 1] == ';'
    ensures ValueHere(s, n, a, t).Some?
    ensures var i := ValueHere(s, n, a, t).value;
            i.name == n && i.typeStart == a && i.typ == t && b <= i.start && (b == i.start ==> i.start + i.len <= p)
  {
    hide Lazy, StopAt, Spaces, SpaceSpan, LineSpan;
    var start := a + t + 1 + Spaces(s[a + t + 1..]);
    TextStart(s, a + t + 1, b, p, start);
    BracketStop(s, p);
    LazyLeast(Bracket, s, start, p);
  }

  // The spaces in front of a text do not reach past its end.
  lemma {:induction false} TextStart(s: string, i: nat, b: nat, p: nat, start: nat)
    requires i <= b && SpaceSpan(s, i, b) && LineSpan(s, b, p) && p < |s| && !SpaceCode(s[p] as int)
    requires start == i + Spaces(s[i..])
    ensures b <= start <= p && LineSpan(s, start, p)
  {
    SpaceRun(s, i, b);
    if start > p {
      Classes(s[i..][p - i]);
    }
  }

  // ---- Pairs ----

  lemma {:induction false} PairIsWay(s: string)
    requires PairHere(s).Some?
    ensures var r := PairHere(s).value;
            PairWay(s, 1 + r.key, r.start + r.len) && r.start == r.key + 2 && r.end == r.start + r.len + 2
  {
    hide Lazy, StopAt, Word, WordSpan, LineSpan;
    var r := PairHere(s).value;
    WordsPart(s, 1);
    LazyLine(Bracket, s, r.start);
    BracketStop(s, r.start + r.len);
    assert s[r.start..][r.len..] == s[r.start + r.len..];
  }

  // If there is any way to match, a pair is found, with the same key and the
  // shortest text.
  lemma {:induction false} PairIsFirst(s: string, n: nat, p: nat)
    requires PairWay(s, n, p)
    ensures PairHere(s).Some?
    ensures var r := PairHere(s).value; 1 + r.key == n && r.start + r.len <= p
  {
    hide Lazy, StopAt;
    WordRun(s, 1, n);
    BracketStop(s, p);
    LazyLeast(Bracket, s, n + 1, p);
  }

  // ---- Sections ----

  // The end of a section: its spaces from p to q, its braces up to e.
  predicate BracesWay(s: string, p: int, q: int, e: int) {
    SpaceSpan(s, p, q) && e <= |s| &&
    ((e == q + 2 && s[q] == '}' && s[q + 1] == ';') ||
     (e == q + 3 && s[q] == '}' && s[q + 1] == '}' && s[q + 2] == ';'))
  }

  lemma {:induction false} BracesStop(s: string, p: nat, q: nat, e: nat)
    requires BracesWay(s, p, q, e)
    ensures StopAt(Braces, s[p..]) == Some(e - p) && q == p + Spaces(s[p..])
  {
    SpaceRun(s, p, q);
    assert s[p..][q - p..] == s[q..];
    assert s[q..][..2] == [s[q], s[q + 1]];
    assert e == q + 3 ==> s[q..][..3] == [s[q], s[q + 1], s[q + 2]];
    assert |s[q..]| >= 3 ==> s[q..][..3][1] == s[q + 1];
  }

  lemma {:induction false} StopIsBraces(s: string, p: nat)
    requires p <= |s| && StopAt(Braces, s[p..]).Some?
    ensures BracesWay(s, p, p + Spaces(s[p..]), p + StopAt(Braces, s[p..]).value)
  {
    hide Spaces, SpaceSpan;
    var q := p + Spaces(s[p..]);
    SpacesPart(s, p);
    assert s[p..][q - p..] == s[q..];
    if StartsWith(s[q..], "}};") {
      assert s[q..][..3][0] == s[q] && s[q..][..3][1] == s[q + 1] && s[q..][..3][2] == s[q + 2];
    } else {
      assert s[q..][..2][0] == s[q] && s[q..][..2][1] == s[q + 1];
    }
  }

  // Some way to match has its text from c to p and ends at e.
  ghost predicate SomeWay(tag: string, s: string, c: int, p: int, e: int) {
    exists a, b, q :: BlockWay(tag, s, a, b, c, p, q, e)
  }

  // The section found is a way to match.
  lemma {:induction false} BlockIsWay(tag: string, s: string)
    requires BlockHere(tag, s).Some?
    ensures var r := BlockHere(tag, s).value; SomeWay(tag, s, r.start, r.start + r.len, r.end)
  {
    hide Lazy, StopAt, Spaces, SpaceSpan, LineSpan, GroupHere;
    var r := BlockHere(tag, s).value;
    var a := |tag| + Spaces(s[|tag|..]);
    var b := if a + 1 < |s| && s[a + 1] == '{' then a + 2 else a + 1;
    SpacesPart(s, |tag|);
    SpacesPart(s, b);
    GroupIsWay(s, r.start);
    var p := r.start + r.len;
    assert BlockWay(tag, s, a, b, r.start, p, p + Spaces(s[p..]), r.end);
  }

  lemma {:induction false} GroupIsWay(s: string, c: nat)
    requires c <= |s| && GroupHere(s, c).Some?
    ensures var r := GroupHere(s, c).value;
            var p := c + r.len;
            r.start == c && LineSpan(s, c, p) && p <= |s| && BracesWay(s, p, p + Spaces(s[p..]), r.end)
  {
    hide Lazy, StopAt, Spaces, SpaceSpan, LineSpan, BracesWay;
    var r := GroupHere(s, c).value;
    LazyLine(Braces, s, c);
    assert s[c..][r.len..] == s[c + r.len..];
    StopIsBraces(s, c + r.len);
  }

  // If there is any way to match, a section is found, and of all ways it is
  // the one whose text begins last and ends first.
  lemma {:induction false} BlockIsFirst(tag: string, s: string, a: nat, b: nat, c: nat, p: nat, q: nat, e: nat)
    requires BlockWay(tag, s, a, b, c, p, q, e)
    ensures BlockHere(tag, s).Some?
    ensures var r := BlockHere(tag, s).value;
            c <= r.start && (c == r.start ==> r.start + r.len <= p && (r.start + r.len == p ==> r.end == e))
  {
    hide GroupHere, Spaces;
    SpaceRun(s, |tag|, a);
    var b' := if a + 1 < |s| && s[a + 1] == '{' then a + 2 else a + 1;
    LaterStart(s, a, b, b', c, p, q, e);
    hide LineSpan, SpaceSpan;
    GroupIsFirst(s, b' + Spaces(s[b'..]), c, p, q, e);
  }

  // The group begins no earlier than in any other way.
  lemma {:induction false} LaterStart(s: string, a: nat, b: nat, b': nat, c: nat, p: nat, q: nat, e: nat)
    requires a < |s| && b' == (if a + 1 < |s| && s[a + 1] == '{' then a + 2 else a + 1)
    requires b == a + 1 || (b == a + 2 <= |s| && s[a + 1] == '{')
    requires SpaceSpan(s, b, c) && LineSpan(s, c, p) && BracesWay(s, p, q, e)
    ensures b' <= |s| && c <= b' + Spaces(s[b'..]) && b' <= p && SpaceSpan(s, b', b' + Spaces(s[b'..]))
  {
    hide Spaces;
    SpacesPart(s, b');
    if b == b' {
      SpaceRun(s, b, c);
    } else {
      assert c == b && s[b] == '{';
      assert p == b ==> q == b;
    }
  }

  lemma {:induction false} GroupIsFirst(s: string, start: nat, c: nat, p: nat, q: nat, e: nat)
    requires c <= start <= |s| && LineSpan(s, c, p) && BracesWay(s, p, q, e)
    requires start > p ==> SpaceSpan(s, p, start)
    ensures GroupHere(s, start).Some?
    ensures var r := GroupHere(s, start).value;
            r.start == start && (c == start ==> start + r.len <= p && (start + r.len == p ==> r.end == e))
  {
    hide Lazy, StopAt, Spaces;
    BracesStop(s, p, q, e);
    if start <= p {
      LazyLeast(Braces, s, start, p);
    } else {
      BracesLater(s, p, q, e, start);
      LazyLeast(Braces, s, start, start);
    }
    var n := Lazy(Braces, s[start..]).value;
    assert s[start..][n..] == s[start + n..];
  }

  // An end that begins in front of a run of spaces ends behind it.
  lemma {:induction false} BracesLater(s: string, p: nat, q: nat, e: nat, start: nat)
    requires BracesWay(s, p, q, e) && p <= start && SpaceSpan(s, p, start)
    ensures start <= q && StopAt(Braces, s[start..]).Some?
  {
    BracesStop(s, start, q, e);
  }

  // The leftmost place where the pattern matches.
  lemma {:induction false} FirstBlock(tag: string, s: string)
    ensures FindBlock(tag, s) == None ==> forall i :: 0 <= i <= |s| ==> BlockHere(tag, s[i..]) == None
    ensures FindBlock(tag, s).Some? ==>
              var f := FindBlock(tag, s).value;
              BlockHere(tag, s[f.at..]) == Some(f.block) && forall i :: 0 <= i < f.at ==> BlockHere(tag, s[i..]) == None
  {
    hide BlockHere;
    assert s[0..] == s;
    if BlockHere(tag, s).None? && s != "" {
      FirstBlock(tag, s[1..]);
      forall i | 1 <= i <= |s| ensures s[1..][i - 1..] == s[i..] {
      }
    }
  }
}
