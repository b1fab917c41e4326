// The streaming base64 coders: a 32-bit accumulator and a bit counter,
// against the grouping of section 4 of RFC 4648.
module Base64Codec {
  import opened Outcomes
  import opened LittleEndian

  // A C++ int after arithmetic that overflowed: the low 32 bits, signed.
  function Int32(x: int): int {
    (x + 0x8000_0000) % U32 - 0x8000_0000
  }

  // ---- The alphabet ----

  type sextet = x: int | 0 <= x < 64

  function Alpha(v: sextet): char {
    if v < 26 then 'A' + v as char
    else if v < 52 then 'a' + (v - 26) as char
    else if v < 62 then '0' + (v - 52) as char
    else if v == 62 then '+' else '/'
  }

  // Position of a character in the alphabet.
  function Find(c: char): (r: Option<sextet>)
    ensures r.Some? ==> Alpha(r.value) == c
    ensures r == None ==> forall v: sextet :: Alpha(v) != c
  {
    if 'A' <= c <= 'Z' then Some((c - 'A') as int)
    else if 'a' <= c <= 'z' then Some(26 + (c - 'a') as int)
    else if '0' <= c <= '9' then Some(52 + (c - '0') as int)
    else if c == '+' then Some(62) else if c == '/' then Some(63) else None
  }

  lemma {:induction false} FindAlpha(v: sextet)
    ensures Find(Alpha(v)) == Some(v) && Alpha(v) != '=' && Alpha(v) < 128 as char
  {
  }

  // ---- Section 4 of RFC 4648 ----

  // Three bytes as one 24-bit number, cut into four sextets.
  function Group(a: byte, b: byte, c: byte): (g: seq<sextet>)
    ensures |g| == 4
  {
    var n := a * 65536 + b * 256 + c;
    [n / 262144, n / 4096 % 64, n / 64 % 64, n % 64]
  }

  function Chars(g: seq<sextet>): (s: string)
    ensures |s| == |g|
  {
    if g == [] then [] else [Alpha(g[0])] + Chars(g[1..])
  }

  // The encoding: full groups, then one or two bytes filled up with zero bits
  // and padded with '='.
  function Encoded(d: Str): string {
    if d == [] then []
    else if |d| == 1 then Chars(Group(d[0], 0, 0)[..2]) + "=="
    else if |d| == 2 then Chars(Group(d[0], d[1], 0)[..3]) + "="
    else Chars(Group(d[0], d[1], d[2])) + Encoded(d[3..])
  }

  lemma {:induction false} EncodedLength(d: Str)
    ensures |Encoded(d)| == 4 * ((|d| + 2) / 3)
  {
    hide Chars, Group;
    if |d| >= 3 {
      EncodedLength(d[3..]);
    }
  }

  // ---- What a sequence of sextets stands for ----

  function Byte1(v: int, w: int): byte
    requires 0 <= v < 64 && 0 <= w < 64
  {
    (v * 64 + w) / 16
  }

  function Byte2(v: int, w: int): byte
    requires 0 <= v < 64 && 0 <= w < 64
  {
    (v % 16 * 64 + w) / 4
  }

  function Byte3(v: int, w: int): byte
    requires 0 <= v < 64 && 0 <= w < 64
  {
    v % 4 * 64 + w
  }

  // Four sextets give three bytes; bits short of a byte are dropped.
  function Bytes(v: seq<sextet>): Str {
    if |v| < 2 then []
    else if |v| == 2 then [Byte1(v[0], v[1])]
    else if |v| == 3 then [Byte1(v[0], v[1]), Byte2(v[1], v[2])]
    else [Byte1(v[0], v[1]), Byte2(v[1], v[2]), Byte3(v[2], v[3])] + Bytes(v[4..])
  }

  // What the header's decoder reads: it stops at the first '=' and skips
  // characters outside the alphabet.
  function Sextets(s: string): seq<sextet> {
    if s == [] || s[0] == '=' then []
    else
      match Find(s[0])
      case None => Sextets(s[1..])
      case Some(v) => [v] + Sextets(s[1..])
  }

  // What the stub's decoder reads: it stops at the first character outside
  // the alphabet.
  function StubSextets(s: string): seq<sextet> {
    if s == [] then []
    else
      match Find(s[0])
      case None => []
      case Some(v) => [v] + StubSextets(s[1..])
  }

  // ---- Decoding what was encoded ----

  lemma {:induction false} SextetsOfChars(g: seq<sextet>, t: string)
    ensures Sextets(Chars(g) + t) == g + Sextets(t)
    ensures StubSextets(Chars(g) + t) == g + StubSextets(t)
  {
    hide Alpha, Find, Sextets, StubSextets;
    if g == [] {
      assert Chars(g) + t == t;
    } else {
      SextetsOfChars(g[1..], t);
      assert Chars(g) + t == [Alpha(g[0])] + (Chars(g[1..]) + t);
      OneSextet(g[0], Chars(g[1..]) + t);
      Regroup(g, Sextets(t));
      Regroup(g, StubSextets(t));
    }
  }

  lemma {:induction false} OneSextet(v: sextet, t: string)
    ensures Sextets([Alpha(v)] + t) == [v] + Sextets(t)
    ensures StubSextets([Alpha(v)] + t) == [v] + StubSextets(t)
  {
    hide Alpha, Find;
    FindAlpha(v);
    assert ([Alpha(v)] + t)[1..] == t;
  }

  lemma {:induction false} Regroup(g: seq<sextet>, t: seq<sextet>)
    requires g != []
    ensures [g[0]] + (g[1..] + t) == g + t
  {
  }

  // The sextets of a group, read off the bytes.
  lemma {:induction false} GroupBits(a: byte, b: byte, c: byte)
    ensures Group(a, b, c) == [a / 4, a % 4 * 16 + b / 16, b % 16 * 4 + c / 64, c % 64]
  {
    var n := a * 65536 + b * 256 + c;
    var a1, a2, b1, b2, c1, c2 := a / 4, a % 4, b / 16, b % 16, c / 64, c % 64;
    assert n == 262144 * a1 + (65536 * a2 + 256 * b + c);
    assert n == 4096 * (64 * a1 + (16 * a2 + b1)) + (256 * b2 + c);
    assert n == 64 * (64 * (64 * a1 + 16 * a2 + b1) + (4 * b2 + c1)) + c2;
    Quotient(n, 262144, a1, 65536 * a2 + 256 * b + c);
    Quotient(n, 4096, 64 * a1 + (16 * a2 + b1), 256 * b2 + c);
    Quotient(64 * a1 + (16 * a2 + b1), 64, a1, 16 * a2 + b1);
    Quotient(n, 64, 64 * (64 * a1 + 16 * a2 + b1) + (4 * b2 + c1), c2);
    Quotient(64 * (64 * a1 + 16 * a2 + b1) + (4 * b2 + c1), 64, 64 * a1 + 16 * a2 + b1, 4 * b2 + c1);
  }

  lemma {:induction false} Quotient(n: int, m: int, q: int, r: int)
    requires m > 0 && n == m * q + r && 0 <= r < m
    ensures n / m == q && n % m == r
  {
    MulGap(m, n / m, q);
    MulGap(m, q, n / m);
  }

  lemma {:induction false} MulGap(m: int, k: int, q: int)
    requires m > 0
    ensures k < q ==> m * k + m <= m * q
    decreases q - k
  {
    if k + 1 < q {
      MulGap(m, k, q - 1);
      assert m * q == m * (q - 1) + m;
    } else if k + 1 == q {
      assert m * q == m * k + m;
    }
  }

  lemma {:induction false} UngroupGroup(a: byte, b: byte, c: byte)
    ensures var g := Group(a, b, c); Byte1(g[0], g[1]) == a && Byte2(g[1], g[2]) == b && Byte3(g[2], g[3]) == c
  {
    GroupBits(a, b, c);
    var a2, b1, b2, c1: int := a % 4, b / 16, b % 16, c / 64;
    Quotient(a / 4 * 64 + (a2 * 16 + b1), 16, a, b1);
    Quotient(a2 * 16 + b1, 16, a2, b1);
    Quotient(b1 * 64 + (b2 * 4 + c1), 4, b, c1);
    Quotient(b2 * 4 + c1, 4, b2, c1);
  }

  // Both decoders give back every byte string that was encoded.
  lemma {:induction false} RoundTrip(d: Str)
    ensures Bytes(Sextets(Encoded(d))) == d
    ensures StubSextets(Encoded(d)) == Sextets(Encoded(d))
  {
    hide Alpha, Chars, Group, Byte1, Byte2, Byte3, StubSextets;
    PaddingEnds();
    if d == [] {
      NothingEncoded();
    } else if |d| == 1 {
      var g := Group(d[0], 0, 0);
      SextetsOfChars(g[..2], "==");
      UngroupGroup(d[0], 0, 0);
      assert g[..2] + Sextets("==") == [g[0], g[1]];
    } else if |d| == 2 {
      var g := Group(d[0], d[1], 0);
      SextetsOfChars(g[..3], "=");
      UngroupGroup(d[0], d[1], 0);
      assert g[..3] + Sextets("=") == [g[0], g[1], g[2]];
    } else {
      var g := Group(d[0], d[1], d[2]);
      SextetsOfChars(g, Encoded(d[3..]));
      UngroupGroup(d[0], d[1], d[2]);
      RoundTrip(d[3..]);
      assert (g + Sextets(Encoded(d[3..])))[4..] == Sextets(Encoded(d[3..]));
      assert d == [d[0], d[1], d[2]] + d[3..];
    }
  }

  lemma {:induction false} NothingEncoded()
    ensures Sextets([]) == [] && StubSextets([]) == []
  {
  }

  // Nothing but padding after the last sextet.
  lemma {:induction false} PaddingEnds()
    ensures Sextets("==") == [] && Sextets("=") == [] && StubSextets("==") == [] && StubSextets("=") == []
  {
  }

  // ---- Where the two decoders differ ----

  predicate InAlphabet(c: char) {
    Find(c).Some?
  }

  // An alphabet character before the first '=' but behind a character outside
  // the alphabet: the header reads it, the stub has stopped.
  predicate Late(s: string, i: nat) {
    i < |s| && InAlphabet(s[i]) && (forall j :: 0 <= j < i ==> s[j] != '=') &&
    exists j :: 0 <= j < i && !InAlphabet(s[j])
  }

  // The number of late characters among the first n.
  function LateCount(s: string, n: nat): nat {
    if n == 0 then 0 else LateCount(s, n - 1) + (if Late(s, n - 1) then 1 else 0)
  }

  // How many alphabet characters s starts with.
  function Leading(s: string): (k: nat)
    ensures k <= |s| && (k < |s| ==> !InAlphabet(s[k])) && forall j :: 0 <= j < k ==> InAlphabet(s[j])
  {
    if s == [] || !InAlphabet(s[0]) then 0 else 1 + Leading(s[1..])
  }

  lemma {:induction false} SextetsAppend(s: string, c: char)
    ensures Sextets(s + [c])
         == Sextets(s) + (if InAlphabet(c) && forall j :: 0 <= j < |s| ==> s[j] != '=' then [Find(c).value] else [])
  {
    FindEquals();
    hide Find;
    if s == [] {
      assert (s + [c])[1..] == [];
    } else {
      var t := s[1..];
      assert (s + [c])[1..] == t + [c];
      SextetsAppend(t, c);
      assert (forall j :: 0 <= j < |s| ==> s[j] != '=') <==> s[0] != '=' && forall j :: 0 <= j < |t| ==> t[j] != '=' by {
        assert forall j :: 0 <= j < |t| ==> t[j] == s[j + 1];
        assert forall j :: 0 < j < |s| ==> s[j] == t[j - 1];
      }
    }
  }

  lemma {:induction false} FindEquals()
    ensures Find('=') == None
  {
  }

  lemma {:induction false} StubAppend(s: string, c: char)
    ensures StubSextets(s + [c])
         == StubSextets(s) + (if InAlphabet(c) && forall j :: 0 <= j < |s| ==> InAlphabet(s[j]) then [Find(c).value] else [])
  {
    hide Find;
    if s == [] {
      assert (s + [c])[1..] == [];
    } else {
      var t := s[1..];
      assert (s + [c])[1..] == t + [c];
      StubAppend(t, c);
      assert (forall j :: 0 <= j < |s| ==> InAlphabet(s[j])) <==> InAlphabet(s[0]) && forall j :: 0 <= j < |t| ==> InAlphabet(t[j]) by {
        assert forall j :: 0 <= j < |t| ==> t[j] == s[j + 1];
        assert forall j :: 0 < j < |s| ==> s[j] == t[j - 1];
      }
    }
  }

  // The header reads what the stub reads, and then the late characters.
  lemma {:induction false} HeaderReadsMore(s: string, n: nat)
    requires n <= |s|
    ensures StubSextets(s[..n]) <= Sextets(s[..n])
    ensures |Sextets(s[..n])| == |StubSextets(s[..n])| + LateCount(s, n)
  {
    if n > 0 {
      var t, c := s[..n - 1], s[n - 1];
      FindEquals();
      hide Find, Sextets, StubSextets;
      HeaderReadsMore(s, n - 1);
      assert s[..n] == t + [c];
      SextetsAppend(t, c);
      StubAppend(t, c);
      assert forall j :: 0 <= j < n - 1 ==> t[j] == s[j];
      if InAlphabet(c) && forall j :: 0 <= j < n - 1 ==> InAlphabet(t[j]) {
        assert !Late(s, n - 1);
        AllRead(t);
      }
    }
  }

  // Text of alphabet characters only is read alike.
  lemma {:induction false} AllRead(s: string)
    requires forall j :: 0 <= j < |s| ==> InAlphabet(s[j])
    ensures Sextets(s) == StubSextets(s) && |Sextets(s)| == |s| && forall j :: 0 <= j < |s| ==> s[j] != '='
  {
    FindEquals();
    hide Find;
    if s != [] {
      AllRead(s[1..]);
      assert forall j :: 0 < j < |s| ==> s[j] == s[1..][j - 1];
    }
  }

  lemma {:induction false} StubReadsLeading(s: string)
    ensures |StubSextets(s)| == Leading(s)
  {
    if s != [] && InAlphabet(s[0]) {
      StubReadsLeading(s[1..]);
    }
  }

  // Fewer sextets give a prefix of the bytes; k sextets give 3 * k / 4.
  lemma {:induction false} BytesPrefix(v: seq<sextet>, k: nat)
    requires k <= |v|
    ensures Bytes(v[..k]) <= Bytes(v) && |Bytes(v)| == 3 * |v| / 4
    ensures |Bytes(v[..k])| == 3 * k / 4
    decreases |v|
  {
    hide Byte1, Byte2, Byte3;
    if |v| >= 4 {
      BytesPrefix(v[4..], if k >= 4 then k - 4 else 0);
      if k >= 4 {
        assert v[..k][4..] == v[4..][..k - 4];
      }
    }
  }

  // The two decoders return the same bytes if and only if no character is
  // late, or only one is and the stub stops at the end of a group: one sextet
  // more than a whole number of groups makes no byte.
  lemma {:induction false} DecodersAgree(s: string)
    ensures Bytes(Sextets(s)) == Bytes(StubSextets(s)) <==>
              LateCount(s, |s|) == 0 || (LateCount(s, |s|) == 1 && Leading(s) % 4 == 0)
    ensures Sextets(s) == StubSextets(s) <==> forall i: nat :: !Late(s, i)
  {
    hide Bytes, Sextets, StubSextets, LateCount, Leading, Late;
    var a, b := Sextets(s), StubSextets(s);
    assert s[..|s|] == s;
    HeaderReadsMore(s, |s|);
    StubReadsLeading(s);
    assert a[..|b|] == b && a[..|a|] == a;
    BytesPrefix(a, |b|);
    NoneLate(s, |s|);
    LateInside(s);
    SameLength(|a|, |b|);
    assert Bytes(b) <= Bytes(a) && (Bytes(a) == Bytes(b) <==> |Bytes(a)| == |Bytes(b)|);
  }

  lemma {:induction false} LateInside(s: string)
    ensures forall i: nat :: Late(s, i) ==> i < |s|
  {
  }

  lemma {:induction false} SameLength(m: nat, n: nat)
    requires n <= m
    ensures 3 * m / 4 == 3 * n / 4 <==> m == n || (m == n + 1 && n % 4 == 0)
  {
  }

  lemma {:induction false} NoneLate(s: string, n: nat)
    ensures LateCount(s, n) == 0 <==> forall i: nat :: i < n ==> !Late(s, i)
  {
    hide Late;
    if n > 0 { NoneLate(s, n - 1); }
  }

  // ---- The accumulator ----

  // The low twelve bits survive the wrap-around.
  lemma {:induction false} WrapMod(x: int)
    ensures Int32(x) % 4096 == x % 4096
  {
    var q := (x + 0x8000_0000) / U32;
    assert Int32(x) == x - q * U32;
    Quotient(Int32(x), 4096, x / 4096 - 1048576 * q, x % 4096);
  }

  // The four sextets that can be cut out of the accumulator.
  lemma {:induction false} Cuts(v: int, w: int)
    requires v % 4096 == w
    ensures v / 4 % 64 == w / 4 % 64 && v / 16 % 64 == w / 16 % 64 && v / 64 % 64 == w / 64 && v % 64 == w % 64
  {
    var q := v / 4096;
    Quotient(v, 4, 1024 * q + w / 4, w % 4);
    Quotient(1024 * q + w / 4, 64, 16 * q + w / 4 / 64, w / 4 % 64);
    Quotient(v, 16, 256 * q + w / 16, w % 16);
    Quotient(256 * q + w / 16, 64, 4 * q + w / 16 / 64, w / 16 % 64);
    Quotient(v, 64, 64 * q + w / 64, w % 64);
    Quotient(64 * q + w / 64, 64, q, w / 64);
  }

  // Shifting a byte in: what can be cut out then, by how many bits were
  // waiting, with prev the byte before.
  lemma {:induction false} ShiftIn(val: int, prev: byte, c: byte)
    ensures var v := Int32(val * 256) + c;
            v / 4 % 64 == c / 4 && v % 4 == c % 4 && v % 16 == c % 16 && v % 64 == c % 64 &&
            (val % 4 == prev % 4 ==> v / 16 % 64 == prev % 4 * 16 + c / 16) &&
            (val % 16 == prev % 16 ==> v / 64 % 64 == prev % 16 * 4 + c / 64)
  {
    WrapMod(val * 256);
    var v := Int32(val * 256) + c;
    var low := val % 16;
    var q := val / 16;
    Quotient(val * 256, 4096, q, low * 256);
    Quotient(v, 4096, Int32(val * 256) / 4096, low * 256 + c);
    Cuts(v, low * 256 + c);
    Quotient(low * 256 + c, 4, 64 * low + c / 4, c % 4);
    Quotient(64 * low + c / 4, 64, low, c / 4);
    Quotient(low * 256 + c, 16, 16 * low + c / 16, c % 16);
    Quotient(16 * low + c / 16, 64, low / 4, low % 4 * 16 + c / 16);
    Quotient(low * 256 + c, 64, 4 * low + c / 64, c % 64);
    Quotient(v, 16, v / 4096 * 256 + 16 * low + c / 16, c % 16);
    Quotient(v, 4, v / 4096 * 1024 + 64 * low + c / 4, c % 4);
    Quotient(val, 4, q * 4 + low / 4, low % 4);
  }

  // ---- The loops ----

  function Pow2(n: nat): (p: nat)
    ensures p > 0
  {
    if n == 0 then 1 else 2 * Pow2(n - 1)
  }

  lemma {:induction false} Powers()
    ensures Pow2(0) == 1 && Pow2(2) == 4 && Pow2(4) == 16 && Pow2(6) == 64
  {
    assert Pow2(1) == 2 && Pow2(3) == 8 && Pow2(5) == 32;
  }

  // The first characters of an encoding, one input byte at a time.
  lemma {:induction false} EncodedHead(d: Str)
    requires d != []
    ensures var e := Encoded(d);
            |e| >= 4 && e[0] == Alpha(d[0] / 4) &&
            (|d| == 1 ==> e[1..] == [Alpha(d[0] % 4 * 16)] + "==") &&
            (|d| >= 2 ==> e[1] == Alpha(d[0] % 4 * 16 + d[1] / 16)) &&
            (|d| == 2 ==> e[2..] == [Alpha(d[1] % 16 * 4)] + "=") &&
            (|d| >= 3 ==> e[2] == Alpha(d[1] % 16 * 4 + d[2] / 64) && e[3] == Alpha(d[2] % 64) && e[4..] == Encoded(d[3..]))
  {
    hide Alpha, Group;
    var a, b, c := d[0], if |d| > 1 then d[1] else 0, if |d| > 2 then d[2] else 0;
    GroupBits(a, b, c);
    CharsAt(Group(a, b, c));
    CharsAt(Group(a, b, c)[..2]);
    CharsAt(Group(a, b, c)[..3]);
  }

  lemma {:induction false} CharsAt(g: seq<sextet>)
    ensures forall i :: 0 <= i < |g| ==> Chars(g)[i] == Alpha(g[i])
  {
    hide Alpha;
    if g != [] {
      CharsAt(g[1..]);
    }
  }

  // What is still to be written once i bytes are in: the encoding from the
  // current group on, less the sextets of it already written.
  function Rest(d: Str, i: nat): string
    requires i <= |d|
  {
    var e := Encoded(d[i - i % 3..]);
    if i % 3 <= |e| then e[i % 3..] else []
  }

  // The sextets byte i completes.
  function Written(d: Str, i: nat): string
    requires i < |d|
  {
    if i % 3 == 0 then [Alpha(d[i] / 4)]
    else if i % 3 == 1 then [Alpha(d[i - 1] % 4 * 16 + d[i] / 16)]
    else [Alpha(d[i - 1] % 16 * 4 + d[i] / 64), Alpha(d[i] % 64)]
  }

  lemma {:induction false} RestStep(d: Str, i: nat)
    requires i < |d|
    ensures Rest(d, i) == Written(d, i) + Rest(d, i + 1)
  {
    hide Alpha, Encoded;
    var j := i % 3;
    var t := d[i - j..];
    EncodedHead(t);
    var e := Encoded(t);
    if j < 2 {
      assert (i + 1) % 3 == j + 1;
      assert e[j..] == [e[j]] + e[j + 1..];
    } else {
      assert d[i + 1..] == t[3..];
      assert e[2..] == [e[2], e[3]] + e[4..];
    }
  }

  // val's low bits are the bits of the last byte not yet written.
  predicate Pending(d: Str, i: nat, val: int, valb: int)
    requires i <= |d|
  {
    if i % 3 == 0 then valb == -6
    else if i % 3 == 1 then valb == -4 && val % 4 == d[i - 1] % 4
    else valb == -2 && val % 16 == d[i - 1] % 16
  }

  // The character for the sextet at bit valb: (val >> valb) & 0x3F.
  function Cut(val: int, valb: nat): char {
    Alpha(val / Pow2(valb) % 64)
  }

  // to_base64: the header and the stub run the same loop.
  method ToBase64(data: Str) returns (result: string)
    ensures result == Encoded(data)
    ensures |result| == 4 * ((|data| + 2) / 3)
  {
    hide Encoded, Int32, Cut, Pending, Rest, Written;
    RestStart(data);
    result := [];
    var val, valb := 0, -6;
    for i := 0 to |data|
      invariant Pending(data, i, val, valb)
      invariant result + Rest(data, i) == Encoded(data)
    {
      RestStep(data, i);
      ghost var before, last := result, val;
      val := Int32(val * 256) + data[i];
      valb := valb + 8;
      Cutting(data, i, last, val, valb);
      ghost var top := valb;
      while valb >= 0
        invariant valb == top || valb == top - 6 || (valb == top - 12 && top == 6)
        invariant valb == top ==> result == before
        invariant valb == top - 6 ==> result == before + [Cut(val, top)]
        invariant valb == top - 12 ==> result == before + [Cut(val, 6), Cut(val, 0)]
      {
        result := result + [Cut(val, valb)];
        valb := valb - 6;
      }
      assert result == before + Written(data, i);
      assert before + (Written(data, i) + Rest(data, i + 1)) == result + Rest(data, i + 1);
    }
    ghost var padding := Rest(data, |data|);
    Flush(data, val, valb);
    if valb > -6 {
      result := result + [Cut(Int32(val * 256), valb + 8)];
      padding := padding[1..];
    }
    EncodedLength(data);
    result := Pad(result, Encoded(data), padding);
  }

  // The loop that pads to whole groups.
  method Pad(text: string, ghost whole: string, ghost padding: string) returns (result: string)
    requires text + padding == whole && |whole| % 4 == 0 && |padding| < 4
    requires forall i :: 0 <= i < |padding| ==> padding[i] == '='
    ensures result == whole
  {
    result := text;
    ghost var left := padding;
    while |result| % 4 != 0
      invariant result + left == whole && |left| < 4
      invariant forall i :: 0 <= i < |left| ==> left[i] == '='
      decreases |left|
    {
      assert left == ['='] + left[1..];
      result := result + ['='];
      left := left[1..];
    }
  }

  // What one byte adds to the accumulator and lets the loop write.
  lemma {:induction false} Cutting(d: Str, i: nat, last: int, val: int, valb: int)
    requires i < |d| && Pending(d, i, last, valb - 8) && val == Int32(last * 256) + d[i]
    ensures valb == 2 || valb == 4 || valb == 6
    ensures Written(d, i) == if valb < 6 then [Cut(val, valb)] else [Cut(val, 6), Cut(val, 0)]
    ensures Pending(d, i + 1, val, if valb < 6 then valb - 6 else -6)
  {
    hide Alpha, Int32;
    Powers();
    ShiftIn(last, if i > 0 then d[i - 1] else 0, d[i]);
  }

  // The bits left over, filled up with zeros, and the padding behind them.
  lemma {:induction false} Flush(d: Str, val: int, valb: int)
    requires Pending(d, |d|, val, valb)
    ensures valb >= -6 && (valb == -6 ==> Rest(d, |d|) == [])
    ensures valb > -6 ==> exists pad: string :: 0 < |pad| < 3 && (forall i :: 0 <= i < |pad| ==> pad[i] == '=') &&
                            Rest(d, |d|) == [Cut(Int32(val * 256), valb + 8)] + pad
  {
    hide Alpha, Int32, Encoded;
    Powers();
    var t := d[|d| - |d| % 3..];
    EmptyEncoded();
    if t != [] {
      ShiftIn(val, d[|d| - 1], 0);
      EncodedHead(t);
      var pad := Rest(d, |d|)[1..];
      assert pad == if |t| == 1 then "==" else "=";
      assert Rest(d, |d|) == [Rest(d, |d|)[0]] + pad;
    }
  }

  lemma {:induction false} RestStart(d: Str)
    ensures Rest(d, 0) == Encoded(d) && Pending(d, 0, 0, -6)
  {
    assert d[0..] == d;
  }

  lemma {:induction false} EmptyEncoded()
    ensures Encoded([]) == []
  {
  }

  // ---- Decoding ----

  // The byte at bit valb: (val >> valb) & 0xFF.
  function CutByte(val: int, valb: nat): byte {
    val / Pow2(valb) % 256
  }

  // Shifting a sextet in: the low twelve bits then.
  lemma {:induction false} SextetIn(val: int, x: sextet)
    ensures Int32(Int32(val * 64) + x) % 4096 == val % 64 * 64 + x
  {
    hide Int32;
    WrapMod(Int32(val * 64) + x);
    WrapMod(val * 64);
    var low: int := val % 64;
    Quotient(val * 64, 4096, val / 64, low * 64);
    Quotient(Int32(val * 64) + x, 4096, Int32(val * 64) / 4096, low * 64 + x);
  }

  // What can be cut out of an accumulator whose low twelve bits are those of
  // a sextet y and the sextet x behind it.
  lemma {:induction false} SextetCuts(v: int, y: int, x: sextet)
    requires 0 <= y < 64 && v % 4096 == y * 64 + x
    ensures v % 64 == x && v % 16 == x % 16 && v % 4 == x % 4
    ensures v / 16 % 256 == Byte1(y, x) && v / 4 % 256 == Byte2(y, x) && v % 256 == Byte3(y, x)
  {
    hide Byte1, Byte2, Byte3;
    var q := v / 4096;
    LowBits(v, q, y, x);
    FirstByteCut(v, q, y, x);
    SecondByteCut(v, q, y, x);
    ThirdByteCut(v, q, y, x);
  }

  lemma {:induction false} LowBits(v: int, q: int, y: int, x: sextet)
    requires 0 <= y < 64 && v == 4096 * q + y * 64 + x
    ensures v % 64 == x && v % 16 == x % 16 && v % 4 == x % 4
  {
    Quotient(v, 64, 64 * q + y, x);
    Quotient(v, 16, 256 * q + y * 4 + x / 16, x % 16);
    Quotient(v, 4, 1024 * q + y * 16 + x / 4, x % 4);
  }

  lemma {:induction false} FirstByteCut(v: int, q: int, y: int, x: sextet)
    requires 0 <= y < 64 && v == 4096 * q + y * 64 + x
    ensures v / 16 % 256 == Byte1(y, x)
  {
    Quotient(v, 16, 256 * q + y * 4 + x / 16, x % 16);
    Quotient(256 * q + y * 4 + x / 16, 256, q, y * 4 + x / 16);
  }

  lemma {:induction false} SecondByteCut(v: int, q: int, y: int, x: sextet)
    requires 0 <= y < 64 && v == 4096 * q + y * 64 + x
    ensures v / 4 % 256 == Byte2(y, x)
  {
    Quotient(v, 4, 1024 * q + y * 16 + x / 4, x % 4);
    Quotient(1024 * q + y * 16 + x / 4, 256, 4 * q + y / 16, y % 16 * 16 + x / 4);
  }

  lemma {:induction false} ThirdByteCut(v: int, q: int, y: int, x: sextet)
    requires 0 <= y < 64 && v == 4096 * q + y * 64 + x
    ensures v % 256 == Byte3(y, x)
  {
    Quotient(v, 256, 16 * q + y / 4, y % 4 * 64 + x);
  }

  // Sextets v are in: the bytes they complete are out, and the bits of the
  // last one that completed none are still in the accumulator.
  predicate Waiting(v: seq<sextet>, val: int, valb: int) {
    match |v| % 4
    case 0 => valb == -8
    case 1 => valb == -2 && val % 64 == v[|v| - 1]
    case 2 => valb == -4 && val % 16 == v[|v| - 1] % 16
    case _ => valb == -6 && val % 4 == v[|v| - 1] % 4
  }

  // The byte one more sextet completes, if any.
  function Completed(v: seq<sextet>, x: sextet): Str {
    match |v| % 4
    case 0 => []
    case 1 => [Byte1(v[|v| - 1], x)]
    case 2 => [Byte2(v[|v| - 1], x)]
    case _ => [Byte3(v[|v| - 1], x)]
  }

  lemma {:induction false} BytesAppend(v: seq<sextet>, x: sextet)
    ensures Bytes(v + [x]) == Bytes(v) + Completed(v, x)
    decreases |v|
  {
    hide Byte1, Byte2, Byte3;
    if |v| >= 4 {
      BytesAppend(v[4..], x);
      assert (v + [x])[4..] == v[4..] + [x];
      assert |v[4..]| % 4 == |v| % 4;
      assert |v| % 4 != 0 ==> v[4..] != [] && v[4..][|v| - 5] == v[|v| - 1];
    }
  }

  lemma {:induction false} Decoding(v: seq<sextet>, x: sextet, val: int, valb: int)
    requires Waiting(v, val, valb)
    ensures -8 <= valb <= -2
    ensures var n := Int32(Int32(val * 64) + x);
            (valb + 6 < 0 ==> Completed(v, x) == [] && Waiting(v + [x], n, valb + 6)) &&
            (valb + 6 >= 0 ==> Completed(v, x) == [CutByte(n, valb + 6)] && Waiting(v + [x], n, valb - 2))
  {
    hide Int32, Byte1, Byte2, Byte3, CutByte;
    var n := Int32(Int32(val * 64) + x);
    CutBytes(n);
    SextetIn(val, x);
    SextetCuts(n, val % 64, x);
    Unmasked(val, if v == [] then 0 else v[|v| - 1], x);
    NextWaiting(v, x, n);
  }

  lemma {:induction false} NextWaiting(v: seq<sextet>, x: sextet, n: int)
    requires n % 64 == x && n % 16 == x % 16 && n % 4 == x % 4
    ensures Waiting(v + [x], n, match |v| % 4 case 0 => -2 case 1 => -4 case 2 => -6 case _ => -8)
  {
  }

  lemma {:induction false} CutBytes(n: int)
    ensures CutByte(n, 4) == n / 16 % 256 && CutByte(n, 2) == n / 4 % 256 && CutByte(n, 0) == n % 256
  {
    Powers();
  }

  // Bits above those that count make no difference.
  lemma {:induction false} Unmasked(val: int, y: sextet, x: sextet)
    ensures val % 16 == y % 16 ==> Byte2(val % 64, x) == Byte2(y, x)
    ensures val % 4 == y % 4 ==> Byte3(val % 64, x) == Byte3(y, x)
  {
    Quotient(val, 16, val / 64 * 4 + val % 64 / 16, val % 64 % 16);
    Quotient(val, 4, val / 64 * 16 + val % 64 / 4, val % 64 % 4);
  }

  // from_base64 of the header.
  method FromBase64(s: string) returns (result: Str)
    ensures result == Bytes(Sextets(s))
  {
    hide Find, Bytes, CutByte, Int32, Waiting, Completed;
    NothingDecoded();
    result := [];
    var val, valb := 0, -8;
    ghost var v: seq<sextet> := [];
    var i := 0;
    while i < |s|
      invariant i <= |s| && v + Sextets(s[i..]) == Sextets(s)
      invariant result == Bytes(v) && Waiting(v, val, valb)
    {
      if s[i] == '=' {
        break;
      }
      var pos := Find(s[i]);
      assert s[i..][0] == s[i] && s[i..][1..] == s[i + 1..];
      i := i + 1;
      if pos == None {
        continue;
      }
      Decoding(v, pos.value, val, valb);
      BytesAppend(v, pos.value);
      assert v + ([pos.value] + Sextets(s[i..])) == v + [pos.value] + Sextets(s[i..]);
      v := v + [pos.value];
      val := Int32(Int32(val * 64) + pos.value);
      valb := valb + 6;
      if valb >= 0 {
        result := result + [CutByte(val, valb)];
        valb := valb - 8;
      }
    }
    assert Sextets(s[i..]) == [] && v + [] == v;
  }

  lemma {:induction false} NothingDecoded()
    ensures Bytes([]) == [] && Waiting([], 0, -8)
  {
  }

  // What the stub's table holds for a character.
  function Position(c: char): int {
    match Find(c)
    case None => -1
    case Some(v) => v
  }

  method BuildTable() returns (t: seq<int>)
    ensures |t| == 256 && forall c: char :: c < 256 as char ==> t[c as int] == Position(c)
  {
    hide Alpha, Find;
    t := seq(256, _ => -1);
    for i := 0 to 64
      invariant |t| == 256
      invariant forall c: char :: c < 256 as char ==> t[c as int] == if Position(c) < i then Position(c) else -1
    {
      FindAlpha(i);
      t := t[Alpha(i) as int := i];
    }
  }

  // from_base64 of the stub, on characters that index its table.
  method StubFromBase64(s: string) returns (result: Str)
    requires forall c :: c in s ==> c < 128 as char
    ensures result == Bytes(StubSextets(s))
  {
    hide Find, Bytes, CutByte, Int32, Waiting, Completed;
    NothingDecoded();
    var table := BuildTable();
    result := [];
    var val, valb := 0, -8;
    ghost var v: seq<sextet> := [];
    var i := 0;
    while i < |s|
      invariant i <= |s| && v + StubSextets(s[i..]) == StubSextets(s)
      invariant result == Bytes(v) && Waiting(v, val, valb)
    {
      assert s[i] in s;
      assert s[i..][0] == s[i] && s[i..][1..] == s[i + 1..];
      assert table[s[i] as int] == Position(s[i]);
      if table[s[i] as int] == -1 {
        break;
      }
      var pos: sextet := table[s[i] as int];
      Decoding(v, pos, val, valb);
      BytesAppend(v, pos);
      i := i + 1;
      assert v + ([pos] + StubSextets(s[i..])) == v + [pos] + StubSextets(s[i..]);
      v := v + [pos];
      val := Int32(Int32(val * 64) + pos);
      valb := valb + 6;
      if valb >= 0 {
        result := result + [CutByte(val, valb)];
        valb := valb - 8;
      }
    }
    assert StubSextets(s[i..]) == [] && v + [] == v;
  }
}
