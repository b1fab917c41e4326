// Base64 by the text of its alphabet: what each character of an encoding is,
// and what a decoder takes each character for.
module Base64Text {
  import opened Outcomes
  import opened LittleEndian
  import opened Base64Codec

  // Table 1 of RFC 4648.
  const ALPHABET: string := "ABCDEFGHIJKLMNOPQRSTUVWXYZabcdefghijklmnopqrstuvwxyz0123456789+/"

  lemma {:induction false} Letter(v: sextet)
    ensures |ALPHABET| == 64 && Alpha(v) == ALPHABET[v]
  {
    assert v < 26 ==> ALPHABET[v] == "ABCDEFGHIJKLMNOPQRSTUVWXYZ"[v];
  }

  // A character stands for its position in the alphabet, and for nothing if
  // it is not in it.
  lemma {:induction false} Positions(c: char, v: sextet)
    ensures |ALPHABET| == 64 && Alpha(v) == ALPHABET[v]
    ensures Find(c) == Some(v) <==> ALPHABET[v] == c
    ensures Find(c) == None <==> c !in ALPHABET
    ensures (Position(c) == v <==> ALPHABET[v] == c) && (Position(c) == -1 <==> c !in ALPHABET)
  {
    hide Alpha, Find;
    Letter(v);
    FindAlpha(v);
    if c in ALPHABET {
      var w: sextet :| ALPHABET[w] == c;
      Letter(w);
      FindAlpha(w);
    } else if Find(c).Some? {
      Letter(Find(c).value);
    }
  }

  // An int that overflows wraps around at 2^32.
  lemma {:induction false} WrapsAround(x: int)
    ensures -0x8000_0000 <= Int32(x) < 0x8000_0000 && (x - Int32(x)) % 0x1_0000_0000 == 0
  {
  }

  // ---- Encoding ----

  // Byte j of the input, which ends in zeros.
  function ByteAt(d: Str, j: nat): byte {
    if j < |d| then d[j] else 0
  }

  // The i-th six bits of the input: they begin at bit 6i, counted from the
  // front.
  function SixBits(d: Str, i: nat): sextet {
    var j := 6 * i / 8;
    var two := 256 * ByteAt(d, j) as int + ByteAt(d, j + 1);
    match 6 * i % 8
    case 0 => two / 1024 % 64
    case 2 => two / 256 % 64
    case 4 => two / 64 % 64
    case _ => two / 16 % 64
  }

  lemma {:induction false} FirstSixBits(d: Str)
    ensures SixBits(d, 0) == ByteAt(d, 0) / 4
    ensures SixBits(d, 1) == ByteAt(d, 0) % 4 * 16 + ByteAt(d, 1) / 16
    ensures SixBits(d, 2) == ByteAt(d, 1) % 16 * 4 + ByteAt(d, 2) / 64
    ensures SixBits(d, 3) == ByteAt(d, 2) % 64
  {
    hide ByteAt;
    assert 6 * 1 / 8 == 0 && 6 * 2 / 8 == 1 && 6 * 3 / 8 == 2;
    UpperCuts(ByteAt(d, 0), ByteAt(d, 1));
    LowerCuts(ByteAt(d, 1), ByteAt(d, 2));
    Quotient(256 * ByteAt(d, 2) as int + ByteAt(d, 3), 256, ByteAt(d, 2), ByteAt(d, 3));
  }

  lemma {:induction false} UpperCuts(a: int, b: int)
    requires 0 <= a < 256 && 0 <= b < 256
    ensures (256 * a + b) / 1024 % 64 == a / 4 && (256 * a + b) / 16 % 64 == a % 4 * 16 + b / 16
  {
    Quotient(256 * a + b, 1024, a / 4, a % 4 * 256 + b);
    Quotient(256 * a + b, 16, 16 * a + b / 16, b % 16);
    Quotient(16 * a + b / 16, 64, a / 4, a % 4 * 16 + b / 16);
  }

  lemma {:induction false} LowerCuts(b: int, c: int)
    requires 0 <= b < 256 && 0 <= c < 256
    ensures (256 * b + c) / 64 % 64 == b % 16 * 4 + c / 64
  {
    Quotient(256 * b + c, 64, 4 * b + c / 64, c % 64);
    Quotient(4 * b + c / 64, 64, b / 16, b % 16 * 4 + c / 64);
  }

  lemma {:induction false} NextGroup(d: Str, i: nat)
    requires |d| >= 3
    ensures SixBits(d, i + 4) == SixBits(d[3..], i)
  {
    var j := 6 * i / 8;
    assert 6 * (i + 4) / 8 == j + 3 && 6 * (i + 4) % 8 == 6 * i % 8;
    assert ByteAt(d, j + 3) == ByteAt(d[3..], j) && ByteAt(d, j + 4) == ByteAt(d[3..], j + 1);
  }

  // Character i of an encoding is the one for the i-th six bits of the input,
  // and padding where no bit of the input is left.
  lemma {:induction false} CharacterAt(d: Str, i: nat)
    requires i < 4 * ((|d| + 2) / 3)
    ensures |Encoded(d)| == 4 * ((|d| + 2) / 3)
    ensures Encoded(d)[i] == if 6 * i < 8 * |d| then ALPHABET[SixBits(d, i)] else '='
    decreases |d|
  {
    hide Encoded, Alpha, SixBits, ByteAt;
    EncodedLength(d);
    EncodedHead(d);
    if i < 4 {
      FirstSixBits(d);
      InFront(d, i);
    } else {
      NextGroup(d, i - 4);
      CharacterAt(d[3..], i - 4);
    }
  }

  lemma {:induction false} InFront(d: Str, i: nat)
    requires d != [] && i < 4
    ensures i < |Encoded(d)| && Encoded(d)[i] == if 6 * i < 8 * |d| then ALPHABET[SixBits(d, i)] else '='
  {
    hide Encoded, Alpha, SixBits, ByteAt;
    var e := Encoded(d);
    EncodedLength(d);
    EncodedHead(d);
    FirstSixBits(d);
    BytesInFront(d);
    Letter(SixBits(d, i));
    if i > 0 {
      assert e[i] == e[1..][i - 1];
    }
    if i > 1 {
      assert e[i] == e[2..][i - 2];
    }
  }

  lemma {:induction false} BytesInFront(d: Str)
    requires d != []
    ensures ByteAt(d, 0) == d[0]
    ensures ByteAt(d, 1) == if |d| > 1 then d[1] else 0
    ensures ByteAt(d, 2) == if |d| > 2 then d[2] else 0
    ensures 0 / 16 == 0 && 0 / 64 == 0
  {
  }

  // ---- Decoding ----

  // The header's decoder takes each character in turn for its position, those
  // outside the alphabet for nothing, and goes no further than an '='.
  lemma {:induction false} ReadInTurn(a: string, c: char, b: string)
    ensures '=' !in a ==> Sextets(a + b) == Sextets(a) + Sextets(b)
    ensures Sextets("=" + b) == []
    ensures c !in ALPHABET ==> Sextets([c]) == []
    ensures c in ALPHABET ==> exists v: sextet :: ALPHABET[v] == c && Sextets([c]) == [v]
  {
    hide Find, Alpha;
    if '=' !in a {
      ReadTogether(a, b);
    }
    Positions(c, 0);
    assert [c][1..] == [];
    if c in ALPHABET {
      Positions(c, Find(c).value);
      FindEquals();
      assert Sextets([]) == [] && Sextets([c]) == [Find(c).value];
    }
  }

  lemma {:induction false} ReadTogether(a: string, b: string)
    requires '=' !in a
    ensures Sextets(a + b) == Sextets(a) + Sextets(b)
  {
    hide Find;
    if a == [] {
      assert a + b == b;
    } else {
      assert a[0] in a && (a + b)[1..] == a[1..] + b;
      ReadTogether(a[1..], b);
    }
  }

  // The stub's takes each character for its position, and goes no further
  // than the first one outside the alphabet.
  lemma {:induction false} StubReadInTurn(a: string, c: char, b: string)
    ensures (forall x :: x in a ==> x in ALPHABET) ==> StubSextets(a + b) == StubSextets(a) + StubSextets(b)
    ensures c !in ALPHABET ==> StubSextets([c] + b) == []
    ensures c in ALPHABET ==> exists v: sextet :: ALPHABET[v] == c && StubSextets([c]) == [v]
  {
    hide Find, Alpha;
    if forall x :: x in a ==> x in ALPHABET {
      StubReadTogether(a, b);
    }
    Positions(c, 0);
    assert [c][1..] == [];
    if c in ALPHABET {
      Positions(c, Find(c).value);
      assert StubSextets([]) == [] && StubSextets([c]) == [Find(c).value];
    }
  }

  lemma {:induction false} StubReadTogether(a: string, b: string)
    requires forall x :: x in a ==> x in ALPHABET
    ensures StubSextets(a + b) == StubSextets(a) + StubSextets(b)
  {
    hide Find;
    if a == [] {
      assert a + b == b;
    } else {
      assert a[0] in a && (a + b)[1..] == a[1..] + b;
      Positions(a[0], 0);
      StubReadTogether(a[1..], b);
    }
  }

  // The j-th eight bits of sextets v: they begin at bit 8j, counted from the
  // front.
  function EightBits(v: seq<sextet>, j: nat): byte
    requires j < 6 * |v| / 8
  {
    var k := 8 * j / 6;
    var two := 64 * v[k] as int + v[k + 1];
    match 8 * j % 6
    case 0 => two / 16 % 256
    case 2 => two / 4 % 256
    case _ => two % 256
  }

  // Byte j of what sextets stand for is their j-th eight bits; bits short of
  // a byte are dropped.
  lemma {:induction false} ByteRead(v: seq<sextet>, j: nat)
    requires j < 6 * |v| / 8
    ensures |Bytes(v)| == 6 * |v| / 8 && Bytes(v)[j] == EightBits(v, j)
    decreases |v|
  {
    hide Bytes, EightBits;
    ByteCount(v);
    if j < 3 {
      FirstBytes(v, j);
    } else {
      ByteRead(v[4..], j - 3);
      LaterBytes(v);
      LaterBits(v, j);
    }
  }

  lemma {:induction false} LaterBits(v: seq<sextet>, j: nat)
    requires |v| >= 4 && 3 <= j < 6 * |v| / 8
    ensures EightBits(v[4..], j - 3) == EightBits(v, j)
  {
    var k := 8 * j / 6;
    assert 8 * (j - 3) / 6 == k - 4 && 8 * (j - 3) % 6 == 8 * j % 6;
    assert v[4..][k - 4] == v[k] && v[4..][k - 3] == v[k + 1];
  }

  lemma {:induction false} LaterBytes(v: seq<sextet>)
    requires |v| >= 4
    ensures |Bytes(v)| >= 3 && Bytes(v)[3..] == Bytes(v[4..])
  {
    hide Byte1, Byte2, Byte3;
  }

  lemma {:induction false} ByteCount(v: seq<sextet>)
    ensures |Bytes(v)| == 6 * |v| / 8
  {
    hide Byte1, Byte2, Byte3;
    if |v| >= 4 {
      ByteCount(v[4..]);
    }
  }

  lemma {:induction false} FirstBytes(v: seq<sextet>, j: nat)
    requires j < 3 && j < 6 * |v| / 8
    ensures |Bytes(v)| > j && Bytes(v)[j] == EightBits(v, j)
  {
    hide Byte1, Byte2, Byte3;
    assert 8 * 0 / 6 == 0 && 8 * 1 / 6 == 1 && 8 * 2 / 6 == 2;
    CutsOf(v[j], v[j + 1]);
  }

  lemma {:induction false} CutsOf(x: sextet, y: sextet)
    ensures var two := 64 * x as int + y;
            Byte1(x, y) == two / 16 % 256 && Byte2(x, y) == two / 4 % 256 && Byte3(x, y) == two % 256
  {
    hide Byte2;
    MiddleCut(x, y);
    Quotient(64 * x as int + y, 256, x / 4, x % 4 * 64 + y);
  }

  lemma {:induction false} MiddleCut(a: int, b: int)
    requires 0 <= a < 64 && 0 <= b < 64
    ensures Byte2(a, b) == (64 * a + b) / 4 % 256
  {
    Quotient(64 * a + b, 4, 16 * a + b / 4, b % 4);
    Quotient(16 * a + b / 4, 256, a / 16, a % 16 * 16 + b / 4);
    Quotient(a % 16 * 64 + b, 4, a % 16 * 16 + b / 4, b % 4);
  }

  // ---- Section 10 of RFC 4648 ----

  lemma {:induction false} Vectors()
    ensures Encoded([]) == ""
    ensures Encoded([102]) == "Zg=="
    ensures Encoded([102, 111]) == "Zm8="
    ensures Encoded([102, 111, 111]) == "Zm9v"
    ensures Encoded([102, 111, 111, 98]) == "Zm9vYg=="
    ensures Encoded([102, 111, 111, 98, 97]) == "Zm9vYmE="
    ensures Encoded([102, 111, 111, 98, 97, 114]) == "Zm9vYmFy"
  {
    hide Encoded, Alpha;
    EmptyEncoded();
    VectorsOfF();
    VectorsOfB();
    TwoGroups([102, 111, 111], [98]);
    TwoGroups([102, 111, 111], [98, 97]);
    TwoGroups([102, 111, 111], [98, 97, 114]);
    assert [102, 111, 111] + [98] == [102, 111, 111, 98];
    assert [102, 111, 111] + [98, 97] == [102, 111, 111, 98, 97];
    assert [102, 111, 111] + [98, 97, 114] == [102, 111, 111, 98, 97, 114];
  }

  lemma {:induction false} VectorsOfF()
    ensures Encoded([102]) == "Zg==" && Encoded([102, 111]) == "Zm8=" && Encoded([102, 111, 111]) == "Zm9v"
  {
    hide Encoded;
    OneGroup([102]);
    OneGroup([102, 111]);
    OneGroup([102, 111, 111]);
  }

  lemma {:induction false} VectorsOfB()
    ensures Encoded([98]) == "Yg==" && Encoded([98, 97]) == "YmE=" && Encoded([98, 97, 114]) == "YmFy"
  {
    hide Encoded;
    OneGroup([98]);
    OneGroup([98, 97]);
    OneGroup([98, 97, 114]);
  }

  lemma {:induction false} OneGroup(d: Str)
    requires 1 <= |d| <= 3
    ensures |d| == 1 ==> Encoded(d) == [Alpha(d[0] / 4), Alpha(d[0] % 4 * 16), '=', '=']
    ensures |d| == 2 ==> Encoded(d) == [Alpha(d[0] / 4), Alpha(d[0] % 4 * 16 + d[1] / 16), Alpha(d[1] % 16 * 4), '=']
    ensures |d| == 3 ==> Encoded(d) == [Alpha(d[0] / 4), Alpha(d[0] % 4 * 16 + d[1] / 16),
                                        Alpha(d[1] % 16 * 4 + d[2] / 64), Alpha(d[2] % 64)]
  {
    hide Encoded, Alpha;
    EncodedLength(d);
    EncodedHead(d);
    var e := Encoded(d);
    assert e == [e[0]] + e[1..] && e[1..] == [e[1]] + e[2..];
    assert |d| == 3 ==> e[2..] == [e[2], e[3]];
  }

  lemma {:induction false} TwoGroups(a: Str, b: Str)
    requires |a| == 3 && b != []
    ensures Encoded([a[0], a[1], a[2]] + b) == Encoded(a) + Encoded(b)
  {
    hide Chars, Group;
    assert ([a[0], a[1], a[2]] + b)[3..] == b && a[3..] == [];
  }

  method FoobRun() returns (text: string, back: Str, stubBack: Str)
    ensures text == "Zm9vYg==" && back == stubBack == [102, 111, 111, 98]
  {
    Vectors();
    RoundTrip([102, 111, 111, 98]);
    text := ToBase64([102, 111, 111, 98]);
    back := FromBase64(text);
    stubBack := StubFromBase64(text);
  }
}
