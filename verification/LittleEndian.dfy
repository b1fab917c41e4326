// Fixed-width little-endian integers, the only number format on the wire and
// in the pool's raw memory (an LP64 little-endian host).
module LittleEndian {
  type byte = x: int | 0 <= x < 256
  type Str = seq<byte>

  const U32 := 0x1_0000_0000
  const U64 := 0x1_0000_0000_0000_0000

  function Pow256(w: nat): (p: nat)
    ensures p > 0
  {
    if w == 0 then 1 else 256 * Pow256(w - 1)
  }

  // The low w bytes of n; higher bytes are cut off, as by a narrowing cast.
  function Le(n: nat, w: nat): (b: Str)
    ensures |b| == w
  {
    if w == 0 then [] else [n % 256] + Le(n / 256, w - 1)
  }

  function FromLe(b: Str): nat
  {
    if b == [] then 0 else b[0] + 256 * FromLe(b[1..])
  }

  // The four-byte length field at the front of b.
  function Len(b: Str): (n: nat)
    requires |b| >= 4
    ensures n < U32
  {
    FromLeBound(b[..4]);
    Pow4();
    FromLe(b[..4])
  }

  lemma {:induction false} Pow4()
    ensures Pow256(4) == U32
  {
    assert Pow256(2) == 65536;
  }

  lemma {:induction false} Pow8()
    ensures Pow256(8) == U64
  {
    Pow4();
    assert Pow256(5) == 256 * U32;
    assert Pow256(6) == 65536 * U32;
    assert Pow256(7) == 65536 * 256 * U32;
  }

  lemma {:induction false} FromLeBound(b: Str)
    ensures FromLe(b) < Pow256(|b|)
  {
    if b != [] {
      FromLeBound(b[1..]);
    }
  }

  lemma {:induction false} LeRoundTrip(n: nat, w: nat)
    requires n < Pow256(w)
    ensures FromLe(Le(n, w)) == n
  {
    if w > 0 {
      LeRoundTrip(n / 256, w - 1);
      assert Le(n, w)[1..] == Le(n / 256, w - 1);
    }
  }

  // A length written in four bytes is read back whatever follows it.
  lemma {:induction false} LenRoundTrip(n: nat, r: Str)
    requires n < U32
    ensures Len(Le(n, 4) + r) == n
    ensures (Le(n, 4) + r)[4..] == r
  {
    Pow4();
    LeRoundTrip(n, 4);
    assert (Le(n, 4) + r)[..4] == Le(n, 4);
  }

  lemma {:induction false} Slices(p: Str, x: Str, r: Str)
    requires |p| == 4
    ensures var b := p + x + r;
            b[..4] == p && b[4..] == x + r && b[4..4 + |x|] == x && b[4 + |x|..] == r
  {
  }

  // A length-prefixed field followed by anything.
  lemma {:induction false} FieldParts(x: Str, r: Str)
    requires |x| < U32
    ensures var b := Le(|x|, 4) + x + r;
            Len(b) == |x| && b[4..] == x + r && b[4..4 + |x|] == x && b[4 + |x|..] == r
  {
    Slices(Le(|x|, 4), x, r);
    Pow4();
    LeRoundTrip(|x|, 4);
  }
}
