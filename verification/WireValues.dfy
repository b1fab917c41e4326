// The sixteen kinds of value, as finite trees. A container is the map it
// holds: the bucket order of the underlying unordered_map is not part of it.
module WireValues {
  import opened LittleEndian

  // Slots 2-11 of the variant; the bits of a number are kept as they lie in
  // memory, so signed and floating-point slots need no interpretation here.
  datatype NumKind = Short | UShort | Int | UInt | Long | ULong | LLong | ULLong | Float | Double

  datatype Value = Value(name: Str, data: Data)

  datatype Data =
    | Null
    | Bool(b: bool)
    | Num(kind: NumKind, bits: nat)
    | Text(s: Str)
    | Blob(s: Str)
    | NullBox                       // a null container pointer
    | Box(entries: map<Str, Value>)
    | List(elems: seq<Value>)

  function Width(k: NumKind): nat {
    match k
    case Short | UShort => 2
    case Int | UInt | Float => 4
    case _ => 8
  }

  function NumTag(k: NumKind): (t: byte)
    ensures 2 <= t <= 11
  {
    match k
    case Short => 2 case UShort => 3 case Int => 4 case UInt => 5
    case Long => 6 case ULong => 7 case LLong => 8 case ULLong => 9
    case Float => 10 case Double => 11
  }

  // The slot a decoded number lands in: with int64_t = long, a long long is
  // read back into the long slot, and likewise unsigned.
  function Slot(k: NumKind): NumKind {
    match k
    case LLong => Long
    case ULLong => ULong
    case _ => k
  }

  // ---- Encoded size, independent of any iteration order ----

  ghost function SumMap(m: map<Str, nat>): nat
  {
    if m == map[] then 0 else var k :| k in m; m[k] + SumMap(m - {k})
  }

  // The sum does not depend on which key is taken first.
  lemma {:induction false} SumMapRemove(m: map<Str, nat>, k: Str)
    requires k in m
    ensures SumMap(m) == m[k] + SumMap(m - {k})
    decreases |m|
  {
    var c :| c in m && SumMap(m) == m[c] + SumMap(m - {c});
    if c != k {
      SumMapRemove(m - {c}, k);
      SumMapRemove(m - {k}, c);
      assert m - {c} - {k} == m - {k} - {c};
    }
  }

  lemma {:induction false} SumMapAdd(m: map<Str, nat>, k: Str, n: nat)
    ensures k !in m ==> SumMap(m[k := n]) == SumMap(m) + n
    ensures SumMap(m[k := n]) <= SumMap(m) + n
  {
    SumMapRemove(m[k := n], k);
    assert m[k := n] - {k} == m - {k};
    if k in m {
      SumMapRemove(m, k);
    } else {
      assert m - {k} == m;
    }
  }

  ghost function Size(v: Value): (n: nat)
    ensures n >= 5
    decreases v, 0
  {
    5 + |v.name| + DataSize(v.data)
  }

  ghost function DataSize(d: Data): nat
    decreases d, 0
  {
    match d
    case Null => 0
    case Bool(_) => 1
    case Num(k, _) => Width(k)
    case Text(s) => 4 + |s|
    case Blob(s) => 4 + |s|
    case NullBox => 4
    case Box(m) => 4 + 4 + SumMap(map k | k in m :: 8 + |k| + Size(m[k]))
    case List(es) => 4 + ElemsSize(es)
  }

  ghost function ElemsSize(es: seq<Value>): nat
    decreases es, 1
  {
    if es == [] then 0 else Size(es[0]) + ElemsSize(es[1..])
  }

  ghost function EntrySizes(m: map<Str, Value>): map<Str, nat> {
    map k | k in m :: 8 + |k| + Size(m[k])
  }

  // Bytes of a container's own encoding: a count and its entries.
  ghost function BoxSize(m: map<Str, Value>): nat {
    4 + SumMap(EntrySizes(m))
  }

  lemma {:induction false} BoxSizeAdd(m: map<Str, Value>, k: Str, v: Value)
    ensures k !in m ==> BoxSize(m[k := v]) == BoxSize(m) + 8 + |k| + Size(v)
    ensures BoxSize(m[k := v]) <= BoxSize(m) + 8 + |k| + Size(v)
  {
    hide Size, SumMap;
    var n := 8 + |k| + Size(v);
    SumMapAdd(EntrySizes(m), k, n);
    assert EntrySizes(m[k := v]) == EntrySizes(m)[k := n] by {
      EntrySizesAdd(m, k, v);
    }
  }

  lemma {:induction false} EntrySizesAdd(m: map<Str, Value>, k: Str, v: Value)
    ensures EntrySizes(m[k := v]) == EntrySizes(m)[k := 8 + |k| + Size(v)]
  {
    hide Size;
    var m', n := m[k := v], 8 + |k| + Size(v);
    var a, b := EntrySizes(m'), EntrySizes(m)[k := n];
    forall x ensures x in a <==> x in b {
      assert x in m' <==> x in m || x == k;
    }
    forall x | x in a ensures a[x] == b[x] {
      assert a[x] == 8 + |x| + Size(m'[x]);
    }
    assert a == b;
  }

  lemma {:induction false} BoxDataSize(m: map<Str, Value>)
    ensures DataSize(Box(m)) == 4 + BoxSize(m)
  {
    assert EntrySizes(m) == map k | k in m :: 8 + |k| + Size(m[k]);
  }

  // ---- What decoding can give back ----

  // The value a faithful decoder returns: long long slots become long slots,
  // and a container entry keeps only the data of what was stored in it.
  function Norm(v: Value): Value
    decreases v, 1
  {
    Value(v.name, NormData(v.data))
  }

  function NormData(d: Data): Data
    decreases d, 0
  {
    match d
    case Num(k, bits) => Num(Slot(k), bits)
    case Box(m) => Box(map k | k in m :: Value([], NormData(m[k].data)))
    case List(es) => List(NormElems(es))
    case _ => d
  }

  function NormElems(es: seq<Value>): (r: seq<Value>)
    ensures |r| == |es|
    decreases es, 1
  {
    if es == [] then [] else [Norm(es[0])] + NormElems(es[1..])
  }

  function NormMap(m: map<Str, Value>): map<Str, Value> {
    map k | k in m :: Value([], NormData(m[k].data))
  }

  // Every container entry, at any depth, carries an empty inner name.
  predicate Clean(v: Value)
    decreases v, 1
  {
    CleanData(v.data)
  }

  predicate CleanData(d: Data)
    decreases d, 0
  {
    match d
    case Box(m) => forall k :: k in m ==> m[k].name == [] && CleanData(m[k].data)
    case List(es) => CleanElems(es)
    case _ => true
  }

  predicate CleanElems(es: seq<Value>)
    decreases es, 1
  {
    es == [] || (Clean(es[0]) && CleanElems(es[1..]))
  }

  // No long long or unsigned long long anywhere.
  predicate NoWide(d: Data)
    decreases d, 0
  {
    match d
    case Num(k, _) => k != LLong && k != ULLong
    case Box(m) => forall k :: k in m ==> NoWide(m[k].data)
    case List(es) => NoWideElems(es)
    case _ => true
  }

  predicate NoWideElems(es: seq<Value>)
    decreases es, 1
  {
    es == [] || (NoWide(es[0].data) && NoWideElems(es[1..]))
  }

  // Decoding gives back exactly what was encoded iff no entry has an inner
  // name and no long long kind occurs.
  lemma {:induction false} NormExact(d: Data)
    ensures NormData(d) == d <==> CleanData(d) && NoWide(d)
    decreases d, 0
  {
    match d
    case Box(m) =>
      forall k | k in m
        ensures NormData(m[k].data) == m[k].data <==> CleanData(m[k].data) && NoWide(m[k].data)
      {
        NormExact(m[k].data);
      }
      var n := map k | k in m :: Value([], NormData(m[k].data));
      assert NormData(d) == Box(n);
      if n == m {
        forall k | k in m ensures m[k] == Value([], NormData(m[k].data)) {
          assert n[k] == m[k];
        }
      } else {
        var k :| k in m && n[k] != m[k];
        assert m[k].name != [] || NormData(m[k].data) != m[k].data;
      }
    case List(es) =>
      NormElemsExact(es);
    case _ =>
  }

  lemma {:induction false} NormElemsExact(es: seq<Value>)
    ensures NormElems(es) == es <==> CleanElems(es) && NoWideElems(es)
    decreases es, 1
  {
    if es != [] {
      NormExact(es[0].data);
      NormElemsExact(es[1..]);
      assert es == [es[0]] + es[1..];
      assert NormElems(es)[0] == Norm(es[0]) && NormElems(es)[1..] == NormElems(es[1..]);
    }
  }

  // Smaller numbers under the same keys add up to less.
  lemma {:induction false} SumMapLess(a: map<Str, nat>, b: map<Str, nat>)
    requires a.Keys == b.Keys && forall k :: k in a ==> a[k] <= b[k]
    ensures SumMap(a) <= SumMap(b) && (SumMap(a) == SumMap(b) <==> a == b)
    decreases |a|
  {
    if a == map[] {
      assert b.Keys == {};
      assert b == map[];
    } else {
      hide SumMap;
      var k :| k in a;
      assert k in b;
      SumMapRemove(a, k);
      SumMapRemove(b, k);
      SumMapLess(a - {k}, b - {k});
      SameWithout(a, b, k);
    }
  }

  lemma {:induction false} SameWithout(a: map<Str, nat>, b: map<Str, nat>, k: Str)
    requires k in a && k in b
    ensures a == b <==> a[k] == b[k] && a - {k} == b - {k}
  {
    assert a == (a - {k})[k := a[k]] && b == (b - {k})[k := b[k]];
  }

  // Decoding can only shorten what is encoded again, by the inner names it
  // drops: the encoded size stays the same iff there are none.
  lemma {:induction false} NormSize(d: Data)
    ensures DataSize(NormData(d)) <= DataSize(d)
    ensures DataSize(NormData(d)) == DataSize(d) <==> CleanData(d)
    decreases d, 0
  {
    hide SumMap;
    match d
    case Box(m) =>
      forall k | k in m
        ensures Size(Value([], NormData(m[k].data))) <= Size(m[k])
        ensures Size(Value([], NormData(m[k].data))) == Size(m[k]) <==> m[k].name == [] && CleanData(m[k].data)
      {
        NormSize(m[k].data);
      }
      NormMapSizes(m);
    case List(es) =>
      NormElemsSize(es);
    case _ =>
  }

  lemma {:induction false} NormMapSizes(m: map<Str, Value>)
    requires forall k :: k in m ==> Size(Value([], NormData(m[k].data))) <= Size(m[k])
    ensures DataSize(NormData(Box(m))) <= DataSize(Box(m))
    ensures DataSize(NormData(Box(m))) == DataSize(Box(m)) <==>
              forall k :: k in m ==> Size(Value([], NormData(m[k].data))) == Size(m[k])
  {
    hide Size, SumMap;
    var n := NormMap(m);
    assert NormData(Box(m)) == Box(n);
    BoxDataSize(m);
    BoxDataSize(n);
    hide *;
    SmallerEntries(n, m);
  }

  // Containers with the same keys, and values that are no larger.
  lemma {:induction false} SmallerEntries(n: map<Str, Value>, m: map<Str, Value>)
    requires n.Keys == m.Keys && forall k :: k in m ==> Size(n[k]) <= Size(m[k])
    ensures BoxSize(n) <= BoxSize(m)
    ensures BoxSize(n) == BoxSize(m) <==> forall k :: k in m ==> Size(n[k]) == Size(m[k])
  {
    hide Size, SumMap;
    var a, b := EntrySizes(n), EntrySizes(m);
    assert forall k :: k in m ==> a[k] == 8 + |k| + Size(n[k]) && b[k] == 8 + |k| + Size(m[k]);
    SumMapLess(a, b);
    if a == b {
      forall k | k in m ensures Size(n[k]) == Size(m[k]) {
        assert a[k] == b[k];
      }
    }
  }

  lemma {:induction false} NormElemsSize(es: seq<Value>)
    ensures ElemsSize(NormElems(es)) <= ElemsSize(es)
    ensures ElemsSize(NormElems(es)) == ElemsSize(es) <==> CleanElems(es)
    decreases es, 1
  {
    if es != [] {
      NormSize(es[0].data);
      NormElemsSize(es[1..]);
      assert NormElems(es)[1..] == NormElems(es[1..]);
    }
  }

  // ---- Values the four-byte length fields can describe ----

  // Every length written in four bytes is below 2^32 and every number fits
  // its slot; array elements carry no inner names below them.
  ghost predicate Fits(v: Value)
    decreases v, 1
  {
    |v.name| < U32 && FitsData(v.data)
  }

  ghost predicate FitsData(d: Data)
    decreases d, 0
  {
    match d
    case Num(k, bits) => bits < Pow256(Width(k))
    case Text(s) => |s| < U32
    case Blob(s) => |s| < U32
    case Box(m) => |m| < U32 && BoxSize(m) < U32 && forall k :: k in m ==> Fits(m[k])
    case List(es) => |es| < U32 && FitsElems(es)
    case _ => true
  }

  ghost predicate FitsElems(es: seq<Value>)
    decreases es, 1
  {
    es == [] || (Fits(es[0]) && Clean(es[0]) && FitsElems(es[1..]))
  }

  lemma {:induction false} EntryFits(m: map<Str, Value>, k: Str)
    requires k in m && BoxSize(m) < U32
    ensures |k| < U32 && Size(m[k]) < U32
  {
    SumMapRemove(EntrySizes(m), k);
  }
}
