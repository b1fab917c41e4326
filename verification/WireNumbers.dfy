// What the bytes mean, written without the tables of the other modules: the
// codes of the types, the widths, and the number each bit pattern stands for.
module WireNumbers {
  import opened Outcomes
  import opened LittleEndian
  import opened WireValues
  import opened Decoder
  import opened ObjectGraph
  import opened RoundTrip

  predicate Floating(k: NumKind) { k == Float || k == Double }

  predicate Signed(k: NumKind) { k == Short || k == Int || k == Long || k == LLong }

  predicate Wide(k: NumKind) { k == LLong || k == ULLong }

  // How many bit patterns a slot has.
  function Patterns(k: NumKind): nat {
    match k
    case Short | UShort => 0x1_0000
    case Int | UInt | Float => 0x1_0000_0000
    case Long | ULong | LLong | ULLong | Double => 0x1_0000_0000_0000_0000
  }

  // The number a whole-number slot holds: two's complement if it is signed.
  function NumberOf(k: NumKind, bits: nat): int {
    if Signed(k) && bits >= Patterns(k) / 2 then bits - Patterns(k) else bits
  }

  // A floating-point slot keeps its bits. A whole number keeps its value, its
  // sign and its width, and also its kind unless that is one of the two long
  // long kinds, which never come back.
  predicate SameNumber(k: NumKind, bits: nat, k': NumKind, bits': nat) {
    if Floating(k) then k' == k && bits' == bits
    else
      && !Floating(k') && (Signed(k') <==> Signed(k)) && Patterns(k') == Patterns(k)
      && NumberOf(k', bits') == NumberOf(k, bits)
      && if Wide(k) then !Wide(k') else k' == k
  }

  // v is what u has to be read back as.
  ghost predicate Reads(u: Data, v: Data)
    decreases u
  {
    match u
    case Num(k, bits) => v.Num? && SameNumber(k, bits, v.kind, v.bits)
    case Box(m) =>
      && v.Box? && v.entries.Keys == m.Keys
      && forall key :: key in m ==> v.entries[key].name == [] && Reads(m[key].data, v.entries[key].data)
    case List(es) =>
      && v.List? && |v.elems| == |es|
      && forall i :: 0 <= i < |es| ==> v.elems[i].name == es[i].name && Reads(es[i].data, v.elems[i].data)
    case _ => v == u
  }

  // Every number fits its slot.
  predicate InSlots(d: Data)
    decreases d
  {
    match d
    case Num(k, bits) => bits < Patterns(k)
    case Box(m) => forall key :: key in m ==> InSlots(m[key].data)
    case List(es) => forall i :: 0 <= i < |es| ==> InSlots(es[i].data)
    case _ => true
  }

  lemma {:induction false} SlotKeeps(k: NumKind, bits: nat)
    ensures SameNumber(k, bits, Slot(k), bits)
  {
  }

  lemma {:induction false} NormElemsAt(es: seq<Value>, i: nat)
    requires i < |es|
    ensures NormElems(es)[i] == Norm(es[i])
  {
    if i > 0 {
      NormElemsAt(es[1..], i - 1);
      assert NormElems(es)[1..] == NormElems(es[1..]);
    }
  }

  lemma {:induction false} NormReads(d: Data)
    ensures Reads(d, NormData(d))
    decreases d
  {
    match d
    case Num(k, bits) => SlotKeeps(k, bits);
    case Box(m) =>
      forall key | key in m ensures Reads(m[key].data, NormData(m[key].data)) {
        NormReads(m[key].data);
      }
    case List(es) =>
      forall i | 0 <= i < |es|
        ensures NormElems(es)[i].name == es[i].name && Reads(es[i].data, NormElems(es)[i].data)
      {
        NormElemsAt(es, i);
        NormReads(es[i].data);
      }
    case _ =>
  }

  lemma {:induction false} NumberOnce(k: NumKind, bits: nat, k': NumKind, bits': nat)
    requires bits < Patterns(k) && bits' < Patterns(k') && SameNumber(k, bits, k', bits')
    ensures k' == Slot(k) && bits' == bits
  {
  }

  // Nothing else that fits its slots can be read for d.
  lemma {:induction false} ReadsOnce(d: Data, v: Data)
    requires InSlots(d) && InSlots(v) && Reads(d, v)
    ensures v == NormData(d)
    decreases d
  {
    match d
    case Num(k, bits) => NumberOnce(k, bits, v.kind, v.bits);
    case Box(m) =>
      var n := NormMap(m);
      assert NormData(d) == Box(n);
      forall key | key in m ensures v.entries[key] == n[key] {
        ReadsOnce(m[key].data, v.entries[key].data);
      }
      assert v.entries == n;
    case List(es) =>
      forall i | 0 <= i < |es| ensures v.elems[i] == NormElems(es)[i] {
        NormElemsAt(es, i);
        ReadsOnce(es[i].data, v.elems[i].data);
      }
      assert v.elems == NormElems(es);
    case _ =>
  }

  // What any fitting value is read back as, whatever follows its bytes.
  lemma {:induction false} ValueRead(h: Heap, s: set<Id>, o: Obj, r: Str)
    requires AllDistinct(h) && Fits(Unfold(h, s, o))
    ensures var v := DecodeValue(ObjBytes(h, s, o) + r);
            v.Some? && v.value.name == o.name && Reads(Unfold(h, s, o).data, v.value.data)
  {
    hide DecodeValue, ObjBytes, Reads, NormData, UnfoldData, Fits;
    ValueRoundTrip(h, s, o, r);
    NormReads(Unfold(h, s, o).data);
  }

  // ---- Numbers ----

  lemma {:induction false} PatternWidth(k: NumKind)
    ensures Pow256(Width(k)) == Patterns(k)
  {
    Pow4();
    Pow8();
    assert Pow256(2) == 65536;
  }

  // A whole number is read back as the same number of the same sign, never as
  // a long long, and as the kind it was unless it was one.
  lemma {:induction false} IntegerRead(h: Heap, s: set<Id>, k: NumKind, bits: nat, r: Str)
    requires AllDistinct(h) && !Floating(k) && bits < Patterns(k)
    ensures var d := ONum(k, bits);
            var step := DecodeData(ObjTag(d), DataBytes(h, s, d) + r);
            step.Some? && step.value.data.Num? && step.value.used == |DataBytes(h, s, d)| &&
            var k', bits' := step.value.data.kind, step.value.data.bits;
            NumberOf(k', bits') == NumberOf(k, bits) && (Signed(k') <==> Signed(k)) && Patterns(k') == Patterns(k) &&
            k' != LLong && k' != ULLong && (k != LLong && k != ULLong ==> k' == k)
  {
    hide DecodeData, DataBytes, Width, Pow256;
    PatternWidth(k);
    DataRoundTrip(h, s, ONum(k, bits), r);
    SlotKeeps(k, bits);
  }

  // The float and double slots come back bit for bit.
  lemma {:induction false} FloatRead(h: Heap, s: set<Id>, k: NumKind, bits: nat, r: Str)
    requires AllDistinct(h) && Floating(k) && bits < Patterns(k)
    ensures var d := ONum(k, bits);
            var step := DecodeData(ObjTag(d), DataBytes(h, s, d) + r);
            step.Some? && step.value.data == Num(k, bits) && step.value.used == |DataBytes(h, s, d)|
  {
    hide DecodeData, DataBytes, Width, Pow256;
    PatternWidth(k);
    DataRoundTrip(h, s, ONum(k, bits), r);
  }

  // ---- Bytes ----

  // Little-endian fields, digit by digit.
  function Two(n: nat): Str { [n % 256, n / 256 % 256] }

  function Four(n: nat): Str { Two(n) + [n / 65536 % 256, n / 0x100_0000 % 256] }

  function Eight(n: nat): Str {
    Four(n) + [n / 0x1_0000_0000 % 256, n / 0x100_0000_0000 % 256,
               n / 0x1_0000_0000_0000 % 256, n / 0x100_0000_0000_0000 % 256]
  }

  function OfTwo(b: Str): int
    requires |b| >= 2
  {
    b[0] as int + 256 * (b[1] as int)
  }

  function OfFour(b: Str): int
    requires |b| >= 4
  {
    OfTwo(b) + 65536 * (b[2] as int) + 0x100_0000 * (b[3] as int)
  }

  function OfEight(b: Str): int
    requires |b| >= 8
  {
    OfFour(b) + 0x1_0000_0000 * (b[4] as int) + 0x100_0000_0000 * (b[5] as int) +
    0x1_0000_0000_0000 * (b[6] as int) + 0x100_0000_0000_0000 * (b[7] as int)
  }

  // The first w fields of a number are the first field and those of the rest.
  lemma {:induction false} LeDigits(n: nat)
    ensures Le(n, 2) == Two(n) && Le(n, 4) == Four(n) && Le(n, 8) == Eight(n)
  {
    var n1, n2, n3, n4 := n / 256, n / 65536, n / 0x100_0000, n / 0x1_0000_0000;
    var n5, n6, n7 := n / 0x100_0000_0000, n / 0x1_0000_0000_0000, n / 0x100_0000_0000_0000;
    assert n1 / 256 == n2 && n2 / 256 == n3 && n3 / 256 == n4 && n4 / 256 == n5 && n5 / 256 == n6 && n6 / 256 == n7;
    LeTwo(n);
    LeTwo(n2);
    LeTwo(n4);
    LeTwo(n6);
    LeSplit(n, n1, n2, 2);
    LeSplit(n4, n5, n6, 2);
    LeSplit(n2, n3, n4, 4);
    LeSplit(n, n1, n2, 6);
  }

  lemma {:induction false} LeTwo(n: nat)
    ensures Le(n, 2) == [n % 256, n / 256 % 256]
  {
    assert Le(n / 256 / 256, 0) == [];
    assert Le(n / 256, 1) == [n / 256 % 256];
  }

  lemma {:induction false} LeSplit(n: nat, n1: nat, n2: nat, w: nat)
    requires n1 == n / 256 && n2 == n1 / 256
    ensures Le(n, w + 2) == [n % 256, n1 % 256] + Le(n2, w)
  {
    assert Le(n, w + 2) == [n % 256] + Le(n1, w + 1);
    assert Le(n1, w + 1) == [n1 % 256] + Le(n2, w);
  }

  lemma {:induction false} FromLeDigits(b: Str)
    ensures |b| == 2 ==> FromLe(b) == OfTwo(b)
    ensures |b| == 4 ==> FromLe(b) == OfFour(b)
    ensures |b| == 8 ==> FromLe(b) == OfEight(b)
  {
    if |b| == 2 || |b| == 4 || |b| == 8 {
      FromLeTwo(b);
      assert |b| == 2 ==> b[2..] == [];
      if |b| >= 4 {
        FromLeTwo(b[2..]);
        assert b[2..][2..] == b[4..];
      }
      if |b| == 8 {
        FromLeTwo(b[4..]);
        FromLeTwo(b[6..]);
        assert b[4..][2..] == b[6..] && b[6..][2..] == [];
      }
    }
  }

  lemma {:induction false} FromLeTwo(b: Str)
    requires |b| >= 2
    ensures FromLe(b) == b[0] as int + 256 * (b[1] as int) + 65536 * FromLe(b[2..])
  {
    assert b[1..][1..] == b[2..];
    assert FromLe(b[1..]) == b[1] + 256 * FromLe(b[2..]);
  }

  // The code of a number's type and the bytes behind it.
  lemma {:induction false} NumberWritten(h: Heap, s: set<Id>, k: NumKind, n: nat)
    ensures [ObjTag(ONum(k, n))] + DataBytes(h, s, ONum(k, n))
         == match k
            case Short => [2] + Two(n)
            case UShort => [3] + Two(n)
            case Int => [4] + Four(n)
            case UInt => [5] + Four(n)
            case Long => [6] + Eight(n)
            case ULong => [7] + Eight(n)
            case LLong => [8] + Eight(n)
            case ULLong => [9] + Eight(n)
            case Float => [10] + Four(n)
            case Double => [11] + Eight(n)
  {
    hide Le, Two, Four, Eight;
    LeDigits(n);
  }

  // What any bytes behind such a code are read as; too few bytes are none.
  lemma {:induction false} NumberDecoded(t: byte, b: Str)
    requires 2 <= t <= 11
    ensures t == 2 ==> DecodeData(t, b) == if |b| < 2 then None else Some(Step(Num(Short, OfTwo(b)), 2))
    ensures t == 3 ==> DecodeData(t, b) == if |b| < 2 then None else Some(Step(Num(UShort, OfTwo(b)), 2))
    ensures t == 4 ==> DecodeData(t, b) == if |b| < 4 then None else Some(Step(Num(Int, OfFour(b)), 4))
    ensures t == 5 ==> DecodeData(t, b) == if |b| < 4 then None else Some(Step(Num(UInt, OfFour(b)), 4))
    ensures t == 6 || t == 8 ==> DecodeData(t, b) == if |b| < 8 then None else Some(Step(Num(Long, OfEight(b)), 8))
    ensures t == 7 || t == 9 ==> DecodeData(t, b) == if |b| < 8 then None else Some(Step(Num(ULong, OfEight(b)), 8))
    ensures t == 10 ==> DecodeData(t, b) == if |b| < 4 then None else Some(Step(Num(Float, OfFour(b)), 4))
    ensures t == 11 ==> DecodeData(t, b) == if |b| < 8 then None else Some(Step(Num(Double, OfEight(b)), 8))
  {
    hide FromLe, DecodeElems, DecodeBox, DataSize;
    var w := Width(KindOf(t));
    if |b| >= w {
      FromLeDigits(b[..w]);
    }
  }

  // The length and the bytes of a name, the code, and the data of every kind
  // that is no number.
  lemma {:induction false} ValueWritten(h: Heap, s: set<Id>, o: Obj)
    ensures ObjBytes(h, s, o) == Four(|o.name|) + o.name + [ObjTag(o.data)] + DataBytes(h, s, o.data)
    ensures o.data.ONull? ==> ObjTag(o.data) == 0 && DataBytes(h, s, o.data) == []
    ensures o.data.OBool? ==> ObjTag(o.data) == 1 && DataBytes(h, s, o.data) == if o.data.b then [1] else [0]
    ensures o.data.OText? ==> ObjTag(o.data) == 12 && DataBytes(h, s, o.data) == Four(|o.data.s|) + o.data.s
    ensures o.data.OBlob? ==> ObjTag(o.data) == 13 && DataBytes(h, s, o.data) == Four(|o.data.s|) + o.data.s
    ensures o.data.OList? ==>
              ObjTag(o.data) == 15 && DataBytes(h, s, o.data) == Four(|o.data.elems|) + ElemsBytes(h, s, o.data.elems)
    ensures o.data.ORef? ==> ObjTag(o.data) == 14
  {
    hide Le, Four, EntriesBytes, ElemsBytes;
    LeDigits(|o.name|);
    match o.data
    case OText(t) => LeDigits(|t|);
    case OBlob(t) => LeDigits(|t|);
    case OList(es) => LeDigits(|es|);
    case _ =>
  }

  // A null pointer, and one to a container that is being written or is not
  // there, is written as a length of zero; any other container as its count
  // and its entries behind their length.
  lemma {:induction false} PointerWritten(h: Heap, s: set<Id>, p: Pointer)
    ensures p == Nil || p.id in s || p.id !in h ==> DataBytes(h, s, ORef(p)) == [0, 0, 0, 0]
    ensures p != Nil && p.id !in s && p.id in h ==>
              var body := Four(|h[p.id]|) + EntriesBytes(h, s + {p.id}, h[p.id]);
              DataBytes(h, s, ORef(p)) == Four(|body|) + body
  {
    hide Le, EntriesBytes;
    LeDigits(0);
    if p != Nil && p.id !in s && p.id in h {
      LeDigits(|h[p.id]|);
      LeDigits(|Four(|h[p.id]|) + EntriesBytes(h, s + {p.id}, h[p.id])|);
    }
  }

  // What any bytes are read as behind a code that is no number's.
  lemma {:induction false} DatumDecoded(t: byte, b: Str)
    requires t <= 1 || 12 <= t <= 15
    ensures t == 0 ==> DecodeData(t, b) == Some(Step(Null, 0))
    ensures t == 1 ==> DecodeData(t, b) == if |b| == 0 then None else Some(Step(Bool(b[0] as int != 0), 1))
    ensures t >= 12 && |b| < 4 ==> DecodeData(t, b) == None
    ensures t >= 12 && |b| >= 4 ==>
              var n := OfFour(b);
              (t == 14 && n == 0 ==> DecodeData(t, b) == Some(Step(NullBox, 4))) &&
              (t != 15 && n > 0 && 4 + n > |b| ==> DecodeData(t, b) == None) &&
              (t == 12 && 4 + n <= |b| ==> DecodeData(t, b) == Some(Step(Text(b[4..4 + n]), 4 + n))) &&
              (t == 13 && 4 + n <= |b| ==> DecodeData(t, b) == Some(Step(Blob(b[4..4 + n]), 4 + n))) &&
              (t == 14 && n > 0 && 4 + n <= |b| ==>
                 DecodeData(t, b) == Some(Step(if DecodeBox(b[4..4 + n]).None? then NullBox else Box(DecodeBox(b[4..4 + n]).value), 4 + n)))
  {
    hide FromLe, DecodeElems, DecodeBox, DataSize;
    if |b| >= 4 {
      FromLeDigits(b[..4]);
    }
  }
}
