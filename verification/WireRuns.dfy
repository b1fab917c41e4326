// Values and stores with their bytes written out, and what one entry that
// cannot be read costs a container and a store.
module WireRuns {
  import opened Outcomes
  import opened LittleEndian
  import opened WireValues
  import opened Decoder
  import opened ObjectGraph
  import opened RoundTrip
  import opened ValueStores
  import opened WireNumbers

  // ---- One unreadable entry ----

  // Entries in front of anything the same loop goes on to read.
  lemma {:induction false} EntriesThen(h: Heap, s: set<Id>, es: seq<Entry>, lenient: bool, i: nat, left: nat,
                                       acc: map<Str, Value>, r: Str)
    requires AllDistinct(h) && DistinctKeys(es) && EntriesFit(UnfoldEntries(h, s, es))
    ensures DecodeEntries(lenient, i, |es| + left, EntriesBytes(h, s, es) + r, acc)
         == DecodeEntries(lenient, i + |es|, left, r, acc + NormMap(UnfoldEntries(h, s, es)))
    decreases |es|
  {
    hide DecodeEntries, DecodeValue, EntriesBytes, UnfoldEntries, Fits, ObjBytes, Unfold, EntryBytes, Size, NormData, NormMap, EntriesFit;
    if es == [] {
      NoEntries(h, s, lenient, i, acc, r);
      NothingAdded(acc);
    } else {
      var k, u := es[0].key, Unfold(h, s, es[0].val);
      FirstEntry(h, s, es, lenient, i, left, acc, r);
      EntriesThen(h, s, es[1..], lenient, i + 1, left, acc[k := Value([], NormData(u.data))], r);
      MergeFirst(acc, UnfoldEntries(h, s, es[1..]), k, u);
    }
  }

  lemma {:induction false} FirstEntry(h: Heap, s: set<Id>, es: seq<Entry>, lenient: bool, i: nat, left: nat,
                                      acc: map<Str, Value>, r: Str)
    requires AllDistinct(h) && es != [] && DistinctKeys(es) && EntriesFit(UnfoldEntries(h, s, es))
    ensures DistinctKeys(es[1..]) && EntriesFit(UnfoldEntries(h, s, es[1..]))
    ensures es[0].key !in UnfoldEntries(h, s, es[1..])
    ensures UnfoldEntries(h, s, es) == UnfoldEntries(h, s, es[1..])[es[0].key := Unfold(h, s, es[0].val)]
    ensures DecodeEntries(lenient, i, |es| + left, EntriesBytes(h, s, es) + r, acc)
         == DecodeEntries(lenient, i + 1, |es| - 1 + left, EntriesBytes(h, s, es[1..]) + r,
                          acc[es[0].key := Value([], NormData(Unfold(h, s, es[0].val).data))])
  {
    hide DecodeEntries, DecodeValue, EntriesBytes, UnfoldEntries, Fits, ObjBytes, Unfold, EntryBytes, Size, NormData, EntriesFit;
    var u := Unfold(h, s, es[0].val);
    EntriesHead(h, s, es, r);
    FirstKeyFresh(h, s, es);
    FirstFits(h, s, es);
    ValueRoundTrip(h, s, es[0].val, []);
    EntryStep(lenient, i, |es| + left, es[0].key, ObjBytes(h, s, es[0].val), Norm(u), EntriesBytes(h, s, es[1..]) + r, acc);
  }

  lemma {:induction false} NothingAdded(acc: map<Str, Value>)
    ensures acc + NormMap(map[]) == acc
  {
    assert NormMap(map[]) == map[];
  }

  lemma {:induction false} BadEntryStep(lenient: bool, i: nat, left: nat, k: Str, v: Str, tail: Str, acc: map<Str, Value>)
    requires left > 0 && |k| < U32 && |v| < U32 && DecodeValue(v) == None
    ensures DecodeEntries(lenient, i, left, EntryBytes(k, v) + tail, acc)
         == if lenient then DecodeEntries(lenient, i + 1, left - 1, tail, acc) else Err(BadValue(k))
  {
    hide Le, Len, Size, DecodeValue, EntryBytes;
    EntryParts(k, v, tail);
    EntryLength(k, v);
  }

  // Readable entries, one whose value is not, and readable ones again: a
  // container keeps all but that one; a store is refused with its key.
  lemma {:induction false} OneBadEntry(h: Heap, before: seq<Entry>, key: Str, bad: Str, behind: seq<Entry>, r: Str)
    requires AllDistinct(h) && DistinctKeys(before) && DistinctKeys(behind) && |before| + 1 + |behind| < U32
    requires EntriesFit(UnfoldEntries(h, {}, before)) && EntriesFit(UnfoldEntries(h, {}, behind))
    requires |key| < U32 && |bad| < U32 && DecodeValue(bad) == None
    ensures var body := EntriesBytes(h, {}, before) + EntryBytes(key, bad) + EntriesBytes(h, {}, behind) + r;
            var b := Four(|before| + 1 + |behind|) + body;
            DecodeBox(b) == Some(NormMap(UnfoldEntries(h, {}, before)) + NormMap(UnfoldEntries(h, {}, behind))) &&
            DecodeStore([1] + b) == Err(BadEntry(BadValue(key)))
  {
    hide DecodeEntries, DecodeValue, DecodeBox, EntriesBytes, UnfoldEntries, EntryBytes, NormMap, EntriesFit, Le, Len, Four;
    var n := |before| + 1 + |behind|;
    var body := EntriesBytes(h, {}, before) + EntryBytes(key, bad) + EntriesBytes(h, {}, behind) + r;
    AroundBadEntry(h, before, key, bad, behind, r, true);
    AroundBadEntry(h, before, key, bad, behind, r, false);
    LeDigits(n);
    assert Le(n, 4) + body + [] == Four(n) + body && body + [] == body;
    BoxCount(n, body, []);
    StoreFront(n, body);
  }

  lemma {:induction false} AroundBadEntry(h: Heap, before: seq<Entry>, key: Str, bad: Str, behind: seq<Entry>, r: Str, lenient: bool)
    requires AllDistinct(h) && DistinctKeys(before) && DistinctKeys(behind)
    requires EntriesFit(UnfoldEntries(h, {}, before)) && EntriesFit(UnfoldEntries(h, {}, behind))
    requires |key| < U32 && |bad| < U32 && DecodeValue(bad) == None
    ensures var body := EntriesBytes(h, {}, before) + EntryBytes(key, bad) + EntriesBytes(h, {}, behind) + r;
            var both := NormMap(UnfoldEntries(h, {}, before)) + NormMap(UnfoldEntries(h, {}, behind));
            DecodeEntries(lenient, 0, |before| + 1 + |behind|, body, map[])
              == if lenient then Ok(both) else Err(BadValue(key))
  {
    hide *;
    var m := NormMap(UnfoldEntries(h, {}, before));
    var late := EntriesBytes(h, {}, behind) + r;
    var rest := EntryBytes(key, bad) + late;
    assert EntriesBytes(h, {}, before) + EntryBytes(key, bad) + EntriesBytes(h, {}, behind) + r
        == EntriesBytes(h, {}, before) + rest;
    EntriesThen(h, {}, before, lenient, 0, 1 + |behind|, map[], rest);
    assert map[] + m == m;
    BadEntryStep(lenient, |before|, 1 + |behind|, key, bad, late, m);
    EntriesRoundTrip(h, {}, behind, lenient, |before| + 1, m, r);
  }

  // Why the loop stops in front of bytes that are no whole entry.
  function CutShort(i: nat, r: Str): Option<EntryError> {
    if |r| < 4 then Some(TruncatedEntry(i))
    else if 8 + OfFour(r) > |r| then Some(TruncatedKey)
    else if 8 + OfFour(r) + OfFour(r[4 + OfFour(r)..]) > |r| then Some(TruncatedValue)
    else None
  }

  lemma {:induction false} CutStep(lenient: bool, i: nat, left: nat, r: Str, acc: map<Str, Value>)
    requires left > 0 && CutShort(i, r).Some?
    ensures DecodeEntries(lenient, i, left, r, acc) == Err(CutShort(i, r).value)
  {
    hide FromLe, Len, OfFour, DecodeValue, Size, BoxSize;
    if |r| >= 4 {
      LenIs(r);
      if 8 + OfFour(r) <= |r| {
        LenIs(r[4 + OfFour(r)..]);
      }
    }
  }

  lemma {:induction false} LenIs(b: Str)
    requires |b| >= 4
    ensures Len(b) == OfFour(b) >= 0
  {
    hide FromLe;
    FromLeDigits(b[..4]);
  }

  // Entries that end too early: a container is not read at all, and a store
  // is refused with what was cut, an entry with its number.
  lemma {:induction false} CutEntries(h: Heap, before: seq<Entry>, left: nat, r: Str)
    requires AllDistinct(h) && DistinctKeys(before) && left > 0 && |before| + left < U32
    requires EntriesFit(UnfoldEntries(h, {}, before)) && CutShort(|before|, r).Some?
    ensures var b := Four(|before| + left) + (EntriesBytes(h, {}, before) + r);
            DecodeBox(b) == None && DecodeStore([1] + b) == Err(BadEntry(CutShort(|before|, r).value))
  {
    hide *;
    var n, body := |before| + left, EntriesBytes(h, {}, before) + r;
    EntriesThen(h, {}, before, true, 0, left, map[], r);
    EntriesThen(h, {}, before, false, 0, left, map[], r);
    CutStep(true, |before|, left, r, map[] + NormMap(UnfoldEntries(h, {}, before)));
    CutStep(false, |before|, left, r, map[] + NormMap(UnfoldEntries(h, {}, before)));
    LeDigits(n);
    assert Le(n, 4) + body + [] == Four(n) + body && body + [] == body;
    BoxCount(n, body, []);
    StoreFront(n, body);
  }

  lemma {:induction false} StoreFront(n: nat, body: Str)
    requires n < U32
    ensures DecodeStore([1] + (Four(n) + body))
         == match DecodeEntries(false, 0, n, body, map[]) case Ok(m) => Ok(m) case Err(e) => Err(BadEntry(e))
  {
    hide DecodeEntries, Le, Len, Four;
    var b := [1] + (Four(n) + body);
    LeDigits(n);
    LenRoundTrip(n, body);
    assert b[1..] == Le(n, 4) + body;
    assert b[5..] == b[1..][4..];
  }

  // The only version is 1, and it is looked at before anything behind it.
  lemma {:induction false} VersionByte(b: Str, v: byte)
    ensures DecodeStore(b) == Err(BadVersion(v)) <==> |b| >= 5 && b[0] == v && v != 1
    ensures DecodeStore(b) == Err(TooSmall) <==> |b| < 5
  {
    hide DecodeEntries;
  }

  // ---- Bytes written out ----

  // A named container that holds an array of nothing, a flag and itself.
  const SELF: Heap := map[0 := [Entry([107], Obj([], OList([NoElem, Elem(Obj([], OBool(true))), Elem(Obj([], ORef(To(0))))])))]]

  lemma {:induction false} SelfElems()
    ensures ElemsBytes(SELF, {0}, [NoElem, Elem(Obj([], OBool(true))), Elem(Obj([], ORef(To(0))))])
         == [0, 0, 0, 0, 0] + [0, 0, 0, 0, 1, 1] + [0, 0, 0, 0, 14, 0, 0, 0, 0]
  {
    hide Le;
    var e0, e1, e2 := NoElem, Elem(Obj([], OBool(true))), Elem(Obj([], ORef(To(0))));
    LeDigits(0);
    assert ElemBytes(SELF, {0}, e0) == [0, 0, 0, 0, 0];
    assert ElemBytes(SELF, {0}, e1) == [0, 0, 0, 0, 1, 1] by {
      assert ObjBytes(SELF, {0}, Obj([], OBool(true))) == Le(0, 4) + [] + [1] + [1];
    }
    assert ElemBytes(SELF, {0}, e2) == [0, 0, 0, 0, 14, 0, 0, 0, 0] by {
      assert ObjBytes(SELF, {0}, Obj([], ORef(To(0)))) == Le(0, 4) + [] + [14] + Le(0, 4);
    }
    assert [e0, e1, e2][1..] == [e1, e2] && [e1, e2][1..] == [e2] && [e2][1..] == [];
    assert ElemsBytes(SELF, {0}, []) == [];
    assert ElemsBytes(SELF, {0}, [e2]) == [0, 0, 0, 0, 14, 0, 0, 0, 0];
    assert ElemsBytes(SELF, {0}, [e1, e2]) == [0, 0, 0, 0, 1, 1] + [0, 0, 0, 0, 14, 0, 0, 0, 0];
  }

  lemma {:induction false} Small(n: nat)
    requires n < 256
    ensures Le(n, 4) == [n, 0, 0, 0]
  {
    LeDigits(n);
  }

  lemma {:induction false} SelfEntry()
    ensures EntriesBytes(SELF, {0}, SELF[0])
         == [1, 0, 0, 0] + [107] + [29, 0, 0, 0] + ([0, 0, 0, 0] + [] + [15] + ([3, 0, 0, 0] +
              ([0, 0, 0, 0, 0] + [0, 0, 0, 0, 1, 1] + [0, 0, 0, 0, 14, 0, 0, 0, 0])))
  {
    hide Le, ElemsBytes, EntriesBytes;
    var o := Obj([], OList([NoElem, Elem(Obj([], OBool(true))), Elem(Obj([], ORef(To(0))))]));
    SelfElems();
    Small(0);
    Small(1);
    Small(3);
    Small(29);
    OneEntryBytes(SELF, {0}, Entry([107], o));
  }

  lemma {:induction false} OneEntryBytes(h: Heap, s: set<Id>, e: Entry)
    ensures EntriesBytes(h, s, [e])
         == Le(|e.key|, 4) + e.key + Le(|ObjBytes(h, s, e.val)|, 4) + ObjBytes(h, s, e.val)
  {
    assert [e][1..] == [] && EntriesBytes(h, s, []) == [];
  }

  // Name, type, length; one entry; its key and the length of its value; a
  // value without a name that is an array of three; the three.
  function SelfBytes(name: byte): Str {
    [1, 0, 0, 0] + [name] + [14] + ([42, 0, 0, 0] +
      ([1, 0, 0, 0] +
        ([1, 0, 0, 0] + [107] + [29, 0, 0, 0] +
          ([0, 0, 0, 0] + [] + [15] + ([3, 0, 0, 0] +
            ([0, 0, 0, 0, 0] + [0, 0, 0, 0, 1, 1] + [0, 0, 0, 0, 14, 0, 0, 0, 0]))))))
  }

  lemma {:induction false} SelfWritten(name: byte)
    ensures ObjBytes(SELF, {}, Obj([name], ORef(To(0)))) == SelfBytes(name)
  {
    hide Le, EntriesBytes;
    SelfEntry();
    Small(1);
    Small(42);
    assert {} + {0} == {0} && !Cut(SELF, {}, To(0)) && |SELF[0]| == 1;
    var body := Le(1, 4) + EntriesBytes(SELF, {0}, SELF[0]);
    assert |body| == 42;
    assert DataBytes(SELF, {}, ORef(To(0))) == Le(42, 4) + body;
    var o := Obj([name], ORef(To(0)));
    assert ObjBytes(SELF, {}, o) == Le(|o.name|, 4) + o.name + [ObjTag(o.data)] + DataBytes(SELF, {}, o.data);
  }

  lemma {:induction false} SelfValue()
    ensures UnfoldData(SELF, {}, ORef(To(0)))
         == Box(map[[107] := Value([], List([Value([], Null), Value([], Bool(true)), Value([], NullBox)]))])
    ensures AllDistinct(SELF)
  {
    var e0, e1, e2 := NoElem, Elem(Obj([], OBool(true))), Elem(Obj([], ORef(To(0))));
    var e := Entry([107], Obj([], OList([e0, e1, e2])));
    assert {} + {0} == {0} && [e][1..] == [];
    assert [e0, e1, e2][1..] == [e1, e2] && [e1, e2][1..] == [e2] && [e2][1..] == [];
    assert UnfoldElem(SELF, {0}, e2) == Value([], NullBox);
    assert UnfoldElem(SELF, {0}, e1) == Value([], Bool(true));
    assert UnfoldElems(SELF, {0}, []) == [];
    assert UnfoldElems(SELF, {0}, [e2]) == [Value([], NullBox)];
    assert UnfoldElems(SELF, {0}, [e1, e2]) == [Value([], Bool(true)), Value([], NullBox)];
    assert UnfoldElems(SELF, {0}, [e0, e1, e2]) == [Value([], Null), Value([], Bool(true)), Value([], NullBox)];
    assert UnfoldEntries(SELF, {0}, []) == map[];
    assert SELF[0] == [e];
    assert UnfoldEntries(SELF, {0}, [e]) == map[[107] := Unfold(SELF, {0}, e.val)];
  }

  // The bytes of the self-holding container, and what they are read back as.
  lemma {:induction false} SelfRun(name: byte, r: Str)
    ensures DecodeValue(SelfBytes(name) + r)
         == Some(Value([name], Box(map[[107] := Value([], List([Value([], Null), Value([], Bool(true)), Value([], NullBox)]))])))
  {
    hide *;
    SelfWritten(name);
    SelfValue();
    SelfFits(name);
    ValueRoundTrip(SELF, {}, Obj([name], ORef(To(0))), r);
  }

  lemma {:induction false} SelfFits(name: byte)
    ensures var u := Unfold(SELF, {}, Obj([name], ORef(To(0))));
            Fits(u) && Norm(u) == u
            && u == Value([name], UnfoldData(SELF, {}, ORef(To(0))))
  {
    hide BoxSize, UnfoldData, FitsData, CleanData, NoWide, NormData;
    SelfValue();
    var es := [Value([], Null), Value([], Bool(true)), Value([], NullBox)];
    OneFlatList(es, map[[107] := Value([], List(es))]);
  }

  lemma {:induction false} OneFlatList(es: seq<Value>, m: map<Str, Value>)
    requires es == [Value([], Null), Value([], Bool(true)), Value([], NullBox)] && m == map[[107] := Value([], List(es))]
    ensures FitsData(Box(m)) && NormData(Box(m)) == Box(m)
  {
    hide BoxSize, FitsElems, CleanElems, NoWideElems, NormData;
    FlatElems(es);
    SelfSize(es, m);
    assert m.Keys == {[107]} && |m| == |m.Keys|;
    var v := Value([], List(es));
    assert FitsData(v.data) && Fits(v) && CleanData(v.data) && NoWide(v.data);
    assert forall k :: k in m ==> m[k] == v;
    NormExact(Box(m));
  }

  lemma {:induction false} FlatElems(es: seq<Value>)
    requires forall v :: v in es ==> v.name == [] && (v.data == Null || v.data == Bool(true) || v.data == NullBox)
    ensures FitsElems(es) && CleanElems(es) && NoWideElems(es)
  {
    if es != [] {
      var v := es[0];
      assert v in es;
      assert FitsData(v.data) && CleanData(v.data) && NoWide(v.data);
      assert Fits(v) && Clean(v);
      FlatElems(es[1..]);
    }
  }

  lemma {:induction false} SelfSize(es: seq<Value>, m: map<Str, Value>)
    requires es == [Value([], Null), Value([], Bool(true)), Value([], NullBox)] && m == map[[107] := Value([], List(es))]
    ensures BoxSize(m) == 42
  {
    var a, b, c := Value([], Null), Value([], Bool(true)), Value([], NullBox);
    assert es[1..] == [b, c] && [b, c][1..] == [c] && [c][1..] == [];
    assert DataSize(Null) == 0 && DataSize(Bool(true)) == 1 && DataSize(NullBox) == 4;
    assert ElemsSize([]) == 0;
    assert ElemsSize([c]) == 9;
    assert ElemsSize([b, c]) == 15;
    assert ElemsSize(es) == 20;
    assert Size(Value([], List(es))) == 29;
    assert map[][[107] := Value([], List(es))] == m;
    assert EntrySizes(map[]) == map[];
    BoxSizeAdd(map[], [107], Value([], List(es)));
  }

  // A store of the number -5 as a long long and of a text of two bytes.
  const PAIR: seq<Entry> := [Entry([110], Obj([], ONum(LLong, 0xFFFF_FFFF_FFFF_FFFB))), Entry([116], Obj([], OText([104, 105])))]

  const PAIR_BYTES: Str :=
    [1, 0, 0, 0] + [110] + [13, 0, 0, 0] + ([0, 0, 0, 0] + [] + [8] + [251, 255, 255, 255, 255, 255, 255, 255]) +
    ([1, 0, 0, 0] + [116] + [11, 0, 0, 0] + ([0, 0, 0, 0] + [] + [12] + ([2, 0, 0, 0] + [104, 105])))

  lemma {:induction false} PairWritten()
    ensures [VERSION] + NodeBytes(map[], {}, PAIR) == [1] + ([2, 0, 0, 0] + PAIR_BYTES)
  {
    hide Le, EntriesBytes;
    var e0, e1 := PAIR[0], PAIR[1];
    Small(0);
    Small(1);
    Small(2);
    Small(11);
    Small(13);
    LeDigits(0xFFFF_FFFF_FFFF_FFFB);
    assert ObjBytes(map[], {}, e0.val) == [0, 0, 0, 0] + [] + [8] + [251, 255, 255, 255, 255, 255, 255, 255];
    assert ObjBytes(map[], {}, e1.val) == [0, 0, 0, 0] + [] + [12] + ([2, 0, 0, 0] + [104, 105]);
    OneEntryBytes(map[], {}, e1);
    TwoEntryBytes(map[], {}, e0, e1);
  }

  lemma {:induction false} TwoEntryBytes(h: Heap, s: set<Id>, e0: Entry, e1: Entry)
    ensures EntriesBytes(h, s, [e0, e1]) == EntryBytes(e0.key, ObjBytes(h, s, e0.val)) + EntriesBytes(h, s, [e1])
  {
    assert [e0, e1][1..] == [e1];
  }

  lemma {:induction false} PairValue()
    ensures UnfoldEntries(map[], {}, PAIR) == map[[116] := Value([], Text([104, 105])), [110] := Value([], Num(LLong, 0xFFFF_FFFF_FFFF_FFFB))]
    ensures DistinctKeys(PAIR)
  {
    hide Fits, Size, Pow256;
    var e1 := PAIR[1];
    assert PAIR[1..] == [e1] && [e1][1..] == [];
    assert UnfoldEntries(map[], {}, []) == map[];
    assert UnfoldEntries(map[], {}, [e1]) == map[[116] := Value([], Text([104, 105]))];
  }

  lemma {:induction false} PairFits()
    ensures var m: map<Str, Value> := map[[116] := Value([], Text([104, 105])), [110] := Value([], Num(LLong, 0xFFFF_FFFF_FFFF_FFFB))];
            EntriesFit(m) &&
            NormMap(m) == map[[116] := Value([], Text([104, 105])), [110] := Value([], Num(Long, 0xFFFF_FFFF_FFFF_FFFB))]
  {
    hide Fits, Size, Pow256;
    TextFits([104, 105]);
    LongFits(0xFFFF_FFFF_FFFF_FFFB);
  }

  lemma {:induction false} TextFits(t: Str)
    requires |t| < 100
    ensures Fits(Value([], Text(t))) && Size(Value([], Text(t))) < U32
  {
    assert FitsData(Text(t)) && DataSize(Text(t)) == 4 + |t|;
  }

  lemma {:induction false} LongFits(n: nat)
    requires n < U64
    ensures Fits(Value([], Num(LLong, n))) && Size(Value([], Num(LLong, n))) < U32
  {
    hide Pow256;
    Pow8();
    assert FitsData(Num(LLong, n)) && DataSize(Num(LLong, n)) == 8;
  }

  // Its bytes with the version in front are read back as the same number in
  // a long slot and the same text, whatever follows.
  lemma {:induction false} PairRun(r: Str)
    ensures DecodeStore([1] + ([2, 0, 0, 0] + PAIR_BYTES) + r)
         == Ok(map[[116] := Value([], Text([104, 105])), [110] := Value([], Num(Long, 0xFFFF_FFFF_FFFF_FFFB))])
    ensures NumberOf(Long, 0xFFFF_FFFF_FFFF_FFFB) == -5
    ensures DecodeStore([1, 0, 0, 0, 0] + r) == Ok(map[])
  {
    hide DecodeStore, NormMap, UnfoldEntries, EntriesFit, NodeBytes;
    PairWritten();
    PairValue();
    PairFits();
    assert AllDistinct(map[]);
    StoreRoundTrip(map[], {}, PAIR, r);
    EmptyStore();
    StoreRoundTrip(map[], {}, [], r);
  }

  lemma {:induction false} EmptyStore()
    ensures [VERSION] + NodeBytes(map[], {}, []) == [1, 0, 0, 0, 0]
    ensures EntriesFit(UnfoldEntries(map[], {}, [])) && NormMap(UnfoldEntries(map[], {}, [])) == map[]
  {
    Small(0);
    assert UnfoldEntries(map[], {}, []) == map[] && EntriesBytes(map[], {}, []) == [];
    assert NormMap(map[]) == map[];
  }
}
