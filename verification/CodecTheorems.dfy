// What a program that keeps to `add`, `set`, `set_variant`, `set_container`,
// `compare_exchange`, `remove` and decoding can rely on.
module CodecTheorems {
  import opened Outcomes
  import opened LittleEndian
  import opened WireValues
  import opened Decoder
  import opened ObjectGraph
  import opened RoundTrip
  import opened GraphFacts

  // Any object of a reachable heap, cyclic or not, written while any set of
  // containers is in flight and followed by any bytes, is read back as its
  // finite unfolding: exactly when no long long occurs in it, and otherwise
  // with those numbers moved to the long slots.
  lemma {:induction false} GraphRoundTrip(h: Heap, s: set<Id>, o: Obj, r: Str)
    requires AllDistinct(h) && CleanHeap(h) && Fits(Unfold(h, s, o))
    ensures DecodeValue(ObjBytes(h, s, o) + r) == Some(Norm(Unfold(h, s, o)))
    ensures DecodeValue(ObjBytes(h, s, o) + r) == Some(Unfold(h, s, o)) <==> NoWide(Unfold(h, s, o).data)
  {
    ValueRoundTrip(h, s, o, r);
    CleanUnfold(h, s, o.data);
    NormExact(Unfold(h, s, o).data);
  }

  // A container that points to itself, written as a value, is read back with
  // the inner pointer null; its own encoding holds it once more.
  lemma {:induction false} SelfCycle(name: Str, key: Str, r: Str)
    requires |name| < U32 && EntriesFit(map[key := Value([], Box(map[key := Value([], NullBox)]))])
    ensures var h := map[0 := [Entry(key, Obj([], ORef(To(0))))]];
            var once := Box(map[key := Value([], NullBox)]);
            DecodeValue(ObjBytes(h, {}, Obj(name, ORef(To(0)))) + r) == Some(Value(name, once)) &&
            DecodeBox(NodeBytes(h, {}, h[0]) + r) == Some(map[key := Value([], once)])
  {
    hide *;
    var e := Entry(key, Obj([], ORef(To(0))));
    var h: Heap := map[0 := [e]];
    var once := map[key := Value([], NullBox)];
    SelfUnfold(name, key);
    FitsOnce(name, key);
    OneEntryHeap(e);
    ValueRoundTrip(h, {}, Obj(name, ORef(To(0))), r);
    BoxRoundTrip(h, {}, [e], r);
  }

  lemma {:induction false} OneEntryHeap(e: Entry)
    ensures AllDistinct(map[0 := [e]]) && DistinctKeys([e]) && (map[0 := [e]])[0] == [e] && |[e]| < U32
  {
  }

  lemma {:induction false} FitsOnce(name: Str, key: Str)
    requires |name| < U32 && EntriesFit(map[key := Value([], Box(map[key := Value([], NullBox)]))])
    ensures var once := map[key := Value([], NullBox)];
            Fits(Value(name, Box(once))) && Norm(Value(name, Box(once))) == Value(name, Box(once)) &&
            NormMap(map[key := Value([], Box(once))]) == map[key := Value([], Box(once))]
  {
    hide BoxSize;
    var once := map[key := Value([], NullBox)];
    var twice := map[key := Value([], Box(once))];
    assert twice[key] == Value([], Box(once));
    assert Fits(twice[key]);
    assert NormMap(once) == once;
    assert NormData(Box(once)) == Box(NormMap(once));
    assert NormMap(twice)[key] == Value([], NormData(twice[key].data));
    assert NormMap(twice) == twice;
  }

  lemma {:induction false} SelfUnfold(name: Str, key: Str)
    ensures var h := map[0 := [Entry(key, Obj([], ORef(To(0))))]];
            Unfold(h, {}, Obj(name, ORef(To(0)))) == Value(name, Box(map[key := Value([], NullBox)])) &&
            UnfoldEntries(h, {}, h[0])
              == map[key := Value([], Box(map[key := Value([], NullBox)]))]
  {
    var e := Entry(key, Obj([], ORef(To(0))));
    var h: Heap := map[0 := [e]];
    assert [e][1..] == [];
    assert {} + {0} == {0};
    assert UnfoldData(h, {0}, ORef(To(0))) == NullBox;
    assert Unfold(h, {0}, e.val) == Value([], NullBox);
    assert UnfoldEntries(h, {0}, []) == map[];
    assert UnfoldEntries(h, {0}, [e]) == map[key := Value([], NullBox)];
    assert UnfoldData(h, {}, ORef(To(0))) == Box(UnfoldEntries(h, {0}, [e]));
  }

  // Two enumeration orders of the same map give encodings of the same length
  // that decode to the same value.
  lemma {:induction false} OrderIrrelevant(h: Heap, h': Heap, s: set<Id>, s': set<Id>, o: Obj, o': Obj, r: Str, r': Str)
    requires AllDistinct(h) && AllDistinct(h') && Unfold(h, s, o) == Unfold(h', s', o') && Fits(Unfold(h, s, o))
    ensures |ObjBytes(h, s, o)| == |ObjBytes(h', s', o')|
    ensures DecodeValue(ObjBytes(h, s, o) + r) == DecodeValue(ObjBytes(h', s', o') + r')
  {
    BytesSize(h, s, o);
    BytesSize(h', s', o');
    ValueRoundTrip(h, s, o, r);
    ValueRoundTrip(h', s', o', r');
  }

  // ---- Why entry names have to be empty ----

  function NamedEntry(k: byte): Heap {
    map[0 := [Entry([k], Obj([k], ONull))]]
  }

  const BOX := Obj([], ORef(To(0)))
  const FLAG := Obj([], OBool(true))

  function BoxValue(name: Str, k: byte): Value {
    Value([], Box(map[[k] := Value(name, Null)]))
  }

  lemma {:induction false} NamedUnfold(k: byte)
    ensures Unfold(NamedEntry(k), {}, BOX) == BoxValue([k], k)
    ensures UnfoldElems(NamedEntry(k), {}, [Elem(BOX), Elem(FLAG)]) == [BoxValue([k], k), Value([], Bool(true))]
  {
    var h, e := NamedEntry(k), Entry([k], Obj([k], ONull));
    assert {} + {0} == {0} && [e][1..] == [];
    assert UnfoldEntries(h, {0}, []) == map[];
    assert Unfold(h, {0}, e.val) == Value([k], Null);
    assert UnfoldEntries(h, {0}, [e]) == map[[k] := Value([k], Null)];
    assert UnfoldData(h, {}, ORef(To(0))) == Box(UnfoldEntries(h, {0}, h[0]));
    assert [Elem(BOX), Elem(FLAG)][1..] == [Elem(FLAG)] && [Elem(FLAG)][1..] == [];
    assert Unfold(h, {}, FLAG) == Value([], Bool(true));
    assert UnfoldElem(h, {}, Elem(FLAG)) == Value([], Bool(true));
    assert UnfoldElems(h, {}, []) == [];
    assert UnfoldElems(h, {}, [Elem(FLAG)]) == [Value([], Bool(true))];
    assert UnfoldElem(h, {}, Elem(BOX)) == BoxValue([k], k);
  }

  lemma {:induction false} NullSize(name: Str)
    requires |name| < 2
    ensures Fits(Value(name, Null)) && Size(Value(name, Null)) == 5 + |name|
  {
    assert FitsData(Null) && DataSize(Null) == 0;
    var v := Value(name, Null);
    assert v.name == name && v.data == Null;
    assert Fits(v);
    assert Size(v) == 5 + |v.name| + DataSize(v.data);
  }

  lemma {:induction false} NamedSizes(name: Str, k: byte)
    requires |name| < 2
    ensures Size(BoxValue(name, k)) == 27 + |name| && Fits(BoxValue(name, k))
  {
    var v := Value(name, Null);
    var m: map<Str, Value> := map[[k] := v];
    assert map[][[k] := v] == m && m.Keys == {[k]};
    assert forall x :: x in m ==> m[x] == v;
    NullSize(name);
    assert EntrySizes(map[]) == map[];
    BoxSizeAdd(map[], [k], v);
    BoxDataSize(m);
    assert |m| == |m.Keys|;
  }

  lemma {:induction false} NamedBytes(k: byte)
    ensures var e0, e1 := ObjBytes(NamedEntry(k), {}, BOX), ObjBytes(NamedEntry(k), {}, FLAG);
            |e0| == 28 && e0[27] == 0 && e1 == Le(0, 4) + [1] + [1] &&
            ObjBytes(NamedEntry(k), {}, Obj([], OList([Elem(BOX), Elem(FLAG)])))
              == Le(0, 4) + [] + [15] + (Le(2, 4) + (e0 + e1))
  {
    hide Le;
    var h, e := NamedEntry(k), Entry([k], Obj([k], ONull));
    var v := ObjBytes(h, {0}, e.val);
    assert DataBytes(h, {0}, ONull) == [];
    assert v == Le(1, 4) + [k] + [0] + [];
    assert {} + {0} == {0} && [e][1..] == [];
    assert EntriesBytes(h, {0}, []) == [];
    assert EntriesBytes(h, {0}, [e]) == EntryBytes([k], v);
    var body := NodeBytes(h, {0}, [e]);
    assert h[0] == [e] && !Cut(h, {}, To(0));
    assert DataBytes(h, {}, ORef(To(0))) == Le(|body|, 4) + body;
    var es := [Elem(BOX), Elem(FLAG)];
    assert es[1..] == [Elem(FLAG)] && [Elem(FLAG)][1..] == [];
    assert ElemsBytes(h, {}, []) == [];
    assert ElemBytes(h, {}, Elem(FLAG)) == ObjBytes(h, {}, FLAG);
    assert ElemsBytes(h, {}, [Elem(FLAG)]) == ObjBytes(h, {}, FLAG);
    assert ElemBytes(h, {}, Elem(BOX)) == ObjBytes(h, {}, BOX);
    assert ElemsBytes(h, {}, es) == ObjBytes(h, {}, BOX) + ObjBytes(h, {}, FLAG);
  }

  // One byte too early, the flag's bytes read as a null value.
  lemma {:induction false} EarlyRead()
    ensures var steps := DecodeElems(1, [0] + (Le(0, 4) + [1] + [1]));
            steps.Some? && steps.value.elems == [Value([], Null)]
  {
    hide DecodeData;
    var b := [0] + (Le(0, 4) + [1] + [1]);
    assert Le(0, 4) == [0, 0, 0, 0];
    assert b == Le(0, 4) + [] + [0] + [1, 1];
    HeaderStep([], 0, [1, 1]);
    NullData([1, 1]);
    NoMore(b[5..]);
  }

  lemma {:induction false} NullData(b: Str)
    ensures DecodeData(0, b) == Some(Step(Null, 0))
  {
  }

  lemma {:induction false} NoMore(b: Str)
    ensures DecodeElems(0, b) == Some(Steps([], 0))
  {
  }

  // `operator[]` stores a value named after its key. Decoding drops that
  // name, so the element written again is shorter than the bytes it came
  // from, and the element behind it is read one byte too early.
  lemma {:induction false} InnerNameShiftsArray(k: byte)
    ensures var o := Obj([], OList([Elem(BOX), Elem(FLAG)]));
            Unfold(NamedEntry(k), {}, o) == Value([], List([BoxValue([k], k), Value([], Bool(true))])) &&
            DecodeValue(ObjBytes(NamedEntry(k), {}, o))
              == Some(Value([], List([BoxValue([], k), Value([], Null)])))
  {
    hide DecodeValue, DecodeData, DecodeElems, ObjBytes, Size, Fits, UnfoldElems, Le;
    var h := NamedEntry(k);
    var e0, e1 := ObjBytes(h, {}, BOX), ObjBytes(h, {}, FLAG);
    NamedUnfold(k);
    NamedSizes([k], k);
    NamedSizes([], k);
    NamedBytes(k);
    ValueRoundTrip(h, {}, BOX, e1);
    NamedNorm(k);
    assert (e0 + e1)[27..] == [0] + e1;
    EarlyRead();
    TwoElems(e0 + e1, BoxValue([], k), [0] + e1, Value([], Null));
    ListStep(2, e0 + e1, []);
    assert Le(2, 4) + (e0 + e1) + [] == Le(2, 4) + (e0 + e1) && e0 + e1 + [] == e0 + e1;
    HeaderStep([], 15, Le(2, 4) + (e0 + e1));
  }

  lemma {:induction false} NamedNorm(k: byte)
    ensures Norm(BoxValue([k], k)) == BoxValue([], k)
  {
    var m: map<Str, Value> := map[[k] := Value([k], Null)];
    var n := map x | x in m :: Value([], NormData(m[x].data));
    assert NormData(Box(m)) == Box(n);
    assert n.Keys == m.Keys && forall x :: x in n ==> n[x] == Value([], Null);
    assert n == map[[k] := Value([], Null)];
  }

  lemma {:induction false} TwoElems(b: Str, u: Value, rest: Str, v: Value)
    requires DecodeValue(b) == Some(u) && b[Size(u)..] == rest
    requires DecodeElems(1, rest).Some? && DecodeElems(1, rest).value.elems == [v]
    ensures DecodeElems(2, b).Some? && DecodeElems(2, b).value.elems == [u, v]
  {
    hide DecodeValue, Size;
  }
}
