// Encoding a graph of values and decoding the bytes gives the graph's finite
// unfolding, whatever follows the bytes.
module RoundTrip {
  import opened Outcomes
  import opened LittleEndian
  import opened WireValues
  import opened Decoder
  import opened ObjectGraph

  ghost predicate EntriesFit(m: map<Str, Value>) {
    forall k :: k in m ==> |k| < U32 && Size(m[k]) < U32 && Fits(m[k])
  }

  lemma {:induction false} BoxEntriesFit(m: map<Str, Value>)
    requires FitsData(Box(m))
    ensures EntriesFit(m)
  {
    forall k | k in m ensures |k| < U32 && Size(m[k]) < U32 {
      EntryFits(m, k);
    }
  }

  // ---- decode(encode(v) ++ r) = v ----

  lemma {:induction false} ValueRoundTrip(h: Heap, s: set<Id>, o: Obj, r: Str)
    requires AllDistinct(h) && Fits(Unfold(h, s, o))
    ensures DecodeValue(ObjBytes(h, s, o) + r) == Some(Norm(Unfold(h, s, o)))
    decreases h.Keys - s, o, 1
  {
    var d := DataBytes(h, s, o.data);
    assert ObjBytes(h, s, o) + r == Le(|o.name|, 4) + o.name + [ObjTag(o.data)] + (d + r);
    HeaderStep(o.name, ObjTag(o.data), d + r);
    DataRoundTrip(h, s, o.data, r);
  }

  lemma {:induction false} HeaderStep(name: Str, t: byte, rest: Str)
    requires |name| < U32 && t <= 15
    ensures DecodeValue(Le(|name|, 4) + name + [t] + rest)
         == match DecodeData(t, rest) case Some(step) => Some(Value(name, step.data)) case None => None
  {
    hide DecodeData, Le, Len, Size;
    var tail := [t] + rest;
    var b := Le(|name|, 4) + name + [t] + rest;
    assert b == Le(|name|, 4) + name + tail;
    FieldParts(name, tail);
    assert b[4 + |name|] == b[4 + |name|..][0];
    assert b[5 + |name|..] == b[4 + |name|..][1..];
  }

  lemma {:induction false} DataRoundTrip(h: Heap, s: set<Id>, d: ObjData, r: Str)
    requires AllDistinct(h) && FitsData(UnfoldData(h, s, d))
    ensures var step := DecodeData(ObjTag(d), DataBytes(h, s, d) + r);
            step.Some? && step.value.data == NormData(UnfoldData(h, s, d)) && step.value.used == |DataBytes(h, s, d)|
    decreases h.Keys - s, d, 0
  {
    hide DecodeData, UnfoldElems, UnfoldEntries, Fits, FitsElems, BoxSize;
    match d
    case ONull => ScalarStep(ONull, r);
    case OBool(_) => ScalarStep(d, r);
    case ONum(_, _) => ScalarStep(d, r);
    case OText(t) => FieldStep(t, r);
    case OBlob(t) => FieldStep(t, r);
    case ORef(p) =>
      if Cut(h, s, p) {
        NullBoxStep(r);
      } else {
        ContainerRoundTrip(h, s, p, r);
      }
    case OList(es) =>
      ElemsRoundTrip(h, s, es, r);
      ListStep(|es|, ElemsBytes(h, s, es), r);
  }

  lemma {:induction false} ScalarStep(d: ObjData, r: Str)
    requires d.ONull? || d.OBool? || (d.ONum? && d.bits < Pow256(Width(d.kind)))
    ensures var step := DecodeData(ObjTag(d), DataBytes(map[], {}, d) + r);
            step.Some? && step.value.data == NormData(UnfoldData(map[], {}, d)) &&
            step.value.used == |DataBytes(map[], {}, d)|
  {
    hide DecodeElems, DecodeBox;
    match d
    case ONum(k, bits) =>
      LeRoundTrip(bits, Width(k));
      assert (Le(bits, Width(k)) + r)[..Width(k)] == Le(bits, Width(k));
    case _ =>
  }

  lemma {:induction false} FieldStep(t: Str, r: Str)
    requires |t| < U32
    ensures DecodeData(12, Le(|t|, 4) + t + r) == Some(Step(Text(t), 4 + |t|))
    ensures DecodeData(13, Le(|t|, 4) + t + r) == Some(Step(Blob(t), 4 + |t|))
  {
    hide DecodeElems, DecodeBox, Le, Len;
    FieldParts(t, r);
  }

  lemma {:induction false} NullBoxStep(r: Str)
    ensures DecodeData(14, Le(0, 4) + r) == Some(Step(NullBox, 4))
  {
    hide DecodeElems, DecodeBox;
    FieldParts([], r);
    assert Le(0, 4) + r == Le(0, 4) + [] + r;
  }

  lemma {:induction false} ListStep(n: nat, es: Str, r: Str)
    requires n < U32
    ensures DecodeData(15, Le(n, 4) + es + r)
         == match DecodeElems(n, es + r) case Some(x) => Some(Step(List(x.elems), 4 + x.used)) case None => None
  {
    hide DecodeElems, DecodeBox, Le, Len;
    CountStep(n, es, r);
  }

  // A container that is not in flight comes back as its map, never as the
  // null container: its own encoding is at least four bytes long.
  lemma {:induction false} ContainerRoundTrip(h: Heap, s: set<Id>, p: Pointer, r: Str)
    requires AllDistinct(h) && !Cut(h, s, p) && FitsData(UnfoldData(h, s, ORef(p)))
    ensures var step := DecodeData(14, DataBytes(h, s, ORef(p)) + r);
            step.Some? && step.value.data.Box? && step.value.data == NormData(UnfoldData(h, s, ORef(p))) &&
            step.value.used == |DataBytes(h, s, ORef(p))|
    decreases h.Keys - s, p, 0
  {
    var es, s' := h[p.id], s + {p.id};
    var body := NodeBytes(h, s', es);
    UnfoldCount(h, s', es);
    BoxEntriesFit(UnfoldEntries(h, s', es));
    BoxRoundTrip(h, s', es, []);
    EntriesBytesSize(h, s', es);
    assert body + [] == body;
    BoxStep(body, r);
  }

  lemma {:induction false} BoxStep(body: Str, r: Str)
    requires 0 < |body| < U32 && DecodeBox(body).Some?
    ensures DecodeData(14, Le(|body|, 4) + body + r) == Some(Step(Box(DecodeBox(body).value), 4 + |body|))
  {
    hide DecodeElems, DecodeBox, DecodeValue, Le, Len, BoxSize;
    FieldParts(body, r);
  }

  lemma {:induction false} BoxRoundTrip(h: Heap, s: set<Id>, es: seq<Entry>, r: Str)
    requires AllDistinct(h) && DistinctKeys(es) && |es| < U32 && EntriesFit(UnfoldEntries(h, s, es))
    ensures DecodeBox(NodeBytes(h, s, es) + r) == Some(NormMap(UnfoldEntries(h, s, es)))
    decreases h.Keys - s, es, 2
  {
    hide DecodeValue, DecodeEntries, DecodeBox, EntriesFit, NormData, EntriesBytes, UnfoldEntries, Le, Len;
    var m := UnfoldEntries(h, s, es);
    EntriesRoundTrip(h, s, es, true, 0, map[], r);
    assert map[] + NormMap(m) == NormMap(m);
    BoxCount(|es|, EntriesBytes(h, s, es), r);
  }

  lemma {:induction false} CountStep(n: nat, es: Str, r: Str)
    requires n < U32
    ensures var b := Le(n, 4) + es + r; |b| >= 4 && Len(b) == n && b[4..] == es + r
  {
    LenRoundTrip(n, es + r);
    assert Le(n, 4) + es + r == Le(n, 4) + (es + r);
  }

  lemma {:induction false} BoxCount(n: nat, es: Str, r: Str)
    requires n < U32
    ensures DecodeBox(Le(n, 4) + es + r)
         == match DecodeEntries(true, 0, n, es + r, map[]) case Ok(m) => Some(m) case Err(_) => None
  {
    hide DecodeEntries, Le, Len, BoxSize;
    CountStep(n, es, r);
  }

  lemma {:induction false} ElemsRoundTrip(h: Heap, s: set<Id>, es: seq<Elem>, r: Str)
    requires AllDistinct(h) && FitsElems(UnfoldElems(h, s, es))
    ensures var steps := DecodeElems(|es|, ElemsBytes(h, s, es) + r);
            steps.Some? && steps.value.elems == NormElems(UnfoldElems(h, s, es)) && steps.value.used == |ElemsBytes(h, s, es)|
    decreases h.Keys - s, es, 1
  {
    hide DecodeValue, ElemBytes, UnfoldElem, Fits, Clean, Size, Norm;
    if es != [] {
      hide DecodeElems;
      var us := UnfoldElems(h, s, es);
      var first, tail := ElemBytes(h, s, es[0]), ElemsBytes(h, s, es[1..]) + r;
      ElemRoundTrip(h, s, es[0], tail);
      assert ElemsBytes(h, s, es) + r == first + tail;
      FirstElem(|es| - 1, first, tail, Norm(us[0]));
      ElemsRoundTrip(h, s, es[1..], r);
      assert us[1..] == UnfoldElems(h, s, es[1..]);
    }
  }

  // An element is read back, and its size when encoded again is the number of
  // bytes it occupies in the input, so that the offset moves exactly past it,
  // iff no inner name occurs in it.
  lemma {:induction false} ElemRoundTrip(h: Heap, s: set<Id>, e: Elem, tail: Str)
    requires AllDistinct(h) && Fits(UnfoldElem(h, s, e))
    ensures DecodeValue(ElemBytes(h, s, e) + tail) == Some(Norm(UnfoldElem(h, s, e)))
    ensures Size(Norm(UnfoldElem(h, s, e))) <= |ElemBytes(h, s, e)|
    ensures Size(Norm(UnfoldElem(h, s, e))) == |ElemBytes(h, s, e)| <==> Clean(UnfoldElem(h, s, e))
    decreases h.Keys - s, e, 1
  {
    hide DecodeValue, ObjBytes, CleanData, Fits;
    NormSize(UnfoldElem(h, s, e).data);
    ElemBytesSize(h, s, e);
    match e
    case NoElem => NullStep(tail);
    case Elem(o) => ValueRoundTrip(h, s, o, tail);
  }

  // An array is read back up to and including its first element with an inner
  // name, and the offset falls short behind that element, and only there.
  lemma {:induction false} ElemsUpTo(h: Heap, s: set<Id>, es: seq<Elem>, e: Elem, r: Str)
    requires AllDistinct(h) && FitsElems(UnfoldElems(h, s, es)) && Fits(UnfoldElem(h, s, e))
    ensures var u := UnfoldElem(h, s, e);
            var steps := DecodeElems(|es| + 1, ElemsBytes(h, s, es) + ElemBytes(h, s, e) + r);
            steps.Some? && steps.value.elems == NormElems(UnfoldElems(h, s, es)) + [Norm(u)] &&
            steps.value.used <= |ElemsBytes(h, s, es) + ElemBytes(h, s, e)| &&
            (steps.value.used == |ElemsBytes(h, s, es) + ElemBytes(h, s, e)| <==> Clean(u))
    decreases |es|
  {
    hide DecodeValue, DecodeElems, ElemBytes, UnfoldElem, Fits, Clean, Size, Norm;
    if es == [] {
      ElemRoundTrip(h, s, e, r);
      OneElem(ElemBytes(h, s, e) + r);
      assert ElemsBytes(h, s, es) + ElemBytes(h, s, e) + r == ElemBytes(h, s, e) + r;
    } else {
      var rest := ElemsBytes(h, s, es[1..]) + ElemBytes(h, s, e);
      var first, us := ElemBytes(h, s, es[0]), UnfoldElems(h, s, es);
      ElemRoundTrip(h, s, es[0], rest + r);
      assert ElemsBytes(h, s, es) + ElemBytes(h, s, e) + r == first + (rest + r);
      FirstElem(|es|, first, rest + r, Norm(us[0]));
      ElemsUpTo(h, s, es[1..], e, r);
      assert us[1..] == UnfoldElems(h, s, es[1..]);
      assert NormElems(us) + [Norm(UnfoldElem(h, s, e))] == [Norm(us[0])] + (NormElems(us[1..]) + [Norm(UnfoldElem(h, s, e))]);
      assert |ElemsBytes(h, s, es) + ElemBytes(h, s, e)| == |first| + |rest|;
    }
  }

  lemma {:induction false} OneElem(b: Str)
    requires DecodeValue(b).Some?
    ensures DecodeElems(1, b) == Some(Steps([DecodeValue(b).value], Size(DecodeValue(b).value)))
  {
    hide DecodeValue, Size;
    var u := DecodeValue(b).value;
    assert b == b[..Size(u)] + b[Size(u)..];
    FirstElem(0, b[..Size(u)], b[Size(u)..], u);
    assert DecodeElems(0, b[Size(u)..]) == Some(Steps([], 0)) && [u] + [] == [u];
  }

  lemma {:induction false} FirstElem(count: nat, first: Str, tail: Str, u: Value)
    requires DecodeValue(first + tail) == Some(u) && Size(u) == |first|
    ensures DecodeElems(count + 1, first + tail)
         == match DecodeElems(count, tail)
            case Some(x) => Some(Steps([u] + x.elems, |first| + x.used))
            case None => None
  {
    hide DecodeValue, Size;
    assert (first + tail)[|first|..] == tail;
  }

  lemma {:induction false} NullStep(tail: Str)
    ensures DecodeValue(Le(0, 4) + [0] + tail) == Some(Value([], Null))
  {
    FieldParts([], [0] + tail);
    assert Le(0, 4) + [0] + tail == Le(0, 4) + [] + ([0] + tail);
  }

  lemma {:induction false} EntriesRoundTrip(h: Heap, s: set<Id>, es: seq<Entry>, lenient: bool, i: nat,
                                            acc: map<Str, Value>, r: Str)
    requires AllDistinct(h) && DistinctKeys(es) && EntriesFit(UnfoldEntries(h, s, es))
    ensures DecodeEntries(lenient, i, |es|, EntriesBytes(h, s, es) + r, acc)
         == Ok(acc + NormMap(UnfoldEntries(h, s, es)))
    decreases h.Keys - s, es, 1
  {
    hide DecodeEntries, DecodeValue, EntriesBytes, UnfoldEntries, Fits, Clean, ObjBytes, Unfold, EntryBytes, Le, Size, NormData, NormMap, EntriesFit;
    if es == [] {
      NoEntries(h, s, lenient, i, acc, r);
    } else {
      var m := UnfoldEntries(h, s, es[1..]);
      var k, u, v := es[0].key, Unfold(h, s, es[0].val), ObjBytes(h, s, es[0].val);
      var tail := EntriesBytes(h, s, es[1..]) + r;
      var acc' := acc[k := Value([], NormData(u.data))];
      EntriesHead(h, s, es, r);
      FirstKeyFresh(h, s, es);
      FirstFits(h, s, es);
      ValueRoundTrip(h, s, es[0].val, []);
      EntryStep(lenient, i, |es|, k, v, Norm(u), tail, acc);
      assert Norm(u).data == NormData(u.data);
      EntriesRoundTrip(h, s, es[1..], lenient, i + 1, acc', r);
      MergeFirst(acc, m, k, u);
    }
  }

  lemma {:induction false} NoEntries(h: Heap, s: set<Id>, lenient: bool, i: nat, acc: map<Str, Value>, r: Str)
    ensures EntriesBytes(h, s, []) + r == r && UnfoldEntries(h, s, []) == map[]
    ensures DecodeEntries(lenient, i, 0, r, acc) == Ok(acc + NormMap(map[]))
  {
    assert NormMap(map[]) == map[];
    assert acc + map[] == acc;
  }

  lemma {:induction false} EntriesHead(h: Heap, s: set<Id>, es: seq<Entry>, r: Str)
    requires es != []
    ensures EntriesBytes(h, s, es) + r
         == EntryBytes(es[0].key, ObjBytes(h, s, es[0].val)) + (EntriesBytes(h, s, es[1..]) + r)
    ensures UnfoldEntries(h, s, es) == UnfoldEntries(h, s, es[1..])[es[0].key := Unfold(h, s, es[0].val)]
  {
  }

  lemma {:induction false} MergeFirst(acc: map<Str, Value>, m: map<Str, Value>, k: Str, u: Value)
    requires k !in m
    ensures acc[k := Value([], NormData(u.data))] + NormMap(m) == acc + NormMap(m[k := u])
  {
    assert NormMap(m[k := u]) == NormMap(m)[k := Value([], NormData(u.data))];
  }

  lemma {:induction false} FirstFits(h: Heap, s: set<Id>, es: seq<Entry>)
    requires AllDistinct(h) && DistinctKeys(es) && es != [] && EntriesFit(UnfoldEntries(h, s, es))
    ensures |es[0].key| < U32 && |ObjBytes(h, s, es[0].val)| < U32
    ensures Fits(Unfold(h, s, es[0].val)) && EntriesFit(UnfoldEntries(h, s, es[1..]))
  {
    var m, m' := UnfoldEntries(h, s, es[1..]), UnfoldEntries(h, s, es);
    FirstKeyFresh(h, s, es);
    BytesSize(h, s, es[0].val);
    assert m'[es[0].key] == Unfold(h, s, es[0].val);
    assert forall x :: x in m ==> x in m' && m'[x] == m[x];
  }

  // One step of the entry loop over an entry whose value v decodes to u.
  lemma {:induction false} EntryStep(lenient: bool, i: nat, left: nat, k: Str, v: Str, u: Value, tail: Str, acc: map<Str, Value>)
    requires left > 0 && |k| < U32 && |v| < U32 && DecodeValue(v + []) == Some(u)
    ensures DecodeEntries(lenient, i, left, EntryBytes(k, v) + tail, acc)
         == DecodeEntries(lenient, i + 1, left - 1, tail, acc[k := Value([], u.data)])
  {
    hide Le, Len, Size, DecodeValue, EntryBytes;
    var b := EntryBytes(k, v) + tail;
    assert v + [] == v;
    EntryParts(k, v, tail);
    EntryLength(k, v);
  }

  lemma {:induction false} EntryLength(k: Str, v: Str)
    ensures |EntryBytes(k, v)| == 8 + |k| + |v|
  {
  }

  lemma {:induction false} EntryParts(k: Str, v: Str, tail: Str)
    requires |k| < U32 && |v| < U32
    ensures var b := EntryBytes(k, v) + tail;
            Len(b) == |k| && b[4..4 + |k|] == k && Len(b[4 + |k|..]) == |v| &&
            b[8 + |k|..8 + |k| + |v|] == v && b[8 + |k| + |v|..] == tail
  {
    var rest := Le(|v|, 4) + v + tail;
    var b := EntryBytes(k, v) + tail;
    assert b == Le(|k|, 4) + k + rest;
    FieldParts(k, rest);
    FieldParts(v, tail);
    assert b[8 + |k|..8 + |k| + |v|] == rest[4..4 + |v|];
    assert b[8 + |k| + |v|..] == rest[4 + |v|..];
  }
}
