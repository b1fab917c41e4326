// No strict prefix of an encoding is accepted, wherever it is cut.
module Truncation {
  import opened Outcomes
  import opened LittleEndian
  import opened WireValues
  import opened Decoder
  import opened ObjectGraph
  import opened RoundTrip

  lemma {:induction false} ValueTruncated(h: Heap, s: set<Id>, o: Obj, n: nat)
    requires AllDistinct(h) && Fits(Unfold(h, s, o)) && n < |ObjBytes(h, s, o)|
    ensures DecodeValue(ObjBytes(h, s, o)[..n]) == None
    decreases h.Keys - s, o, 1
  {
    hide DecodeValue;
    var d, t := DataBytes(h, s, o.data), ObjTag(o.data);
    var header := Le(|o.name|, 4) + o.name + [t];
    assert ObjBytes(h, s, o) == header + d;
    if n < |header| {
      HeaderCut(o.name, t, d, n);
    } else {
      assert (header + d)[..n] == header + d[..n - |header|];
      HeaderStep(o.name, t, d[..n - |header|]);
      DataTruncated(h, s, o.data, n - |header|);
    }
  }

  lemma {:induction false} HeaderCut(name: Str, t: byte, rest: Str, n: nat)
    requires |name| < U32 && n < 5 + |name|
    ensures DecodeValue((Le(|name|, 4) + name + [t] + rest)[..n]) == None
  {
    hide DecodeData, Le, Len, Size;
    HeaderLength(name, [t] + rest, n);
    assert Le(|name|, 4) + name + [t] + rest == Le(|name|, 4) + name + ([t] + rest);
  }

  lemma {:induction false} HeaderLength(name: Str, r: Str, n: nat)
    requires |name| < U32 && n < 5 + |name| && |r| > 0
    ensures var b := (Le(|name|, 4) + name + r)[..n];
            |b| == n < 5 + |name| && (n >= 4 ==> Len(b) == |name|)
  {
    if n >= 4 {
      LengthOfCut(name, r, n);
    }
  }

  // A cut behind a length field leaves the length as it was.
  lemma {:induction false} LengthOfCut(x: Str, r: Str, n: nat)
    requires |x| < U32 && 4 <= n <= 4 + |x| + |r|
    ensures Len((Le(|x|, 4) + x + r)[..n]) == |x|
  {
    FieldParts(x, r);
    assert (Le(|x|, 4) + x + r)[..n][..4] == (Le(|x|, 4) + x + r)[..4];
  }

  lemma {:induction false} DataTruncated(h: Heap, s: set<Id>, d: ObjData, n: nat)
    requires AllDistinct(h) && FitsData(UnfoldData(h, s, d)) && n < |DataBytes(h, s, d)|
    ensures DecodeData(ObjTag(d), DataBytes(h, s, d)[..n]) == None
    decreases h.Keys - s, d, 0
  {
    hide DecodeData, UnfoldEntries, FitsElems, Fits;
    match d
    case OBool(_) => ScalarCut(d, n);
    case ONum(_, _) => ScalarCut(d, n);
    case OText(t) => FieldCut(12, t, n);
    case OBlob(t) => FieldCut(13, t, n);
    case ORef(p) =>
      if Cut(h, s, p) {
        FieldCut(14, [], n);
        assert Le(0, 4) + [] == Le(0, 4);
      } else {
        ContainerCut(h, s, p, n);
      }
    case OList(es) =>
      if n < 4 {
        FieldCut(15, ElemsBytes(h, s, es), n);
      } else {
        ElemsTruncated(h, s, es, n - 4);
        ListCut(|es|, ElemsBytes(h, s, es), n);
      }
  }

  lemma {:induction false} ScalarCut(d: ObjData, n: nat)
    requires d.OBool? || d.ONum?
    requires n < |DataBytes(map[], {}, d)|
    ensures DecodeData(ObjTag(d), DataBytes(map[], {}, d)[..n]) == None
  {
  }

  // A string, bytes or container payload whose length field no longer matches.
  lemma {:induction false} FieldCut(t: byte, x: Str, n: nat)
    requires 12 <= t <= 15 && n < 4 + |x|
    requires n < 4 || (|x| < U32 && t != 15 && (t == 14 ==> x != []))
    ensures forall p: Str :: |p| == 4 && n < 4 ==> DecodeData(t, (p + x)[..n]) == None
    ensures n >= 4 ==> DecodeData(t, (Le(|x|, 4) + x)[..n]) == None
  {
    hide DecodeElems, DecodeBox, Le;
    if n >= 4 {
      LengthOfCut(x, [], n);
      assert Le(|x|, 4) + x + [] == Le(|x|, 4) + x;
    }
  }

  lemma {:induction false} ContainerCut(h: Heap, s: set<Id>, p: Pointer, n: nat)
    requires AllDistinct(h) && !Cut(h, s, p) && FitsData(UnfoldData(h, s, ORef(p)))
    requires n < |DataBytes(h, s, ORef(p))|
    ensures DecodeData(14, DataBytes(h, s, ORef(p))[..n]) == None
  {
    hide DecodeData, UnfoldEntries, Fits;
    EntriesBytesSize(h, s + {p.id}, h[p.id]);
    FieldCut(14, NodeBytes(h, s + {p.id}, h[p.id]), n);
  }

  lemma {:induction false} ListCut(count: nat, es: Str, n: nat)
    requires count < U32 && 4 <= n <= 4 + |es|
    requires DecodeElems(count, es[..n - 4]) == None
    ensures DecodeData(15, (Le(count, 4) + es)[..n]) == None
  {
    hide DecodeData;
    assert (Le(count, 4) + es)[..n] == Le(count, 4) + es[..n - 4] + [];
    assert es[..n - 4] + [] == es[..n - 4];
    ListStep(count, es[..n - 4], []);
  }

  lemma {:induction false} ElemsTruncated(h: Heap, s: set<Id>, es: seq<Elem>, n: nat)
    requires AllDistinct(h) && FitsElems(UnfoldElems(h, s, es)) && n < |ElemsBytes(h, s, es)|
    ensures DecodeElems(|es|, ElemsBytes(h, s, es)[..n]) == None
    decreases h.Keys - s, es, 1
  {
    hide DecodeValue, ElemBytes, UnfoldElem, Fits, Clean, Size, Norm;
    var us := UnfoldElems(h, s, es);
    var first, tail := ElemBytes(h, s, es[0]), ElemsBytes(h, s, es[1..]);
    assert ElemsBytes(h, s, es) == first + tail;
    if n < |first| {
      assert (first + tail)[..n] == first[..n];
      ElemTruncated(h, s, es[0], n);
    } else {
      var cut := tail[..n - |first|];
      assert (first + tail)[..n] == first + cut;
      assert (first + cut)[|first|..] == cut;
      ElemRoundTrip(h, s, es[0], cut);
      assert us[1..] == UnfoldElems(h, s, es[1..]);
      ElemsTruncated(h, s, es[1..], n - |first|);
    }
  }

  lemma {:induction false} ElemTruncated(h: Heap, s: set<Id>, e: Elem, n: nat)
    requires AllDistinct(h) && Fits(UnfoldElem(h, s, e)) && n < |ElemBytes(h, s, e)|
    ensures DecodeValue(ElemBytes(h, s, e)[..n]) == None
    decreases h.Keys - s, e, 1
  {
    match e
    case NoElem =>
    case Elem(o) => ValueTruncated(h, s, o, n);
  }

  // A container or a store cut inside its entries is reported, lenient or not.
  lemma {:induction false} EntriesTruncated(h: Heap, s: set<Id>, es: seq<Entry>, lenient: bool, i: nat,
                                            acc: map<Str, Value>, n: nat)
    requires AllDistinct(h) && DistinctKeys(es) && EntriesFit(UnfoldEntries(h, s, es))
    requires n < |EntriesBytes(h, s, es)|
    ensures DecodeEntries(lenient, i, |es|, EntriesBytes(h, s, es)[..n], acc).Err?
    decreases |es|
  {
    hide DecodeEntries, DecodeValue, UnfoldEntries, Fits, Clean, ObjBytes, Unfold, EntryBytes, Size, EntriesFit;
    var k, v, u := es[0].key, ObjBytes(h, s, es[0].val), Unfold(h, s, es[0].val);
    var first, tail := EntryBytes(k, v), EntriesBytes(h, s, es[1..]);
    FirstKeyFresh(h, s, es);
    FirstFits(h, s, es);
    assert EntriesBytes(h, s, es) == first + tail;
    if n < |first| {
      EntryCut(lenient, i, |es|, k, v, tail, acc, n);
    } else {
      var cut := tail[..n - |first|];
      assert (first + tail)[..n] == first + cut;
      ValueRoundTrip(h, s, es[0].val, []);
      EntryStep(lenient, i, |es|, k, v, Norm(u), cut, acc);
      EntriesTruncated(h, s, es[1..], lenient, i + 1, acc[k := Value([], Norm(u).data)], n - |first|);
    }
  }

  lemma {:induction false} EntryCut(lenient: bool, i: nat, left: nat, k: Str, v: Str, tail: Str, acc: map<Str, Value>, n: nat)
    requires left > 0 && |k| < U32 && |v| < U32 && n < |EntryBytes(k, v)|
    ensures DecodeEntries(lenient, i, left, (EntryBytes(k, v) + tail)[..n], acc).Err?
  {
    hide Le, Len, Size, DecodeValue, EntryBytes;
    var b := (EntryBytes(k, v) + tail)[..n];
    EntryLengths(k, v, tail, n);
  }

  // The length fields that survive a cut, and what they ask for.
  lemma {:induction false} EntryLengths(k: Str, v: Str, tail: Str, n: nat)
    requires |k| < U32 && |v| < U32 && n < |EntryBytes(k, v)|
    ensures var b := (EntryBytes(k, v) + tail)[..n];
            |b| == n < 8 + |k| + |v| && (n >= 4 ==> Len(b) == |k|) &&
            (n >= 8 + |k| ==> Len(b[4 + |k|..]) == |v|)
  {
    hide Le, Len;
    var rest := Le(|v|, 4) + v + tail;
    assert EntryBytes(k, v) + tail == Le(|k|, 4) + k + rest;
    if n >= 4 {
      LengthOfCut(k, rest, n);
      if n >= 8 + |k| {
        FieldParts(k, rest);
        assert (Le(|k|, 4) + k + rest)[..n][4 + |k|..] == rest[..n - 4 - |k|];
        LengthOfCut(v, tail, n - 4 - |k|);
      }
    }
  }

  lemma {:induction false} BoxTruncated(h: Heap, s: set<Id>, es: seq<Entry>, n: nat)
    requires AllDistinct(h) && DistinctKeys(es) && |es| < U32 && EntriesFit(UnfoldEntries(h, s, es))
    requires n < |NodeBytes(h, s, es)|
    ensures DecodeBox(NodeBytes(h, s, es)[..n]) == None
  {
    hide DecodeBox, DecodeEntries, Fits, UnfoldEntries, BoxSize, EntriesBytes, Le, EntriesFit;
    var body := EntriesBytes(h, s, es);
    if n < 4 {
      ShortBox(NodeBytes(h, s, es)[..n]);
    } else {
      EntriesTruncated(h, s, es, true, 0, map[], n - 4);
      assert NodeBytes(h, s, es)[..n] == Le(|es|, 4) + body[..n - 4] + [];
      assert body[..n - 4] + [] == body[..n - 4];
      BoxCount(|es|, body[..n - 4], []);
    }
  }

  lemma {:induction false} ShortBox(b: Str)
    requires |b| < 4
    ensures DecodeBox(b) == None
  {
  }
}
