// Values as they lie in memory: containers are shared objects reached through
// pointers, so they can be aliased and can form cycles.
module ObjectGraph {
  import opened LittleEndian
  import opened WireValues

  type Id = nat

  datatype Pointer = Nil | To(id: Id)

  datatype Obj = Obj(name: Str, data: ObjData)

  datatype ObjData =
    | ONull
    | OBool(b: bool)
    | ONum(kind: NumKind, bits: nat)
    | OText(s: Str)
    | OBlob(s: Str)
    | ORef(p: Pointer)
    | OList(elems: seq<Elem>)

  // An array element is itself a pointer, possibly null.
  datatype Elem = NoElem | Elem(o: Obj)

  datatype Entry = Entry(key: Str, val: Obj)

  // Every container alive, with its entries in the order it enumerates them.
  type Heap = map<Id, seq<Entry>>

  function ObjTag(d: ObjData): (t: byte)
    ensures t <= 15
  {
    match d
    case ONull => 0
    case OBool(_) => 1
    case ONum(k, _) => NumTag(k)
    case OText(_) => 12
    case OBlob(_) => 13
    case ORef(_) => 14
    case OList(_) => 15
  }

  predicate DistinctKeys(es: seq<Entry>) {
    forall i, j :: 0 <= i < j < |es| ==> es[i].key != es[j].key
  }

  ghost predicate AllDistinct(h: Heap) {
    forall id :: id in h ==> DistinctKeys(h[id])
  }

  // A container that is already being written, or a null pointer, is written
  // as the null container.
  predicate Cut(h: Heap, s: set<Id>, p: Pointer) {
    p == Nil || p.id in s || p.id !in h
  }

  // ---- The finite unfolding of a graph, with the containers in s in flight ----

  function Unfold(h: Heap, s: set<Id>, o: Obj): Value
    decreases h.Keys - s, o, 1
  {
    Value(o.name, UnfoldData(h, s, o.data))
  }

  function UnfoldData(h: Heap, s: set<Id>, d: ObjData): Data
    decreases h.Keys - s, d, 0
  {
    match d
    case ONull => Null
    case OBool(b) => Bool(b)
    case ONum(k, bits) => Num(k, bits)
    case OText(t) => Text(t)
    case OBlob(t) => Blob(t)
    case ORef(p) => if Cut(h, s, p) then NullBox else Box(UnfoldEntries(h, s + {p.id}, h[p.id]))
    case OList(es) => List(UnfoldElems(h, s, es))
  }

  function UnfoldElem(h: Heap, s: set<Id>, e: Elem): Value
    decreases h.Keys - s, e, 1
  {
    match e
    case NoElem => Value([], Null)
    case Elem(o) => Unfold(h, s, o)
  }

  function UnfoldElems(h: Heap, s: set<Id>, es: seq<Elem>): (r: seq<Value>)
    ensures |r| == |es|
    decreases h.Keys - s, es, 1
  {
    if es == [] then [] else [UnfoldElem(h, s, es[0])] + UnfoldElems(h, s, es[1..])
  }

  function UnfoldEntries(h: Heap, s: set<Id>, es: seq<Entry>): map<Str, Value>
    decreases h.Keys - s, es, 1
  {
    if es == [] then map[]
    else UnfoldEntries(h, s, es[1..])[es[0].key := Unfold(h, s, es[0].val)]
  }

  // ---- The bytes written for a graph ----

  function ObjBytes(h: Heap, s: set<Id>, o: Obj): Str
    decreases h.Keys - s, o, 1
  {
    Le(|o.name|, 4) + o.name + [ObjTag(o.data)] + DataBytes(h, s, o.data)
  }

  function DataBytes(h: Heap, s: set<Id>, d: ObjData): Str
    decreases h.Keys - s, d, 0
  {
    match d
    case ONull => []
    case OBool(b) => [if b then 1 else 0]
    case ONum(k, bits) => Le(bits, Width(k))
    case OText(t) => Le(|t|, 4) + t
    case OBlob(t) => Le(|t|, 4) + t
    case ORef(p) =>
      if Cut(h, s, p) then Le(0, 4)
      else
        var body := Le(|h[p.id]|, 4) + EntriesBytes(h, s + {p.id}, h[p.id]);
        Le(|body|, 4) + body
    case OList(es) => Le(|es|, 4) + ElemsBytes(h, s, es)
  }

  // A null element is written as a null value with an empty name.
  function ElemBytes(h: Heap, s: set<Id>, e: Elem): Str
    decreases h.Keys - s, e, 1
  {
    match e
    case NoElem => Le(0, 4) + [0]
    case Elem(o) => ObjBytes(h, s, o)
  }

  function ElemsBytes(h: Heap, s: set<Id>, es: seq<Elem>): Str
    decreases h.Keys - s, es, 1
  {
    if es == [] then [] else ElemBytes(h, s, es[0]) + ElemsBytes(h, s, es[1..])
  }

  // A key and an encoded value, each behind its length.
  function EntryBytes(key: Str, val: Str): Str {
    Le(|key|, 4) + key + Le(|val|, 4) + val
  }

  function EntriesBytes(h: Heap, s: set<Id>, es: seq<Entry>): Str
    decreases h.Keys - s, es, 1
  {
    if es == [] then []
    else EntryBytes(es[0].key, ObjBytes(h, s, es[0].val)) + EntriesBytes(h, s, es[1..])
  }

  // A container's own encoding: its entry count and its entries.
  function NodeBytes(h: Heap, s: set<Id>, es: seq<Entry>): Str {
    Le(|es|, 4) + EntriesBytes(h, s, es)
  }

  // ---- Size: the bytes written depend on the map, not on its order ----

  lemma {:induction false} BytesSize(h: Heap, s: set<Id>, o: Obj)
    requires AllDistinct(h)
    ensures |ObjBytes(h, s, o)| == Size(Unfold(h, s, o))
    decreases h.Keys - s, o, 1
  {
    DataBytesSize(h, s, o.data);
  }

  lemma {:induction false} DataBytesSize(h: Heap, s: set<Id>, d: ObjData)
    requires AllDistinct(h)
    ensures |DataBytes(h, s, d)| == DataSize(UnfoldData(h, s, d))
    decreases h.Keys - s, d, 0
  {
    match d
    case ORef(p) =>
      if !Cut(h, s, p) {
        EntriesBytesSize(h, s + {p.id}, h[p.id]);
        BoxDataSize(UnfoldEntries(h, s + {p.id}, h[p.id]));
      }
    case OList(es) => ElemsBytesSize(h, s, es);
    case _ =>
  }

  lemma {:induction false} ElemBytesSize(h: Heap, s: set<Id>, e: Elem)
    requires AllDistinct(h)
    ensures |ElemBytes(h, s, e)| == Size(UnfoldElem(h, s, e))
    decreases h.Keys - s, e, 1
  {
    match e
    case NoElem =>
    case Elem(o) => BytesSize(h, s, o);
  }

  lemma {:induction false} ElemsBytesSize(h: Heap, s: set<Id>, es: seq<Elem>)
    requires AllDistinct(h)
    ensures |ElemsBytes(h, s, es)| == ElemsSize(UnfoldElems(h, s, es))
    decreases h.Keys - s, es, 1
  {
    if es != [] {
      ElemBytesSize(h, s, es[0]);
      ElemsBytesSize(h, s, es[1..]);
      assert UnfoldElems(h, s, es)[1..] == UnfoldElems(h, s, es[1..]);
    }
  }

  lemma {:induction false} EntriesBytesSize(h: Heap, s: set<Id>, es: seq<Entry>)
    requires AllDistinct(h) && DistinctKeys(es)
    ensures 4 + |EntriesBytes(h, s, es)| == BoxSize(UnfoldEntries(h, s, es))
    decreases h.Keys - s, es, 1
  {
    if es == [] {
      assert EntrySizes(map[]) == map[];
    } else {
      BytesSize(h, s, es[0].val);
      EntriesBytesSize(h, s, es[1..]);
      FirstKeyFresh(h, s, es);
      BoxSizeAdd(UnfoldEntries(h, s, es[1..]), es[0].key, Unfold(h, s, es[0].val));
    }
  }

  lemma {:induction false} UnfoldKeys(h: Heap, s: set<Id>, es: seq<Entry>)
    ensures UnfoldEntries(h, s, es).Keys == set e | e in es :: e.key
    decreases |es|
  {
    if es != [] {
      UnfoldKeys(h, s, es[1..]);
      assert es == [es[0]] + es[1..];
    }
  }

  lemma {:induction false} FirstKeyFresh(h: Heap, s: set<Id>, es: seq<Entry>)
    requires es != [] && DistinctKeys(es)
    ensures es[0].key !in UnfoldEntries(h, s, es[1..])
    ensures DistinctKeys(es[1..])
  {
    hide UnfoldEntries;
    UnfoldKeys(h, s, es[1..]);
    assert forall i :: 0 <= i < |es| - 1 ==> es[1..][i] == es[i + 1];
  }

  // The number of entries written is the number of entries of the map.
  lemma {:induction false} UnfoldCount(h: Heap, s: set<Id>, es: seq<Entry>)
    requires DistinctKeys(es)
    ensures |UnfoldEntries(h, s, es)| == |es|
    decreases |es|
  {
    if es != [] {
      UnfoldCount(h, s, es[1..]);
      FirstKeyFresh(h, s, es);
      var m := UnfoldEntries(h, s, es[1..]);
      assert m[es[0].key := Unfold(h, s, es[0].val)].Keys == m.Keys + {es[0].key};
    }
  }
}
