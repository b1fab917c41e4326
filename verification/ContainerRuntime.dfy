// The running program: the containers alive, the thread's set of containers
// being written, and the methods that change either.
module ContainerRuntime {
  import opened Outcomes
  import opened LittleEndian
  import opened WireValues
  import opened Decoder
  import opened ObjectGraph
  import opened GraphFacts

  // `values_[key] = data` on an unordered_map: an existing entry keeps its
  // name and takes the data, a new one has an empty name and goes anywhere.
  method Assign(es: seq<Entry>, key: Str, d: ObjData) returns (r: seq<Entry>)
    requires DistinctKeys(es)
    ensures DistinctKeys(r)
    ensures var m := EntryMap(es);
            EntryMap(r) == m[key := Obj(if key in m then m[key].name else [], d)]
  {
    hide EntryMap;
    EntryMapOf(es);
    var i := 0;
    while i < |es| && es[i].key != key
      invariant i <= |es|
      invariant forall j :: 0 <= j < i ==> es[j].key != key
    {
      i := i + 1;
    }
    if i < |es| {
      assert EntryMap(es)[key] == es[i].val;
      r := es[i := Entry(key, Obj(es[i].val.name, d))];
      ReplaceEntry(es, i, Obj(es[i].val.name, d));
    } else {
      var p :| 0 <= p <= |es|;
      r := es[..p] + [Entry(key, Obj([], d))] + es[p..];
      InsertEntry(es, p, Entry(key, Obj([], d)), r);
    }
  }

  lemma {:induction false} ReplaceEntry(es: seq<Entry>, i: nat, o: Obj)
    requires i < |es| && DistinctKeys(es)
    ensures var r := es[i := Entry(es[i].key, o)];
            DistinctKeys(r) && EntryMap(r) == EntryMap(es)[es[i].key := o]
  {
    hide EntryMap;
    var r := es[i := Entry(es[i].key, o)];
    assert r[i] == Entry(es[i].key, o);
    forall j | 0 <= j < |es| && es[j].key != es[i].key ensures es[j] in r {
      assert r[j] == es[j];
    }
    MapAfterAssign(es, r, es[i].key, o);
  }

  // A new entry at position p; the others keep their order.
  lemma {:induction false} InsertEntry(es: seq<Entry>, p: nat, e: Entry, r: seq<Entry>)
    requires p <= |es| && DistinctKeys(es) && forall i :: 0 <= i < |es| ==> es[i].key != e.key
    requires |r| == |es| + 1 && r[p] == e
    requires forall i :: 0 <= i < p ==> r[i] == es[i]
    requires forall i :: p < i < |r| ==> r[i] == es[i - 1]
    ensures DistinctKeys(r) && EntryMap(r) == EntryMap(es)[e.key := e.val]
  {
    hide EntryMap;
    InsertDistinct(es, p, e, r);
    forall i | 0 <= i < |es| ensures es[i] in r {
      assert if i < p then r[i] == es[i] else r[i + 1] == es[i];
    }
    forall i | 0 <= i < |r| && r[i].key != e.key ensures r[i] in es {
      assert if i < p then r[i] == es[i] else r[i] == es[i - 1];
    }
    MapAfterAssign(es, r, e.key, e.val);
  }

  lemma {:induction false} InsertDistinct(es: seq<Entry>, p: nat, e: Entry, r: seq<Entry>)
    requires p <= |es| && DistinctKeys(es) && forall i :: 0 <= i < |es| ==> es[i].key != e.key
    requires |r| == |es| + 1 && r[p] == e
    requires forall i :: 0 <= i < p ==> r[i] == es[i]
    requires forall i :: p < i < |r| ==> r[i] == es[i - 1]
    ensures DistinctKeys(r)
  {
  }

  lemma {:induction false} NoSuchKey(es: seq<Entry>, key: Str)
    requires DistinctKeys(es) && forall j :: 0 <= j < |es| ==> es[j].key != key
    ensures key !in EntryMap(es) && EntryMap(es) - {key} == EntryMap(es)
  {
    hide EntryMap;
    EntryMapOf(es);
  }

  lemma {:induction false} HeapEntries(h: Heap, id: Id)
    requires AllDistinct(h) && CleanHeap(h) && ClosedUnder(h, h.Keys) && id in h
    ensures DistinctKeys(h[id]) && GoodEntries(h[id], h.Keys)
  {
    hide RefsIn;
  }

  // Entry p taken out of entries that were all right.
  lemma {:induction false} RemoveGood(es: seq<Entry>, p: nat, ids: set<Id>)
    requires p < |es| && GoodEntries(es, ids)
    ensures var r := es[..p] + es[p + 1..];
            GoodEntries(r, ids) && es[p].key in EntryMap(es) && EntryMap(r) == EntryMap(es) - {es[p].key}
  {
    hide EntryMap, RefsIn;
    EntryMapOf(es);
    RemoveEntry(es, p, es[..p] + es[p + 1..]);
  }

  lemma {:induction false} RemoveEntry(es: seq<Entry>, p: nat, r: seq<Entry>)
    requires p < |es| && DistinctKeys(es) && |r| == |es| - 1
    requires forall i :: 0 <= i < p ==> r[i] == es[i]
    requires forall i :: p <= i < |r| ==> r[i] == es[i + 1]
    ensures DistinctKeys(r) && EntryMap(r) == EntryMap(es) - {es[p].key}
  {
    hide EntryMap;
    assert forall i :: p < i < |es| ==> r[i - 1] == es[i];
    InsertEntry(r, p, es[p], es);
    EntryMapOf(r);
    assert es[p].key !in EntryMap(r);
    assert EntryMap(r)[es[p].key := es[p].val] - {es[p].key} == EntryMap(r);
  }

  // Entries that hold `o` under key and everything else that was there.
  lemma {:induction false} MapAfterAssign(es: seq<Entry>, r: seq<Entry>, key: Str, o: Obj)
    requires DistinctKeys(es) && DistinctKeys(r)
    requires Entry(key, o) in r
    requires forall i :: 0 <= i < |es| && es[i].key != key ==> es[i] in r
    requires forall i :: 0 <= i < |r| && r[i].key != key ==> r[i] in es
    ensures EntryMap(r) == EntryMap(es)[key := o]
  {
    hide EntryMap;
    var m, m' := EntryMap(es)[key := o], EntryMap(r);
    EntryMapOf(es);
    EntryMapOf(r);
    forall k ensures k in m <==> k in m' {
      if k != key {
        if k in m {
          var i :| 0 <= i < |es| && es[i].key == k;
          assert es[i] in r;
        }
        if k in m' {
          var i :| 0 <= i < |r| && r[i].key == k;
          assert r[i] in es;
        }
      }
    }
    forall k | k in m ensures m[k] == m'[k] {
      if k != key {
        var i :| 0 <= i < |es| && es[i].key == k;
        assert es[i] in r;
      }
    }
  }

  // ---- How a heap grows while something is read ----

  // Nothing that was alive changes, and what is new points only at what is new.
  ghost predicate Grown(h: Heap, h': Heap) {
    Extends(h, h') && ClosedUnder(h', h'.Keys - h.Keys)
  }

  // Entries of a container under construction.
  ghost predicate GoodEntries(es: seq<Entry>, r: set<Id>) {
    DistinctKeys(es) && EntriesIn(es, r) && forall i :: 0 <= i < |es| ==> es[i].val.name == []
  }

  lemma {:induction false} GrownSelf(h: Heap)
    ensures Grown(h, h)
  {
  }

  lemma {:induction false} GrownTrans(h0: Heap, h1: Heap, h2: Heap)
    requires Grown(h0, h1) && Grown(h1, h2)
    ensures Grown(h0, h2)
  {
    var r := h2.Keys - h0.Keys;
    forall id | id in r ensures EntriesIn(h2[id], r) {
      EntriesGrow(h2[id], if id in h1 then h1.Keys - h0.Keys else h2.Keys - h1.Keys, r);
    }
  }

  lemma {:induction false} NoElems(h: Heap, s: set<Id>, r: set<Id>)
    ensures UnfoldElems(h, s, []) == [] && ElemsIn([], r)
  {
  }

  // The number of bytes an element just read takes when written again.
  lemma {:induction false} ElemExtent(h: Heap, s: set<Id>, o: Obj, r: set<Id>, bytes: Str)
    requires AllDistinct(h) && ClosedUnder(h, r) && r !! s && RefsIn(o.data, r)
    requires bytes == ObjBytes(h, s, o)
    ensures |bytes| == Size(Unfold(h, {}, o))
  {
    hide UnfoldData, ObjBytes, Size;
    BytesSize(h, s, o);
    UnfoldLocal(h, s, h, {}, o.data, r);
  }

  // Elements read so far keep their meaning when another one is added.
  lemma {:induction false} ElemsKept(h: Heap, h': Heap, es: seq<Elem>, o: Obj, r: set<Id>, r': set<Id>)
    requires ClosedUnder(h, r) && Extends(h, h') && r <= r' && ElemsIn(es, r) && RefsIn(o.data, r' - r)
    ensures ElemsIn(es + [Elem(o)], r')
    ensures UnfoldElems(h', {}, es + [Elem(o)]) == UnfoldElems(h, {}, es) + [Unfold(h', {}, o)]
  {
    hide UnfoldElems, ElemsIn;
    UnfoldElemsLocal(h, {}, h', {}, es, r);
    ElemsGrow(es, r, r');
    RefsGrow(o.data, r' - r, r');
    ElemsAppend(h', {}, es, o, r');
  }

  lemma {:induction false} ElemsAppend(h: Heap, s: set<Id>, es: seq<Elem>, o: Obj, r: set<Id>)
    ensures UnfoldElems(h, s, es + [Elem(o)]) == UnfoldElems(h, s, es) + [Unfold(h, s, o)]
    ensures ElemsIn(es, r) && RefsIn(o.data, r) ==> ElemsIn(es + [Elem(o)], r)
    decreases |es|
  {
    if es == [] {
      assert ElemIn(Elem(o), r) <==> RefsIn(o.data, r);
      assert UnfoldElem(h, s, Elem(o)) == Unfold(h, s, o);
    } else {
      ElemsAppend(h, s, es[1..], o, r);
      assert (es + [Elem(o)])[1..] == es[1..] + [Elem(o)];
    }
  }

  // Elements already read, followed by the rest of them.
  ghost function Continue(es: seq<Value>, used: nat, rest: Option<Steps>): Option<Steps> {
    match rest
    case None => None
    case Some(x) => Some(Steps(es + x.elems, used + x.used))
  }

  lemma {:induction false} ContinueEnds(d: Option<Steps>, es: seq<Value>, used: nat, b: Str)
    ensures Continue([], 0, d) == d
    ensures Continue(es, used, DecodeElems(0, b)) == Some(Steps(es, used))
  {
    if d.Some? {
      assert [] + d.value.elems == d.value.elems;
    }
    assert es + [] == es;
  }

  lemma {:induction false} ContinueStep(es: seq<Value>, used: nat, left: nat, b: Str)
    requires left > 0
    ensures DecodeValue(b) == None ==> Continue(es, used, DecodeElems(left, b)) == None
    ensures DecodeValue(b).Some? ==>
              var e := DecodeValue(b).value;
              Continue(es, used, DecodeElems(left, b))
                == Continue(es + [e], used + Size(e), DecodeElems(left - 1, b[Size(e)..]))
  {
    hide DecodeValue, Size;
    match DecodeValue(b)
    case None =>
    case Some(e) =>
      match DecodeElems(left - 1, b[Size(e)..]) {
        case None =>
        case Some(x) => assert es + ([e] + x.elems) == es + [e] + x.elems;
      }
  }

  lemma {:induction false} NoEntriesYet(h: Heap, s: set<Id>, r: set<Id>)
    ensures UnfoldEntries(h, s, []) == map[] && GoodEntries([], r)
  {
  }

  // A container built from entries that were all read just now.
  lemma {:induction false} Allocated(h0: Heap, h: Heap, h': Heap, id: Id, es: seq<Entry>)
    requires Grown(h0, h) && id !in h && h' == h[id := es] && GoodEntries(es, h.Keys - h0.Keys)
    ensures Grown(h0, h')
    ensures UnfoldData(h', {}, ORef(To(id))) == Box(UnfoldEntries(h, {}, es))
    ensures AllDistinct(h) && CleanHeap(h) && ClosedUnder(h, h.Keys) ==>
              AllDistinct(h') && CleanHeap(h') && ClosedUnder(h', h'.Keys)
  {
    var r := h.Keys - h0.Keys;
    UnfoldEntriesLocal(h, {}, h', {id}, es, r);
    assert {} + {id} == {id};
    forall x | x in h'.Keys - h0.Keys ensures EntriesIn(h'[x], h'.Keys - h0.Keys) {
      EntriesGrow(h'[x], r, h'.Keys - h0.Keys);
    }
    if ClosedUnder(h, h.Keys) {
      forall x | x in h'.Keys ensures EntriesIn(h'[x], h'.Keys) {
        EntriesGrow(h'[x], if x == id then r else h.Keys, h'.Keys);
      }
    }
  }

  lemma {:induction false} EntriesKept(h0: Heap, h: Heap, h': Heap, es: seq<Entry>)
    requires Grown(h0, h) && Grown(h, h') && GoodEntries(es, h.Keys - h0.Keys)
    ensures GoodEntries(es, h'.Keys - h0.Keys)
    ensures UnfoldEntries(h', {}, es) == UnfoldEntries(h, {}, es)
  {
    UnfoldEntriesLocal(h, {}, h', {}, es, h.Keys - h0.Keys);
    EntriesGrow(es, h.Keys - h0.Keys, h'.Keys - h0.Keys);
  }

  // Storing a value that was read just now under its key.
  lemma {:induction false} EntryStored(h0: Heap, h: Heap, h': Heap, es: seq<Entry>, es': seq<Entry>, key: Str, o: Obj)
    requires Grown(h0, h) && Grown(h, h') && GoodEntries(es, h.Keys - h0.Keys)
    requires RefsIn(o.data, h'.Keys - h.Keys) && DistinctKeys(es')
    requires EntryMap(es') == EntryMap(es)[key := Obj(if key in EntryMap(es) then EntryMap(es)[key].name else [], o.data)]
    ensures GoodEntries(es', h'.Keys - h0.Keys)
    ensures UnfoldEntries(h', {}, es') == UnfoldEntries(h, {}, es)[key := Value([], UnfoldData(h', {}, o.data))]
  {
    hide EntryMap, UnfoldEntries, UnfoldData, ClosedUnder, RefsIn;
    var r := h'.Keys - h0.Keys;
    EntriesKept(h0, h, h', es);
    RefsGrow(o.data, h'.Keys - h.Keys, r);
    StoredGood(es, es', key, o, r);
    StoredMeaning(h', es, es', key, o);
  }

  lemma {:induction false} StoredGood(es: seq<Entry>, es': seq<Entry>, key: Str, o: Obj, r: set<Id>)
    requires GoodEntries(es, r) && DistinctKeys(es') && RefsIn(o.data, r)
    requires EntryMap(es') == EntryMap(es)[key := Obj(if key in EntryMap(es) then EntryMap(es)[key].name else [], o.data)]
    ensures GoodEntries(es', r) && (key in EntryMap(es) ==> EntryMap(es)[key].name == [])
  {
    hide EntryMap, RefsIn;
    EntryMapOf(es);
    EntryMapOf(es');
    forall k | k in EntryMap(es) ensures EntryMap(es)[k].name == [] && RefsIn(EntryMap(es)[k].data, r) {
      var j :| 0 <= j < |es| && es[j].key == k;
      assert EntryMap(es)[k] == es[j].val;
    }
    forall i | 0 <= i < |es'| ensures RefsIn(es'[i].val.data, r) && es'[i].val.name == [] {
      assert es'[i].val == EntryMap(es')[es'[i].key];
    }
  }

  lemma {:induction false} StoredMeaning(h: Heap, es: seq<Entry>, es': seq<Entry>, key: Str, o: Obj)
    requires EntryMap(es') == EntryMap(es)[key := Obj([], o.data)]
    ensures UnfoldEntries(h, {}, es') == UnfoldEntries(h, {}, es)[key := Value([], UnfoldData(h, {}, o.data))]
  {
    hide EntryMap, UnfoldEntries, UnfoldData;
    UnfoldOfMap(h, {}, es);
    UnfoldOfMap(h, {}, es');
  }

  lemma {:induction false} NoneLeft()
    ensures forall lenient, i, b, acc :: DecodeEntries(lenient, i, 0, b, acc) == Ok(acc)
  {
  }

  // One entry at offset: its four ways to fail, and the windows it is read
  // from when it does not.
  lemma {:induction false} EntryAt(lenient: bool, i: nat, left: nat, data: Str, offset: nat, acc: map<Str, Value>)
    requires left > 0 && offset <= |data|
    ensures var spec := DecodeEntries(lenient, i, left, data[offset..], acc);
            if offset + 4 > |data| then spec == Err(TruncatedEntry(i))
            else
              var n := Len(data[offset..]);
              if offset + 8 + n > |data| then spec == Err(TruncatedKey)
              else
                var key := data[offset + 4..offset + 4 + n];
                var m := Len(data[offset + 4 + n..]);
                if offset + 8 + n + m > |data| then spec == Err(TruncatedValue)
                else
                  var v := DecodeValue(data[offset + 8 + n..offset + 8 + n + m]);
                  var rest := data[offset + 8 + n + m..];
                  if v == None && !lenient then spec == Err(BadValue(key))
                  else spec == DecodeEntries(lenient, i + 1, left - 1, rest,
                                             if v == None then acc else acc[key := Value([], v.value.data)])
  {
    hide DecodeValue, Len, BoxSize;
    var b := data[offset..];
    if offset + 4 <= |data| {
      var n := Len(b);
      if offset + 8 + n <= |data| {
        assert b[4..4 + n] == data[offset + 4..offset + 4 + n];
        assert b[4 + n..] == data[offset + 4 + n..];
        var m := Len(b[4 + n..]);
        if offset + 8 + n + m <= |data| {
          assert b[8 + n..8 + n + m] == data[offset + 8 + n..offset + 8 + n + m];
          assert b[8 + n + m..] == data[offset + 8 + n + m..];
        }
      }
    }
  }

  class Runtime {
    var heap: Heap
    var inflight: set<Id>
    var next: Id

    // Entry keys are distinct, no entry has an inner name, pointers lead to
    // live containers, and only live containers are in flight.
    ghost predicate Valid()
      reads this
    {
      AllDistinct(heap) && CleanHeap(heap) && ClosedUnder(heap, heap.Keys) && inflight <= heap.Keys &&
      forall id :: id in heap ==> id < next
    }

    constructor ()
      ensures Valid() && heap == map[] && inflight == {}
    {
      heap, inflight, next := map[], {}, 0;
    }

    // ---- Container operations ----

    // Everything about the heap but container id is as it was.
    twostate predicate OnlyChanges(id: Id)
      reads this
    {
      Valid() && inflight == old(inflight) && next == old(next) && heap.Keys == old(heap.Keys) &&
      forall x :: x in old(heap) && x != id ==> heap[x] == old(heap[x])
    }

    // Container id now holds es; the rest of the heap is as it was.
    method Replace(id: Id, es: seq<Entry>)
      requires Valid() && id in heap && GoodEntries(es, heap.Keys)
      modifies this`heap
      ensures OnlyChanges(id) && heap[id] == es
    {
      heap := heap[id := es];
      assert heap.Keys == old(heap.Keys);
    }

    // set: the value's name is not stored; the key decides.
    method Set(id: Id, key: Str, v: Obj)
      requires Valid() && id in heap && RefsIn(v.data, heap.Keys)
      modifies this`heap
      ensures OnlyChanges(id)
      ensures EntryMap(heap[id]) == old(EntryMap(heap[id]))[key := Obj([], v.data)]
    {
      var es := Assign(heap[id], key, v.data);
      StoredGood(heap[id], es, key, v, heap.Keys);
      Replace(id, es);
    }

    // set_variant: stores a copy under the value's own name.
    method SetVariant(id: Id, v: Obj)
      requires Valid() && id in heap && RefsIn(v.data, heap.Keys)
      modifies this`heap
      ensures OnlyChanges(id)
      ensures EntryMap(heap[id]) == old(EntryMap(heap[id]))[v.name := Obj([], CopyData(v.data))]
    {
      CopyExact(v.data, heap.Keys);
      Set(id, v.name, Obj(v.name, CopyData(v.data)));
    }

    // set_container: cycles arise here.
    method SetContainer(id: Id, key: Str, p: Pointer)
      requires Valid() && id in heap && (p == Nil || p.id in heap)
      modifies this`heap
      ensures OnlyChanges(id)
      ensures EntryMap(heap[id]) == old(EntryMap(heap[id]))[key := Obj([], ORef(p))]
    {
      Set(id, key, Obj(key, ORef(p)));
    }

    // compare_exchange: compares name and data with what is stored.
    method CompareExchange(id: Id, key: Str, expected: Obj, desired: Obj) returns (done: bool)
      requires Valid() && id in heap && RefsIn(desired.data, heap.Keys)
      modifies this`heap
      ensures OnlyChanges(id)
      ensures var m := old(EntryMap(heap[id]));
              (done <==> key in m && m[key] == expected) && (done ==> expected.name == []) &&
              EntryMap(heap[id]) == if done then m[key := Obj([], CopyData(desired.data))] else m
    {
      EntryMapOf(heap[id]);
      var i := 0;
      while i < |heap[id]| && heap[id][i].key != key
        invariant i <= |heap[id]| && heap == old(heap)
        invariant forall j :: 0 <= j < i ==> heap[id][j].key != key
      {
        i := i + 1;
      }
      done := i < |heap[id]| && heap[id][i].val == expected;
      if done {
        CopyExact(desired.data, heap.Keys);
        Set(id, key, Obj([], CopyData(desired.data)));
      }
    }

    method Remove(id: Id, key: Str) returns (found: bool)
      requires Valid() && id in heap
      modifies this`heap
      ensures OnlyChanges(id)
      ensures found <==> key in old(EntryMap(heap[id]))
      ensures EntryMap(heap[id]) == old(EntryMap(heap[id])) - {key}
    {
      hide EntryMap, RefsIn, GoodEntries, DistinctKeys;
      var es := heap[id];
      HeapEntries(heap, id);
      var i := 0;
      while i < |es| && es[i].key != key
        invariant i <= |es|
        invariant forall j :: 0 <= j < i ==> es[j].key != key
      {
        i := i + 1;
      }
      found := i < |es|;
      if found {
        RemoveGood(es, i, heap.Keys);
        Replace(id, es[..i] + es[i + 1..]);
      } else {
        NoSuchKey(es, key);
      }
    }

    // ---- Encoding ----

    // Writes o; the containers in flight are the same on return as on entry.
    method SerializeValue(o: Obj) returns (out: Str)
      modifies this`inflight
      ensures inflight == old(inflight)
      ensures out == ObjBytes(heap, old(inflight), o)
      decreases heap.Keys - inflight, o, 1
    {
      out := Le(|o.name|, 4) + o.name + [ObjTag(o.data)];
      var data := SerializeData(o.data);
      out := out + data;
    }

    method SerializeData(d: ObjData) returns (out: Str)
      modifies this`inflight
      ensures inflight == old(inflight)
      ensures out == DataBytes(heap, old(inflight), d)
      decreases heap.Keys - inflight, d, 0
    {
      match d
      case ONull => out := [];
      case OBool(b) => out := [if b then 1 else 0];
      case ONum(k, bits) => out := Le(bits, Width(k));
      case OText(t) => out := Le(|t|, 4) + t;
      case OBlob(t) => out := Le(|t|, 4) + t;
      case ORef(p) =>
        if p == Nil || p.id in inflight || p.id !in heap {
          out := Le(0, 4);
        } else {
          ghost var s := inflight;
          inflight := inflight + {p.id};
          var body := SerializeContainer(p.id);
          inflight := inflight - {p.id};
          out := Le(|body|, 4) + body;
        }
      case OList(es) =>
        out := Le(|es|, 4);
        var i := 0;
        while i < |es|
          invariant i <= |es| && inflight == old(inflight)
          invariant out + ElemsBytes(heap, inflight, es[i..]) == DataBytes(heap, inflight, d)
        {
          var elem: Str;
          match es[i] {
            case NoElem => elem := Le(0, 4) + [0];
            case Elem(o) =>
              assert (es decreases to es[i]);
              elem := SerializeValue(o);
          }
          assert es[i..][0] == es[i] && es[i..][1..] == es[i + 1..];
          assert out + (elem + ElemsBytes(heap, inflight, es[i + 1..])) == out + elem + ElemsBytes(heap, inflight, es[i + 1..]);
          out, i := out + elem, i + 1;
        }
        assert out + [] == out;
    }

    // A container's own encoding. It does not mark the container itself.
    method SerializeContainer(id: Id) returns (out: Str)
      requires id in heap
      modifies this`inflight
      ensures inflight == old(inflight)
      ensures out == NodeBytes(heap, old(inflight), heap[id])
      decreases heap.Keys - inflight, heap[id], 2
    {
      out := SerializeEntries(heap[id]);
    }

    // The entry count and the entries, as containers and stores both write them.
    method SerializeEntries(es: seq<Entry>) returns (out: Str)
      modifies this`inflight
      ensures inflight == old(inflight)
      ensures out == NodeBytes(heap, old(inflight), es)
      decreases heap.Keys - inflight, es, 1
    {
      out := Le(|es|, 4);
      var i := 0;
      while i < |es|
        invariant i <= |es| && inflight == old(inflight)
        invariant out + EntriesBytes(heap, inflight, es[i..]) == NodeBytes(heap, inflight, es)
      {
        var val := SerializeValue(es[i].val);
        var entry := Le(|es[i].key|, 4) + es[i].key + Le(|val|, 4) + val;
        assert es[i..][0] == es[i] && es[i..][1..] == es[i + 1..];
        assert out + (entry + EntriesBytes(heap, inflight, es[i + 1..]))
            == out + entry + EntriesBytes(heap, inflight, es[i + 1..]);
        out, i := out + entry, i + 1;
      }
      assert out + [] == out;
    }

    // ---- Decoding ----

    // Reads a value; the containers it creates are new, and what was alive
    // before is untouched.
    method DeserializeValue(data: Str) returns (r: Option<Obj>)
      requires Valid()
      modifies this
      ensures Valid() && inflight == old(inflight) && Grown(old(heap), heap)
      ensures r.Some? <==> DecodeValue(data).Some?
      ensures r.Some? ==> RefsIn(r.value.data, heap.Keys - old(heap.Keys)) &&
                          Unfold(heap, {}, r.value) == DecodeValue(data).value
      decreases |data|, 0
    {
      if |data| < 5 {
        return None;
      }
      var n := Len(data);
      if 4 + n + 1 > |data| {
        return None;
      }
      var name := data[4..4 + n];
      var t := data[4 + n];
      if t > 15 {
        return None;
      }
      var d, _ := DeserializeData(t, data, 5 + n);
      match d
      case None => r := None;
      case Some(x) => r := Some(Obj(name, x));
    }

    // Reads data of type t at offset; returns it and the offset behind it.
    method DeserializeData(t: byte, data: Str, offset: nat) returns (r: Option<ObjData>, end: nat)
      requires Valid() && t <= 15 && offset <= |data|
      modifies this
      ensures Valid() && inflight == old(inflight) && Grown(old(heap), heap)
      ensures offset <= end
      ensures r.Some? <==> DecodeData(t, data[offset..]).Some?
      ensures r.Some? ==> RefsIn(r.value, heap.Keys - old(heap.Keys)) &&
                          DecodeData(t, data[offset..]) == Some(Step(UnfoldData(heap, {}, r.value), end - offset))
      decreases |data| - offset, 2
    {
      hide DecodeElems, DecodeBox, Le, Len, ClosedUnder, AllDistinct, CleanHeap, UnfoldElems, UnfoldEntries, DataSize;
      r, end := None, offset;
      GrownSelf(heap);
      if t == 0 {
        r := Some(ONull);
      } else if t == 1 {
        if offset < |data| {
          r, end := Some(OBool(data[offset] != 0)), offset + 1;
        }
      } else if t <= 11 {
        var k := KindOf(t);
        if offset + Width(k) <= |data| {
          assert data[offset..][..Width(k)] == data[offset..offset + Width(k)];
          r, end := Some(ONum(Slot(k), FromLe(data[offset..offset + Width(k)]))), offset + Width(k);
        }
      } else if offset + 4 <= |data| {
        var n := Len(data[offset..]);
        if t == 15 {
          r, end := DeserializeArray(n, data, offset + 4);
          assert data[offset..][4..] == data[offset + 4..];
        } else if t == 14 && n == 0 {
          r, end := Some(ORef(Nil)), offset + 4;
        } else if offset + 4 + n <= |data| {
          var body := data[offset + 4..offset + 4 + n];
          assert data[offset..][4..4 + n] == body;
          end := offset + 4 + n;
          if t == 12 {
            r := Some(OText(body));
          } else if t == 13 {
            r := Some(OBlob(body));
          } else {
            var p := DeserializeContainer(body);
            r := Some(ORef(p));
          }
        }
      }
    }

    // Reads count values. How far to move past each is found by writing it
    // again, in whatever order its containers now enumerate their entries.
    method DeserializeArray(count: nat, data: Str, offset: nat) returns (r: Option<ObjData>, end: nat)
      requires Valid() && offset <= |data|
      modifies this
      ensures Valid() && inflight == old(inflight) && Grown(old(heap), heap)
      ensures offset <= end
      ensures r.Some? <==> DecodeElems(count, data[offset..]).Some?
      ensures r.Some? ==> RefsIn(r.value, heap.Keys - old(heap.Keys)) && r.value.OList? &&
                          DecodeElems(count, data[offset..])
                            == Some(Steps(UnfoldElems(heap, {}, r.value.elems), end - offset))
      decreases |data| - offset, 1
    {
      hide DecodeValue, DecodeElems, Unfold, UnfoldData, UnfoldElems, ElemsIn, Continue, Size, ObjBytes, ClosedUnder, AllDistinct, CleanHeap;
      var elems: seq<Elem> := [];
      var i := 0;
      end := offset;
      GrownSelf(heap);
      NoElems(heap, {}, heap.Keys - old(heap.Keys));
      ghost var whole := DecodeElems(count, data[offset..]);
      ContinueEnds(whole, [], 0, []);
      while i < count
        invariant i <= count && offset <= end <= |data|
        invariant Valid() && inflight == old(inflight) && Grown(old(heap), heap)
        invariant ElemsIn(elems, heap.Keys - old(heap.Keys))
        invariant whole == Continue(UnfoldElems(heap, {}, elems), end - offset,
                                    DecodeElems(count - i, data[end..]))
      {
        ghost var before := heap;
        var rest := data[end..];
        var elem := DeserializeValue(rest);
        GrownTrans(old(heap), before, heap);
        ContinueStep(UnfoldElems(before, {}, elems), end - offset, count - i, rest);
        if elem == None {
          return None, end;
        }
        var bytes := SerializeValue(elem.value);
        ElemExtent(heap, inflight, elem.value, heap.Keys - before.Keys, bytes);
        assert (heap.Keys - old(heap.Keys)) - (before.Keys - old(heap.Keys)) == heap.Keys - before.Keys;
        ElemsKept(before, heap, elems, elem.value, before.Keys - old(heap.Keys), heap.Keys - old(heap.Keys));
        assert data[end..][|bytes|..] == data[end + |bytes|..];
        elems, end, i := elems + [Elem(elem.value)], end + |bytes|, i + 1;
      }
      ContinueEnds(whole, UnfoldElems(heap, {}, elems), end - offset, data[end..]);
      r := Some(OList(elems));
    }

    // Reads a container's own encoding into a new container, or gives null.
    method DeserializeContainer(data: Str) returns (p: Pointer)
      requires Valid()
      modifies this
      ensures Valid() && inflight == old(inflight) && Grown(old(heap), heap)
      ensures p == Nil <==> DecodeBox(data) == None
      ensures RefsIn(ORef(p), heap.Keys - old(heap.Keys))
      ensures UnfoldData(heap, {}, ORef(p)) == if p == Nil then NullBox else Box(DecodeBox(data).value)
      decreases |data|, 3
    {
      if |data| < 4 {
        GrownSelf(heap);
        return Nil;
      }
      var r := DeserializeEntries(true, Len(data), data, 4);
      match r
      case Err(_) => p := Nil;
      case Ok(es) =>
        ghost var before := heap;
        p := To(next);
        heap := heap[next := es];
        Allocated(old(heap), before, heap, next, es);
        next := next + 1;
    }

    // Reads count entries. A container skips values it cannot read; a store
    // stops at the first.
    method DeserializeEntries(lenient: bool, count: nat, data: Str, start: nat)
      returns (r: Result<seq<Entry>, EntryError>)
      requires Valid() && start <= |data|
      modifies this
      ensures Valid() && inflight == old(inflight) && Grown(old(heap), heap)
      ensures var spec := DecodeEntries(lenient, 0, count, data[start..], map[]);
              match r
              case Err(e) => spec == Err(e)
              case Ok(es) => spec == Ok(UnfoldEntries(heap, {}, es))
      ensures r.Ok? ==> GoodEntries(r.value, heap.Keys - old(heap.Keys))
      decreases |data| - start, 2
    {
      hide DecodeValue, DecodeEntries, UnfoldData, UnfoldEntries, ClosedUnder, AllDistinct, CleanHeap, EntryMap, Len, Size;
      var es: seq<Entry> := [];
      var i, offset := 0, start;
      GrownSelf(heap);
      NoEntriesYet(heap, {}, heap.Keys - old(heap.Keys));
      ghost var whole := DecodeEntries(lenient, 0, count, data[start..], map[]);
      NoneLeft();
      while i < count
        invariant i <= count && start <= offset <= |data|
        invariant Valid() && inflight == old(inflight) && Grown(old(heap), heap)
        invariant GoodEntries(es, heap.Keys - old(heap.Keys))
        invariant whole == DecodeEntries(lenient, i, count - i, data[offset..], UnfoldEntries(heap, {}, es))
      {
        EntryAt(lenient, i, count - i, data, offset, UnfoldEntries(heap, {}, es));
        if offset + 4 > |data| {
          return Err(TruncatedEntry(i));
        }
        var n := Len(data[offset..]);
        if offset + 4 + n + 4 > |data| {
          return Err(TruncatedKey);
        }
        var key := data[offset + 4..offset + 4 + n];
        var m := Len(data[offset + 4 + n..]);
        if offset + 8 + n + m > |data| {
          return Err(TruncatedValue);
        }
        var bytes := data[offset + 8 + n..offset + 8 + n + m];
        ghost var before, done := heap, es;
        var val := DeserializeValue(bytes);
        GrownTrans(old(heap), before, heap);
        match val {
          case Some(o) =>
            es := Assign(es, key, o.data);
            EntryStored(old(heap), before, heap, done, es, key, o);
          case None =>
            if !lenient {
              return Err(BadValue(key));
            }
            EntriesKept(old(heap), before, heap, es);
        }
        i, offset := i + 1, offset + 8 + n + m;
      }
      r := Ok(es);
    }
  }
}
