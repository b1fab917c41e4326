// Facts about object graphs that the runtime needs: what a copy keeps, which
// part of the heap an unfolding reads, and why entry names stay empty.
module GraphFacts {
  import opened LittleEndian
  import opened WireValues
  import opened ObjectGraph

  // ---- Pointers stay inside r ----

  predicate RefsIn(d: ObjData, r: set<Id>)
    decreases d, 0
  {
    match d
    case ORef(p) => p == Nil || p.id in r
    case OList(es) => ElemsIn(es, r)
    case _ => true
  }

  predicate ElemsIn(es: seq<Elem>, r: set<Id>)
    decreases es, 1
  {
    es == [] || (ElemIn(es[0], r) && ElemsIn(es[1..], r))
  }

  predicate ElemIn(e: Elem, r: set<Id>)
    decreases e, 1
  {
    match e
    case NoElem => true
    case Elem(o) => RefsIn(o.data, r)
  }

  predicate EntriesIn(es: seq<Entry>, r: set<Id>) {
    forall i :: 0 <= i < |es| ==> RefsIn(es[i].val.data, r)
  }

  // r holds live containers only, and no pointer leads out of it.
  ghost predicate ClosedUnder(h: Heap, r: set<Id>) {
    r <= h.Keys && forall id :: id in r ==> EntriesIn(h[id], r)
  }

  ghost predicate CleanHeap(h: Heap) {
    forall id :: id in h ==> forall i :: 0 <= i < |h[id]| ==> h[id][i].val.name == []
  }

  // Every container h has is in h', unchanged.
  ghost predicate Extends(h: Heap, h': Heap) {
    forall id :: id in h ==> id in h' && h'[id] == h[id]
  }

  lemma {:induction false} RefsGrow(d: ObjData, r: set<Id>, r': set<Id>)
    requires RefsIn(d, r) && r <= r'
    ensures RefsIn(d, r')
    decreases d, 0
  {
    match d
    case OList(es) => ElemsGrow(es, r, r');
    case _ =>
  }

  lemma {:induction false} ElemsGrow(es: seq<Elem>, r: set<Id>, r': set<Id>)
    requires ElemsIn(es, r) && r <= r'
    ensures ElemsIn(es, r')
    decreases es, 1
  {
    if es != [] {
      match es[0] {
        case NoElem =>
        case Elem(o) =>
          assert (es decreases to es[0]);
          RefsGrow(o.data, r, r');
      }
      ElemsGrow(es[1..], r, r');
    }
  }

  lemma {:induction false} EntriesGrow(es: seq<Entry>, r: set<Id>, r': set<Id>)
    requires EntriesIn(es, r) && r <= r'
    ensures EntriesIn(es, r')
  {
    forall i | 0 <= i < |es| ensures RefsIn(es[i].val.data, r') {
      RefsGrow(es[i].val.data, r, r');
    }
  }

  // ---- An unfolding reads only the containers it can reach ----

  // Two heaps that agree on r, with the same part of r in flight.
  ghost predicate Agree(h: Heap, s: set<Id>, h': Heap, s': set<Id>, r: set<Id>) {
    ClosedUnder(h, r) && r <= h'.Keys && r * s == r * s' && forall id :: id in r ==> h'[id] == h[id]
  }

  lemma {:induction false} UnfoldLocal(h: Heap, s: set<Id>, h': Heap, s': set<Id>, d: ObjData, r: set<Id>)
    requires Agree(h, s, h', s', r) && RefsIn(d, r)
    ensures UnfoldData(h, s, d) == UnfoldData(h', s', d)
    decreases h.Keys - s, d, 0
  {
    match d
    case ORef(p) =>
      assert p != Nil ==> (p.id in r * s <==> p.id in s) && (p.id in r * s' <==> p.id in s');
      if !Cut(h, s, p) {
        assert r * (s + {p.id}) == r * s + {p.id} == r * (s' + {p.id});
        UnfoldEntriesLocal(h, s + {p.id}, h', s' + {p.id}, h[p.id], r);
      }
    case OList(es) => UnfoldElemsLocal(h, s, h', s', es, r);
    case _ =>
  }

  lemma {:induction false} UnfoldElemsLocal(h: Heap, s: set<Id>, h': Heap, s': set<Id>, es: seq<Elem>, r: set<Id>)
    requires Agree(h, s, h', s', r) && ElemsIn(es, r)
    ensures UnfoldElems(h, s, es) == UnfoldElems(h', s', es)
    decreases h.Keys - s, es, 1
  {
    if es != [] {
      match es[0] {
        case NoElem =>
        case Elem(o) =>
          assert (es decreases to es[0]);
          UnfoldLocal(h, s, h', s', o.data, r);
          assert UnfoldElem(h, s, es[0]) == Value(o.name, UnfoldData(h, s, o.data));
          assert UnfoldElem(h', s', es[0]) == Value(o.name, UnfoldData(h', s', o.data));
      }
      UnfoldElemsLocal(h, s, h', s', es[1..], r);
    }
  }

  lemma {:induction false} UnfoldEntriesLocal(h: Heap, s: set<Id>, h': Heap, s': set<Id>, es: seq<Entry>, r: set<Id>)
    requires Agree(h, s, h', s', r) && EntriesIn(es, r)
    ensures UnfoldEntries(h, s, es) == UnfoldEntries(h', s', es)
    decreases h.Keys - s, es, 1
  {
    if es != [] {
      UnfoldLocal(h, s, h', s', es[0].val.data, r);
      UnfoldEntriesLocal(h, s, h', s', es[1..], r);
    }
  }

  // ---- Empty inner names ----

  // If no entry in memory has an inner name, no unfolding shows one.
  lemma {:induction false} CleanUnfold(h: Heap, s: set<Id>, d: ObjData)
    requires CleanHeap(h)
    ensures CleanData(UnfoldData(h, s, d))
    decreases h.Keys - s, d, 0
  {
    match d
    case ORef(p) =>
      if !Cut(h, s, p) {
        CleanUnfoldEntries(h, s + {p.id}, h[p.id]);
      }
    case OList(es) => CleanUnfoldElems(h, s, es);
    case _ =>
  }

  lemma {:induction false} CleanUnfoldElems(h: Heap, s: set<Id>, es: seq<Elem>)
    requires CleanHeap(h)
    ensures CleanElems(UnfoldElems(h, s, es))
    decreases h.Keys - s, es, 1
  {
    if es != [] {
      match es[0] {
        case NoElem =>
        case Elem(o) =>
          assert (es decreases to es[0]);
          CleanUnfold(h, s, o.data);
          assert UnfoldElem(h, s, es[0]) == Value(o.name, UnfoldData(h, s, o.data));
      }
      CleanUnfoldElems(h, s, es[1..]);
      assert UnfoldElems(h, s, es)[1..] == UnfoldElems(h, s, es[1..]);
    }
  }

  lemma {:induction false} CleanUnfoldEntries(h: Heap, s: set<Id>, es: seq<Entry>)
    requires CleanHeap(h) && forall i :: 0 <= i < |es| ==> es[i].val.name == []
    ensures CleanData(Box(UnfoldEntries(h, s, es)))
    decreases h.Keys - s, es, 1
  {
    if es != [] {
      CleanUnfold(h, s, es[0].val.data);
      CleanUnfoldEntries(h, s, es[1..]);
    }
  }

  // ---- A container's entries as a map from keys to stored values ----

  function EntryMap(es: seq<Entry>): map<Str, Obj> {
    if es == [] then map[] else EntryMap(es[1..])[es[0].key := es[0].val]
  }

  lemma {:induction false} EntryMapOf(es: seq<Entry>)
    requires DistinctKeys(es)
    ensures forall i :: 0 <= i < |es| ==> es[i].key in EntryMap(es) && EntryMap(es)[es[i].key] == es[i].val
    ensures forall k :: k in EntryMap(es) ==> exists i :: 0 <= i < |es| && es[i].key == k
  {
    if es != [] {
      var t := es[1..];
      assert forall i :: 0 <= i < |t| ==> t[i] == es[i + 1];
      EntryMapOf(t);
      forall i | 0 <= i < |es| ensures es[i].key in EntryMap(es) && EntryMap(es)[es[i].key] == es[i].val {
        if i > 0 {
          assert t[i - 1] == es[i];
        }
      }
      forall k | k in EntryMap(es) ensures exists i :: 0 <= i < |es| && es[i].key == k {
        if k in EntryMap(t) {
          var i :| 0 <= i < |t| && t[i].key == k;
          assert es[i + 1].key == k;
        } else {
          assert es[0].key == k;
        }
      }
    }
  }

  // The unfolding depends on the entries only through that map.
  lemma {:induction false} UnfoldOfMap(h: Heap, s: set<Id>, es: seq<Entry>)
    ensures UnfoldEntries(h, s, es) == map k | k in EntryMap(es) :: Unfold(h, s, EntryMap(es)[k])
  {
    if es != [] {
      UnfoldOfMap(h, s, es[1..]);
    }
  }

  // ---- Copies ----

  // Copying an array drops its null elements and copies the others.
  function CopyData(d: ObjData): ObjData
    decreases d, 0
  {
    match d
    case OList(es) => OList(CopyElems(es))
    case _ => d
  }

  function CopyElems(es: seq<Elem>): seq<Elem>
    decreases es, 1
  {
    if es == [] then []
    else CopyElem(es[0]) + CopyElems(es[1..])
  }

  function CopyElem(e: Elem): seq<Elem>
    decreases e, 1
  {
    match e
    case NoElem => []
    case Elem(o) => [Elem(Obj(o.name, CopyData(o.data)))]
  }

  // No null element at any depth of the arrays.
  predicate NoNulls(d: ObjData)
    decreases d, 0
  {
    match d
    case OList(es) => NoNullElems(es)
    case _ => true
  }

  predicate NoNullElems(es: seq<Elem>)
    decreases es, 1
  {
    es == [] || (NoNullElem(es[0]) && NoNullElems(es[1..]))
  }

  predicate NoNullElem(e: Elem)
    decreases e, 1
  {
    match e
    case NoElem => false
    case Elem(o) => NoNulls(o.data)
  }

  // A copy is equal to the original iff no array in it has a null element.
  lemma {:induction false} CopyExact(d: ObjData, r: set<Id>)
    ensures CopyData(d) == d <==> NoNulls(d)
    ensures NoNulls(CopyData(d))
    ensures RefsIn(d, r) ==> RefsIn(CopyData(d), r)
    decreases d, 0
  {
    match d
    case OList(es) => CopyElemsExact(es, r);
    case _ =>
  }

  lemma {:induction false} CopyElemsExact(es: seq<Elem>, r: set<Id>)
    ensures |CopyElems(es)| <= |es|
    ensures CopyElems(es) == es <==> NoNullElems(es)
    ensures NoNullElems(CopyElems(es))
    ensures ElemsIn(es, r) ==> ElemsIn(CopyElems(es), r)
    decreases es, 1
  {
    if es != [] {
      var t := CopyElems(es[1..]);
      CopyElemsExact(es[1..], r);
      match es[0] {
        case NoElem =>
          assert [] + t == t;
        case Elem(o) =>
          assert (es decreases to es[0]);
          CopyExact(o.data, r);
          var c := [Elem(Obj(o.name, CopyData(o.data)))] + t;
          assert CopyElems(es) == c && c[1..] == t && c[0] == Elem(Obj(o.name, CopyData(o.data)));
          assert ElemIn(es[0], r) ==> ElemIn(c[0], r);
          assert NoNullElem(c[0]);
          assert es == [es[0]] + es[1..];
          assert c == es <==> c[0] == es[0] && c[1..] == es[1..];
      }
    }
  }
}
