// The value store and its versioned binary form.
module ValueStores {
  import opened Outcomes
  import opened LittleEndian
  import opened WireValues
  import opened Decoder
  import opened ObjectGraph
  import opened RoundTrip
  import opened Truncation
  import opened GraphFacts
  import opened ContainerRuntime

  datatype StoreError = TooSmall | BadVersion(v: byte) | BadEntry(e: EntryError)

  const VERSION: byte := 1

  ghost function DecodeStore(b: Str): Result<map<Str, Value>, StoreError> {
    if |b| < 5 then Err(TooSmall)
    else if b[0] != VERSION then Err(BadVersion(b[0]))
    else
      match DecodeEntries(false, 0, Len(b[1..]), b[5..], map[])
      case Ok(m) => Ok(m)
      case Err(e) => Err(BadEntry(e))
  }

  // A store written and read back holds the same map, whatever follows it.
  lemma {:induction false} StoreRoundTrip(h: Heap, s: set<Id>, es: seq<Entry>, r: Str)
    requires AllDistinct(h) && DistinctKeys(es) && |es| < U32 && EntriesFit(UnfoldEntries(h, s, es))
    ensures DecodeStore([VERSION] + NodeBytes(h, s, es) + r) == Ok(NormMap(UnfoldEntries(h, s, es)))
  {
    hide DecodeEntries, UnfoldEntries, EntriesFit, NormData;
    StoreCount(es, EntriesBytes(h, s, es), r);
    EntriesRoundTrip(h, s, es, false, 0, map[], r);
    assert map[] + NormMap(UnfoldEntries(h, s, es)) == NormMap(UnfoldEntries(h, s, es));
  }

  lemma {:induction false} StoreCount(es: seq<Entry>, body: Str, r: Str)
    requires |es| < U32
    ensures var b := [VERSION] + (Le(|es|, 4) + body) + r;
            |b| >= 5 && b[0] == VERSION && Len(b[1..]) == |es| && b[5..] == body + r
  {
    hide Le, Len;
    var b := [VERSION] + (Le(|es|, 4) + body) + r;
    CountStep(|es|, body, r);
    assert b[1..] == Le(|es|, 4) + body + r;
    assert b[5..] == b[1..][4..];
  }

  // No strict prefix of a store's encoding is accepted.
  lemma {:induction false} StoreTruncated(h: Heap, s: set<Id>, es: seq<Entry>, n: nat)
    requires AllDistinct(h) && DistinctKeys(es) && |es| < U32 && EntriesFit(UnfoldEntries(h, s, es))
    requires n < 1 + |NodeBytes(h, s, es)|
    ensures DecodeStore(([VERSION] + NodeBytes(h, s, es))[..n]).Err?
  {
    hide DecodeEntries, UnfoldEntries, EntriesFit, NormData;
    var body := EntriesBytes(h, s, es);
    if n >= 5 {
      StoreCount(es, body[..n - 5], []);
      assert ([VERSION] + NodeBytes(h, s, es))[..n] == [VERSION] + (Le(|es|, 4) + body[..n - 5]) + [];
      assert body[..n - 5] + [] == body[..n - 5];
        EntriesTruncated(h, s, es, false, 0, map[], n - 5);
    }
  }

  class ValueStore {
    const rt: Runtime
    var entries: seq<Entry>

    ghost predicate Valid()
      reads this, rt
    {
      rt.Valid() && GoodEntries(entries, rt.heap.Keys)
    }

    constructor (rt: Runtime)
      requires rt.Valid()
      ensures this.rt == rt && Valid() && entries == []
    {
      this.rt := rt;
      entries := [];
    }

    // add: stores the value's data; an inner name is never stored.
    method Add(key: Str, v: Obj)
      requires Valid() && RefsIn(v.data, rt.heap.Keys)
      modifies this
      ensures Valid()
      ensures EntryMap(entries) == old(EntryMap(entries))[key := Obj([], v.data)]
    {
      var es := Assign(entries, key, v.data);
      StoredGood(entries, es, key, v, rt.heap.Keys);
      entries := es;
    }

    method Get(key: Str) returns (r: Option<Obj>)
      requires Valid()
      ensures r == if key in EntryMap(entries)
                   then Some(Obj([], CopyData(EntryMap(entries)[key].data))) else None
    {
      EntryMapOf(entries);
      for i := 0 to |entries|
        invariant forall j :: 0 <= j < i ==> entries[j].key != key
      {
        if entries[i].key == key {
          return Some(Obj(entries[i].val.name, CopyData(entries[i].val.data)));
        }
      }
      return None;
    }

    method Remove(key: Str) returns (found: bool)
      requires Valid()
      modifies this
      ensures Valid()
      ensures found <==> key in old(EntryMap(entries))
      ensures EntryMap(entries) == old(EntryMap(entries)) - {key}
    {
      hide EntryMap, RefsIn, DistinctKeys, Runtime.Valid;
      var i := 0;
      while i < |entries| && entries[i].key != key
        invariant i <= |entries|
        invariant forall j :: 0 <= j < i ==> entries[j].key != key
      {
        i := i + 1;
      }
      found := i < |entries|;
      if found {
        RemoveGood(entries, i, rt.heap.Keys);
        entries := entries[..i] + entries[i + 1..];
      } else {
        NoSuchKey(entries, key);
      }
    }

    // serialize_binary: version, count, entries in enumeration order.
    method SerializeBinary() returns (out: Str)
      requires Valid()
      modifies rt`inflight
      ensures rt.inflight == old(rt.inflight)
      ensures out == [VERSION] + NodeBytes(rt.heap, rt.inflight, entries)
    {
      var body := rt.SerializeEntries(entries);
      out := [VERSION] + body;
    }

    // deserialize_binary: a new store, or the reason there is none.
    static method DeserializeBinary(rt: Runtime, data: Str) returns (r: Result<ValueStore, StoreError>)
      requires rt.Valid()
      modifies rt
      ensures rt.Valid() && rt.inflight == old(rt.inflight) && Grown(old(rt.heap), rt.heap)
      ensures match r
              case Err(e) => DecodeStore(data) == Err(e)
              case Ok(store) => fresh(store) && store.rt == rt && store.Valid() &&
                                DecodeStore(data) == Ok(UnfoldEntries(rt.heap, {}, store.entries))
    {
      hide DecodeEntries, UnfoldEntries, RefsIn;
      GrownSelf(rt.heap);
      if |data| < 5 {
        return Err(TooSmall);
      }
      if data[0] != VERSION {
        return Err(BadVersion(data[0]));
      }
      var es := rt.DeserializeEntries(false, Len(data[1..]), data, 5);
      match es
      case Err(e) => r := Err(BadEntry(e));
      case Ok(entries) =>
        EntriesGrow(entries, rt.heap.Keys - old(rt.heap.Keys), rt.heap.Keys);
        var store := new ValueStore(rt);
        store.entries := entries;
        r := Ok(store);
    }
  }
}
