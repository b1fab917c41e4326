// The epoch manager with each call taken as atomic: which call of try_gc
// destroys an object, and what that means for a reader.
module EpochManagers {
  import opened LittleEndian
  import opened EpochSteps

  type Addr = nat

  // A deferred pointer, the number of the call and the epoch it read.
  datatype Item = Item(ptr: Addr, id: nat, epoch: nat)

  // log lists what was deferred, destroyed what the deleters were run on.
  datatype Manager = Manager(epoch: nat, retired: seq<seq<Item>>, destroyed: seq<Item>,
                             gcs: nat, reclaimed: nat, log: seq<Item>)

  datatype Call = DeferDelete(ptr: Addr) | TryGc | ForceGc

  const FRESH := Manager(0, [[], [], []], [], 0, 0, [])

  function Deferred(m: Manager, ptr: Addr): Manager
    requires |m.retired| == EPOCHS
  {
    if ptr == 0 then m
    else
      var x := Item(ptr, |m.log|, m.epoch);
      var b := m.epoch % EPOCHS;
      m.(retired := m.retired[b := m.retired[b] + [x]], log := m.log + [x])
  }

  function Advanced(m: Manager): Manager {
    m.(epoch := (m.epoch + 1) % U64)
  }

  function Collected(m: Manager): Manager
    requires |m.retired| == EPOCHS
  {
    if m.epoch < 2 then Advanced(m)
    else
      var b := (m.epoch - 2) % EPOCHS;
      Advanced(m).(retired := m.retired[b := []], destroyed := m.destroyed + m.retired[b],
                   gcs := m.gcs + 1, reclaimed := m.reclaimed + |m.retired[b]|)
  }

  function Forced(m: Manager): Manager
    requires |m.retired| == EPOCHS
  {
    var all := m.retired[0] + m.retired[1] + m.retired[2];
    m.(retired := [[], [], []], destroyed := m.destroyed + all,
       gcs := m.gcs + (if all == [] then 0 else 1), reclaimed := m.reclaimed + |all|)
  }

  function Apply(m: Manager, c: Call): (r: Manager)
    requires |m.retired| == EPOCHS
    ensures |r.retired| == EPOCHS
  {
    match c
    case DeferDelete(ptr) => Deferred(m, ptr)
    case TryGc => Collected(m)
    case ForceGc => Forced(m)
  }

  function ApplyAll(m: Manager, run: seq<Call>): (r: Manager)
    requires |m.retired| == EPOCHS
    ensures |r.retired| == EPOCHS
    decreases |run|
  {
    if run == [] then m else ApplyAll(Apply(m, run[0]), run[1..])
  }

  function Gcs(run: seq<Call>): nat {
    if run == [] then 0 else (if run[0] == TryGc then 1 else 0) + Gcs(run[1..])
  }

  // ---- Invariants ----

  // Bucket b holds what was deferred in one epoch: the one of the last three
  // that is b modulo three.
  ghost predicate OneEpochEach(m: Manager) {
    |m.retired| == EPOCHS &&
    forall b, x :: 0 <= b < EPOCHS && x in m.retired[b] ==>
      x.epoch % EPOCHS == b && m.epoch - 2 <= x.epoch <= m.epoch
  }

  // Everything deferred is retired or destroyed, and was numbered in order.
  ghost predicate Accounted(m: Manager) {
    |m.retired| == EPOCHS &&
    (forall x :: x in m.log <==> x in m.destroyed || exists b :: 0 <= b < EPOCHS && x in m.retired[b]) &&
    (forall x :: x in m.log ==> x.id < |m.log|)
  }

  lemma {:induction false} EpochEach(m: Manager, c: Call)
    requires OneEpochEach(m) && (c == TryGc ==> m.epoch + 1 < U64)
    ensures OneEpochEach(Apply(m, c))
  {
    var m' := Apply(m, c);
    forall b, x | 0 <= b < EPOCHS && x in m'.retired[b]
      ensures x.epoch % EPOCHS == b && m'.epoch - 2 <= x.epoch <= m'.epoch
    {
      if x !in m.retired[b] {
        assert c.DeferDelete? && x == Item(c.ptr, |m.log|, m.epoch) && b == m.epoch % EPOCHS;
      } else if c == TryGc && m.epoch >= 2 {
        assert b != (m.epoch - 2) % EPOCHS;
        assert x.epoch != m.epoch - 2;
      }
    }
  }

  // No object is lost, whatever is called.
  lemma {:induction false} AccountedStep(m: Manager, c: Call)
    requires Accounted(m)
    ensures Accounted(Apply(m, c))
  {
    var m' := Apply(m, c);
    var new_ := if c.DeferDelete? && c.ptr != 0 then [Item(c.ptr, |m.log|, m.epoch)] else [];
    assert m'.log == m.log + new_;
    forall y | y in m'.log ensures y in m'.destroyed || exists b :: 0 <= b < EPOCHS && y in m'.retired[b] {
      if y in new_ {
        assert y in m'.retired[m.epoch % EPOCHS];
      } else if y !in m.destroyed {
        var b :| 0 <= b < EPOCHS && y in m.retired[b];
        StillThere(m, c, b, y);
      }
    }
    forall y | y in m'.destroyed || exists b :: 0 <= b < EPOCHS && y in m'.retired[b] ensures y in m'.log {
      if y !in m.destroyed && y !in new_ {
        OneOfOld(m, c, y);
      }
    }
  }

  // What was in a bucket stays there or is destroyed.
  lemma {:induction false} StillThere(m: Manager, c: Call, b: nat, y: Item)
    requires |m.retired| == EPOCHS && b < EPOCHS && y in m.retired[b]
    ensures y in Apply(m, c).retired[b] || y in Apply(m, c).destroyed
  {
  }

  // What is in a bucket or destroyed after a call, and is not new, was there.
  lemma {:induction false} OneOfOld(m: Manager, c: Call, y: Item)
    requires |m.retired| == EPOCHS && y !in m.destroyed
    requires y in Apply(m, c).destroyed || exists b :: 0 <= b < EPOCHS && y in Apply(m, c).retired[b]
    requires c.DeferDelete? && c.ptr != 0 ==> y != Item(c.ptr, |m.log|, m.epoch)
    ensures exists b :: 0 <= b < EPOCHS && y in m.retired[b]
  {
    if b :| 0 <= b < EPOCHS && y in Apply(m, c).retired[b] {
      assert y in m.retired[b];
    } else if c == ForceGc {
      assert y in m.retired[0] || y in m.retired[1] || y in m.retired[2];
    } else {
      assert c == TryGc && y in m.retired[(m.epoch - 2) % EPOCHS];
    }
  }

  // try_gc that reads epoch g destroys what was deferred in epoch g - 2: all
  // of it, and nothing else.
  lemma {:induction false} CollectsOneEpoch(m: Manager, x: Item)
    requires OneEpochEach(m) && m.epoch >= 2
    ensures var taken := m.retired[(m.epoch - 2) % EPOCHS];
            Collected(m).destroyed == m.destroyed + taken &&
            ((exists b :: 0 <= b < EPOCHS && x in m.retired[b]) ==> (x in taken <==> x.epoch + 2 == m.epoch))
  {
    if exists b :: 0 <= b < EPOCHS && x in m.retired[b] {
      var b :| 0 <= b < EPOCHS && x in m.retired[b];
    }
  }

  lemma {:induction false} EpochAndLog(m: Manager, c: Call)
    requires |m.retired| == EPOCHS && (c == TryGc ==> m.epoch + 1 < U64)
    ensures Apply(m, c).epoch == m.epoch + (if c == TryGc then 1 else 0) && m.log <= Apply(m, c).log
  {
  }

  // Over every run that does not exhaust the 64-bit epoch, forced or not, the
  // buckets hold one epoch each and no object is lost.
  lemma {:induction false} RunKeeps(m: Manager, run: seq<Call>)
    requires OneEpochEach(m) && Accounted(m) && m.epoch + Gcs(run) < U64
    ensures OneEpochEach(ApplyAll(m, run)) && Accounted(ApplyAll(m, run))
    ensures ApplyAll(m, run).epoch == m.epoch + Gcs(run) && m.log <= ApplyAll(m, run).log
    decreases |run|
  {
    hide OneEpochEach, Accounted, Deferred, Collected, Forced, Apply;
    assert |m.retired| == EPOCHS by { Buckets(m); }
    if run != [] {
      EpochAndLog(m, run[0]);
      AccountedStep(m, run[0]);
      EpochEach(m, run[0]);
      RunKeeps(Apply(m, run[0]), run[1..]);
    }
  }

  lemma {:induction false} Buckets(m: Manager)
    requires OneEpochEach(m)
    ensures |m.retired| == EPOCHS
  {
  }

  // Where an object is when gcs calls of try_gc, and perhaps a force_gc, have
  // run since it was deferred.
  ghost predicate Whereabouts(m: Manager, x: Item, gcs: nat, forced: bool) {
    |m.retired| == EPOCHS && m.epoch == x.epoch + gcs && x.id < |m.log| &&
    if gcs >= 3 || forced then x in m.destroyed
    else x in m.retired[x.epoch % EPOCHS] && x !in m.destroyed
  }

  lemma {:induction false} WhereaboutsStep(m: Manager, c: Call, x: Item, gcs: nat, forced: bool)
    requires OneEpochEach(m) && Whereabouts(m, x, gcs, forced) && (c == TryGc ==> m.epoch + 1 < U64)
    ensures Whereabouts(Apply(m, c), x, if c == TryGc then gcs + 1 else gcs, forced || c == ForceGc)
  {
    if c == TryGc && gcs < 3 && !forced && m.epoch >= 2 {
      var b := (m.epoch - 2) % EPOCHS;
      assert gcs == 2 <==> b == x.epoch % EPOCHS;
      assert x in m.retired[b] ==> b == x.epoch % EPOCHS;
    }
  }

  lemma {:induction false} WhereaboutsRun(m: Manager, run: seq<Call>, x: Item, gcs: nat, forced: bool)
    requires OneEpochEach(m) && Whereabouts(m, x, gcs, forced) && m.epoch + Gcs(run) < U64
    ensures |m.retired| == EPOCHS && Whereabouts(ApplyAll(m, run), x, gcs + Gcs(run), forced || ForceGc in run)
    decreases |run|
  {
    hide OneEpochEach, Whereabouts, Deferred, Collected, Forced, Apply;
    assert |m.retired| == EPOCHS by { Buckets(m); }
    if run != [] {
      var c, rest := run[0], run[1..];
      assert ForceGc in run <==> c == ForceGc || ForceGc in rest;
      EpochAndLog(m, c);
      EpochEach(m, c);
      WhereaboutsStep(m, c, x, gcs, forced);
      WhereaboutsRun(Apply(m, c), rest, x, if c == TryGc then gcs + 1 else gcs, forced || c == ForceGc);
    }
  }

  // Whatever was called before and is called after, an object is destroyed if
  // and only if three calls of try_gc, or one of force_gc, have come since it
  // was deferred: deferred in epoch e, it is destroyed by the try_gc that
  // reads e + 2 or by the first force_gc.
  lemma {:induction false} DestroyedWhen(before: seq<Call>, ptr: Addr, late: seq<Call>)
    requires ptr != 0 && Gcs(before) + Gcs(late) < U64
    ensures var at := ApplyAll(FRESH, before);
            var x := Item(ptr, |at.log|, at.epoch);
            x in ApplyAll(Deferred(at, ptr), late).destroyed <==> Gcs(late) >= 3 || ForceGc in late
  {
    var at := ApplyAll(FRESH, before);
    var x := Item(ptr, |at.log|, at.epoch);
    RunKeeps(FRESH, before);
    EpochEach(at, DeferDelete(ptr));
    assert x !in at.destroyed;
    WhereaboutsRun(Deferred(at, ptr), late, x, 0, false);
  }

  lemma {:induction false} ApplyConcat(m: Manager, p: seq<Call>, q: seq<Call>)
    requires |m.retired| == EPOCHS
    ensures ApplyAll(m, p + q) == ApplyAll(ApplyAll(m, p), q) && Gcs(p + q) == Gcs(p) + Gcs(q)
    decreases |p|
  {
    if p == [] {
      assert p + q == q;
    } else {
      hide Apply;
      assert (p + q)[1..] == p[1..] + q;
      ApplyConcat(Apply(m, p[0]), p[1..], q);
    }
  }

  // A reader enters a critical section, later an object is deferred, and
  // before the reader leaves the object is looked at again. Nothing in the
  // manager knows the reader; it is the number of try_gc calls in between
  // that decides. The object is gone iff at least three of them came after
  // the deferral, or a force_gc did: never after two calls in all.
  lemma {:induction false} ReaderSafety(before: seq<Call>, early: seq<Call>, ptr: Addr, late: seq<Call>)
    requires ptr != 0 && Gcs(before) + Gcs(early) + Gcs(late) < U64
    ensures var entered := ApplyAll(FRESH, before);
            var at := ApplyAll(entered, early);
            var x := Item(ptr, |at.log|, at.epoch);
            var end := ApplyAll(Deferred(at, ptr), late);
            (x in end.destroyed <==> Gcs(late) >= 3 || ForceGc in late) &&
            (Gcs(early) + Gcs(late) <= 2 && ForceGc !in late ==> x !in end.destroyed)
  {
    hide Deferred, Apply;
    ApplyConcat(FRESH, before, early);
    DestroyedWhen(before + early, ptr, late);
  }

  // ---- The counters ----

  // The collections of a run: the calls of try_gc that read an epoch of at
  // least two, and the calls of force_gc that found something to delete.
  function Collections(m: Manager, run: seq<Call>): nat
    requires |m.retired| == EPOCHS
    decreases |run|
  {
    if run == [] then 0
    else
      var next := Apply(m, run[0]);
      (if (run[0] == TryGc && m.epoch >= 2) || (run[0] == ForceGc && |next.destroyed| > |m.destroyed|) then 1 else 0)
      + Collections(next, run[1..])
  }

  // Over every run gc_count_ grows by the collections, and reclaimed_count_
  // by the objects destroyed.
  lemma {:induction false} CountsRun(m: Manager, run: seq<Call>)
    requires |m.retired| == EPOCHS
    ensures var e := ApplyAll(m, run);
            e.gcs == m.gcs + Collections(m, run) && e.reclaimed + |m.destroyed| == m.reclaimed + |e.destroyed|
    decreases |run|
  {
    if run != [] {
      CountsRun(Apply(m, run[0]), run[1..]);
    }
  }

  // From a new manager on: reclaimed_count_ is the number of objects
  // destroyed, and gc_count_ the number of collections.
  lemma {:induction false} Counters(run: seq<Call>)
    ensures var e := ApplyAll(FRESH, run); e.reclaimed == |e.destroyed| && e.gcs == Collections(FRESH, run)
  {
    CountsRun(FRESH, run);
  }

  function Forces(m: Manager, run: seq<Call>): nat
    requires |m.retired| == EPOCHS
    decreases |run|
  {
    if run == [] then 0
    else
      var next := Apply(m, run[0]);
      (if run[0] == ForceGc && |next.destroyed| > |m.destroyed| then 1 else 0) + Forces(next, run[1..])
  }

  // While the 64-bit epoch lasts all calls of try_gc but the first two are
  // collections.
  lemma {:induction false} CollectionsOf(m: Manager, run: seq<Call>)
    requires |m.retired| == EPOCHS && m.epoch + Gcs(run) < U64
    ensures Collections(m, run) - Forces(m, run)
         == if m.epoch >= 2 then Gcs(run) else if m.epoch + Gcs(run) >= 2 then m.epoch + Gcs(run) - 2 else 0
    decreases |run|
  {
    if run != [] {
      EpochAndLog(m, run[0]);
      CollectionsOf(Apply(m, run[0]), run[1..]);
    }
  }

  // Two objects and three calls of try_gc: two reclaimed in one collection.
  lemma {:induction false} CounterRun()
    ensures var e := ApplyAll(FRESH, [DeferDelete(1), DeferDelete(2), TryGc, TryGc, TryGc]);
            |e.destroyed| == 2 && e.reclaimed == 2 && e.gcs == 1 && e.epoch == 3
  {
    var a := Item(1, 0, 0);
    var b := Item(2, 1, 0);
    var m := Manager(0, [[a, b], [], []], [], 0, 0, [a, b]);
    assert [DeferDelete(1), DeferDelete(2), TryGc, TryGc, TryGc][1..] == [DeferDelete(2), TryGc, TryGc, TryGc];
    assert [DeferDelete(2), TryGc, TryGc, TryGc][1..] == [TryGc, TryGc, TryGc];
    assert [TryGc, TryGc, TryGc][1..] == [TryGc, TryGc] && [TryGc, TryGc][1..] == [TryGc] && [TryGc][1..] == [];
    var none: seq<Item> := [];
    var first := Apply(FRESH, DeferDelete(1));
    assert none + [a] == [a] && [a] + [b] == [a, b];
    assert FRESH.retired[0 := [a]] == [[a], none, none] && [[a], none, none][0 := [a, b]] == [[a, b], none, none];
    assert first == Manager(0, [[a], [], []], [], 0, 0, [a]);
    assert Apply(first, DeferDelete(2)) == m;
    var n := m.(epoch := 2);
    assert Apply(m, TryGc) == m.(epoch := 1);
    assert Apply(m.(epoch := 1), TryGc) == n;
    assert ApplyAll(Apply(n, TryGc), []) == Apply(n, TryGc);
  }

  // ---- The object and its methods ----

  function Ptrs(xs: seq<Item>): (r: seq<Addr>)
    ensures |r| == |xs|
  {
    if xs == [] then [] else [xs[0].ptr] + Ptrs(xs[1..])
  }

  lemma {:induction false} PtrsCons(x: Item, xs: seq<Item>)
    ensures Ptrs([x] + xs) == [x.ptr] + Ptrs(xs)
  {
    assert ([x] + xs)[1..] == xs;
  }

  lemma {:induction false} PtrsConcat(xs: seq<Item>, ys: seq<Item>)
    ensures Ptrs(xs + ys) == Ptrs(xs) + Ptrs(ys)
  {
    hide Ptrs;
    if xs == [] {
      PtrsOfNone();
      assert xs + ys == ys;
    } else {
      var x, rest := xs[0], xs[1..];
      PtrsConcat(rest, ys);
      assert xs == [x] + rest && xs + ys == [x] + (rest + ys);
      PtrsCons(x, rest);
      PtrsCons(x, rest + ys);
      assert [x.ptr] + (Ptrs(rest) + Ptrs(ys)) == [x.ptr] + Ptrs(rest) + Ptrs(ys);
    }
  }

  lemma {:induction false} PtrsOfNone()
    ensures Ptrs([]) == []
  {
  }

  class EpochManager {
    var globalEpoch: nat
    var retired: seq<seq<Addr>>
    var gcCount: nat
    var reclaimedCount: nat
    var deleted: seq<Addr>      // the pointers deleters were called on, in order
    ghost var view: Manager

    ghost predicate Valid()
      reads this
    {
      globalEpoch == view.epoch < U64 && gcCount == view.gcs && reclaimedCount == view.reclaimed &&
      |retired| == |view.retired| == EPOCHS && (forall b :: 0 <= b < EPOCHS ==> retired[b] == Ptrs(view.retired[b])) &&
      deleted == Ptrs(view.destroyed)
    }

    constructor ()
      ensures Valid() && view == FRESH
    {
      globalEpoch, retired, gcCount, reclaimedCount, deleted := 0, [[], [], []], 0, 0, [];
      view := FRESH;
    }

    method DeferDelete(ptr: Addr)
      requires Valid()
      modifies this
      ensures Valid() && view == Deferred(old(view), ptr)
      ensures globalEpoch == old(globalEpoch) && deleted == old(deleted)
      ensures gcCount == old(gcCount) && reclaimedCount == old(reclaimedCount)
      ensures var b := old(globalEpoch) % 3;
              |old(retired)| == 3 && retired == if ptr == 0 then old(retired) else old(retired)[b := old(retired)[b] + [ptr]]
    {
      if ptr == 0 {
        return;
      }
      var b := globalEpoch % EPOCHS;
      PtrsConcat(view.retired[b], [Item(ptr, |view.log|, view.epoch)]);
      retired := retired[b := retired[b] + [ptr]];
      view := Deferred(view, ptr);
    }

    // Runs the deleters of a list that was moved out of its bucket.
    method RunDeleters(list: seq<Addr>)
      modifies this`deleted
      ensures deleted == old(deleted) + list
    {
      for i := 0 to |list|
        invariant deleted == old(deleted) + list[..i]
      {
        deleted := deleted + [list[i]];
        assert list[..i + 1] == list[..i] + [list[i]];
      }
      assert list[..|list|] == list;
    }

    method TryGc() returns (n: nat)
      requires Valid()
      modifies this
      ensures Valid() && view == Collected(old(view))
      ensures n == |view.destroyed| - |old(view).destroyed|
      ensures globalEpoch == (old(globalEpoch) + 1) % 0x1_0000_0000_0000_0000
      ensures |old(retired)| == 3 &&
              if old(globalEpoch) < 2 then n == 0 && retired == old(retired) && deleted == old(deleted)
              else
                var b := (old(globalEpoch) - 2) % 3;
                n == |old(retired)[b]| && retired == old(retired)[b := []] && deleted == old(deleted) + old(retired)[b]
      ensures gcCount == old(gcCount) + (if old(globalEpoch) >= 2 then 1 else 0)
      ensures reclaimedCount == old(reclaimedCount) + n
    {
      var current := globalEpoch;
      globalEpoch := (globalEpoch + 1) % U64;
      if current < 2 {
        view := Collected(view);
        return 0;
      }
      var b := (current - 2) % EPOCHS;
      var list := retired[b];
      retired := retired[b := []];
      RunDeleters(list);
      gcCount := gcCount + 1;
      reclaimedCount := reclaimedCount + |list|;
      PtrsConcat(view.destroyed, view.retired[b]);
      view := Collected(view);
      n := |list|;
    }

    method ForceGc() returns (total: nat)
      requires Valid()
      modifies this
      ensures Valid() && view == Forced(old(view))
      ensures total == |view.destroyed| - |old(view).destroyed|
      ensures globalEpoch == old(globalEpoch) && retired == [[], [], []]
      ensures |old(retired)| == 3 && deleted == old(deleted) + (old(retired)[0] + old(retired)[1] + old(retired)[2])
      ensures gcCount == old(gcCount) + (if total > 0 then 1 else 0)
      ensures reclaimedCount == old(reclaimedCount) + total
    {
      hide Ptrs;
      PtrsOfNone();
      total := 0;
      ghost var moved: seq<Item> := [];
      assert view.destroyed + moved == view.destroyed;
      for i := 0 to EPOCHS
        invariant view == old(view) && globalEpoch == old(globalEpoch)
        invariant gcCount == old(gcCount) && reclaimedCount == old(reclaimedCount)
        invariant |retired| == EPOCHS && (forall b :: 0 <= b < i ==> retired[b] == [])
        invariant forall b :: i <= b < EPOCHS ==> retired[b] == old(retired)[b]
        invariant moved == Moved(view, i) && total == |moved|
        invariant deleted == Ptrs(view.destroyed + moved)
      {
        var list := retired[i];
        retired := retired[i := []];
        RunDeleters(list);
        PtrsConcat(view.destroyed + moved, view.retired[i]);
        assert view.destroyed + moved + view.retired[i] == view.destroyed + (moved + view.retired[i]);
        total := total + |list|;
        moved := moved + view.retired[i];
      }
      if total > 0 {
        gcCount := gcCount + 1;
        reclaimedCount := reclaimedCount + total;
      }
      MovedAll(view);
      MovedPtrs(view);
      view := Forced(view);
    }

    method PendingCount() returns (total: nat)
      requires Valid()
      ensures total == |Moved(view, EPOCHS)|
      ensures |retired| == 3 && total == |retired[0]| + |retired[1]| + |retired[2]|
    {
      MovedAll(view);
      total := 0;
      for i := 0 to EPOCHS
        invariant total == |Moved(view, i)|
      {
        total := total + |retired[i]|;
      }
    }
  }

  lemma {:induction false} MovedAll(m: Manager)
    requires |m.retired| == EPOCHS
    ensures Moved(m, EPOCHS) == m.retired[0] + m.retired[1] + m.retired[2]
  {
    assert Moved(m, 1) == m.retired[0];
    assert Moved(m, 2) == m.retired[0] + m.retired[1];
  }

  lemma {:induction false} MovedPtrs(m: Manager)
    requires |m.retired| == EPOCHS
    ensures Ptrs(m.destroyed + Moved(m, EPOCHS))
         == Ptrs(m.destroyed) + (Ptrs(m.retired[0]) + Ptrs(m.retired[1]) + Ptrs(m.retired[2]))
  {
    hide Ptrs;
    MovedAll(m);
    PtrsConcat(m.destroyed, Moved(m, EPOCHS));
    PtrsConcat(m.retired[0] + m.retired[1], m.retired[2]);
    PtrsConcat(m.retired[0], m.retired[1]);
  }

  // The contents of the first n buckets.
  ghost function Moved(m: Manager, n: nat): seq<Item>
    requires n <= |m.retired|
  {
    if n == 0 then [] else Moved(m, n - 1) + m.retired[n - 1]
  }
}
