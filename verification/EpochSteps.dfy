// Deferred deletion under every interleaving: threads run defer_delete,
// try_gc and force_gc one atomic access, locked region or deleter call at a
// time.
module EpochSteps {
  import opened LittleEndian

  const EPOCHS := 3

  // One number per non-null call of defer_delete, in the order of the calls.
  type Token = nat

  // Where a thread is, with the local variables it still needs.
  datatype Local =
    | Idle
    | Appending(obj: Token, bucket: nat)                    // defer_delete has read the epoch
    | Taking(bucket: nat, read: nat)                        // try_gc has advanced the epoch it read
    | Deleting(rest: seq<Token>, size: nat, read: nat)      // try_gc runs the deleters
    | Forcing(next: nat, total: nat)                        // force_gc is at bucket `next`
    | ForceDeleting(rest: seq<Token>, size: nat, next: nat, total: nat)
    | Reclaiming(size: nat)                                 // gc_count_ is done, reclaimed_count_ is not

  // tags[x] is the epoch that the call which deferred x read.
  datatype State = State(epoch: nat, retired: seq<seq<Token>>, threads: seq<Local>, destroyed: seq<Token>,
                         reclaimed: nat, gcs: nat, deferred: nat, tags: seq<nat>)

  datatype Action =
    | Defer(t: nat)      // read the epoch for a non-null pointer
    | Append(t: nat)     // locked append
    | Advance(t: nat)    // try_gc: fetch_add on the epoch
    | Take(t: nat)       // locked move of one bucket
    | Destroy(t: nat)    // one deleter call
    | Finish(t: nat)     // all deleters have run
    | Force(t: nat)      // force_gc starts
    | Count(t: nat)      // fetch_add on reclaimed_count_

  function NoObjects(n: nat): seq<seq<Token>> {
    seq(n, _ => [])
  }

  function AllIdle(n: nat): seq<Local> {
    seq(n, _ => Idle)
  }

  function Init(n: nat): State {
    State(0, NoObjects(EPOCHS), AllIdle(n), [], 0, 0, 0, [])
  }

  predicate Enabled(s: State, a: Action) {
    |s.retired| == EPOCHS && a.t < |s.threads| &&
    var l := s.threads[a.t];
    match a
    case Defer(_) => l.Idle?
    case Append(_) => l.Appending? && l.bucket < EPOCHS
    case Advance(_) => l.Idle?
    case Take(_) => (l.Taking? && l.bucket < EPOCHS) || (l.Forcing? && l.next < EPOCHS)
    case Destroy(_) => (l.Deleting? || l.ForceDeleting?) && l.rest != []
    case Finish(_) => ((l.Deleting? || l.ForceDeleting?) && l.rest == []) || (l.Forcing? && l.next >= EPOCHS)
    case Force(_) => l.Idle?
    case Count(_) => l.Reclaiming?
  }

  function At(s: State, t: nat, l: Local): State
    requires t < |s.threads|
  {
    s.(threads := s.threads[t := l])
  }

  function Do(s: State, a: Action): State
    requires Enabled(s, a)
  {
    var t := a.t;
    var l := s.threads[t];
    match a
    case Defer(_) => At(s, t, Appending(s.deferred, s.epoch % EPOCHS)).(deferred := s.deferred + 1, tags := s.tags + [s.epoch])
    case Append(_) => At(s, t, Idle).(retired := s.retired[l.bucket := s.retired[l.bucket] + [l.obj]])
    case Advance(_) =>
      At(s, t, if s.epoch < 2 then Idle else Taking((s.epoch - 2) % EPOCHS, s.epoch)).(epoch := (s.epoch + 1) % U64)
    case Take(_) =>
      if l.Taking? then
        At(s, t, Deleting(s.retired[l.bucket], |s.retired[l.bucket]|, l.read)).(retired := s.retired[l.bucket := []])
      else
        At(s, t, ForceDeleting(s.retired[l.next], |s.retired[l.next]|, l.next, l.total)).(retired := s.retired[l.next := []])
    case Destroy(_) => At(s, t, l.(rest := l.rest[1..])).(destroyed := s.destroyed + [l.rest[0]])
    case Finish(_) =>
      if l.Deleting? then At(s, t, Reclaiming(l.size)).(gcs := s.gcs + 1)
      else if l.ForceDeleting? then At(s, t, Forcing(l.next + 1, l.total + l.size))
      else if l.total > 0 then At(s, t, Reclaiming(l.total)).(gcs := s.gcs + 1)
      else At(s, t, Idle)
    case Force(_) => At(s, t, Forcing(0, 0))
    case Count(_) => At(s, t, Idle).(reclaimed := s.reclaimed + l.size)
  }

  // ---- Where the objects are ----

  function InHand(l: Local): seq<Token> {
    match l
    case Appending(obj, _) => [obj]
    case Deleting(rest, _, _) => rest
    case ForceDeleting(rest, _, _, _) => rest
    case _ => []
  }

  function Occurs(q: seq<Token>, x: Token): nat {
    multiset(q)[x]
  }

  function Hands(ts: seq<Local>, x: Token): nat {
    if ts == [] then 0 else Occurs(InHand(ts[0]), x) + Hands(ts[1..], x)
  }

  function Buckets(bs: seq<seq<Token>>, x: Token): nat {
    if bs == [] then 0 else Occurs(bs[0], x) + Buckets(bs[1..], x)
  }

  // How often x is found in the places an object can be: with a thread about
  // to append it, in a bucket, with a collector about to delete it, destroyed.
  function Places(s: State, x: Token): nat {
    Hands(s.threads, x) + Buckets(s.retired, x) + Occurs(s.destroyed, x)
  }

  function Held(ts: seq<Local>): nat {
    if ts == [] then 0 else |InHand(ts[0])| + Held(ts[1..])
  }

  // ---- What is still to be counted ----

  function Owed(l: Local): nat {
    match l
    case Appending(_, _) => 1
    case Deleting(_, size, _) => size
    case Forcing(_, total) => total
    case ForceDeleting(_, size, _, total) => total + size
    case Reclaiming(size) => size
    case _ => 0
  }

  function OwedAll(ts: seq<Local>): nat {
    if ts == [] then 0 else Owed(ts[0]) + OwedAll(ts[1..])
  }

  function Pending(bs: seq<seq<Token>>): nat {
    if bs == [] then 0 else |bs[0]| + Pending(bs[1..])
  }

  // ---- The invariant ----

  // Each deferred object is in exactly one place, once; reclaimed_count_ and
  // everything not yet counted add up to the objects deferred.
  ghost predicate Inv(s: State) {
    |s.retired| == EPOCHS && (forall x: Token :: Places(s, x) == if x < s.deferred then 1 else 0) && Sums(s)
  }

  predicate Sums(s: State) {
    s.reclaimed + OwedAll(s.threads) + Pending(s.retired) == s.deferred &&
    |s.destroyed| + Held(s.threads) + Pending(s.retired) == s.deferred
  }

  lemma {:induction false} ThreadUpdate(ts: seq<Local>, i: nat, l: Local, x: Token)
    requires i < |ts|
    ensures Hands(ts[i := l], x) + Occurs(InHand(ts[i]), x) == Hands(ts, x) + Occurs(InHand(l), x)
    ensures OwedAll(ts[i := l]) + Owed(ts[i]) == OwedAll(ts) + Owed(l)
    ensures Held(ts[i := l]) + |InHand(ts[i])| == Held(ts) + |InHand(l)|
  {
    hide InHand, Owed, Occurs;
    if i == 0 {
      assert ts[0 := l][1..] == ts[1..];
    } else {
      ThreadUpdate(ts[1..], i - 1, l, x);
      assert ts[i := l][1..] == ts[1..][i - 1 := l];
    }
  }

  lemma {:induction false} BucketUpdate(bs: seq<seq<Token>>, i: nat, b: seq<Token>, x: Token)
    requires i < |bs|
    ensures Buckets(bs[i := b], x) + Occurs(bs[i], x) == Buckets(bs, x) + Occurs(b, x)
    ensures Pending(bs[i := b]) + |bs[i]| == Pending(bs) + |b|
  {
    hide Occurs;
    if i == 0 {
      assert bs[0 := b][1..] == bs[1..];
    } else {
      BucketUpdate(bs[1..], i - 1, b, x);
      assert bs[i := b][1..] == bs[1..][i - 1 := b];
    }
  }

  lemma {:induction false} OccursAppend(p: seq<Token>, q: seq<Token>, x: Token)
    ensures Occurs(p + q, x) == Occurs(p, x) + Occurs(q, x)
  {
  }

  lemma {:induction false} OccursFew(obj: Token, x: Token)
    ensures Occurs([], x) == 0 && Occurs([obj], x) == if x == obj then 1 else 0
  {
  }

  lemma {:induction false} InitInv(n: nat)
    ensures Inv(Init(n))
  {
    forall x: Token ensures Places(Init(n), x) == 0 && Sums(Init(n)) {
      IdleHands(n, x);
      EmptyBuckets(EPOCHS, x);
    }
    assert Places(Init(n), 0) == 0;
  }

  lemma {:induction false} EmptyBuckets(n: nat, x: Token)
    ensures Buckets(NoObjects(n), x) == 0 && Pending(NoObjects(n)) == 0
  {
    if n > 0 {
      EmptyBuckets(n - 1, x);
      assert NoObjects(n)[1..] == NoObjects(n - 1);
    }
  }

  lemma {:induction false} IdleHands(n: nat, x: Token)
    ensures var ts := AllIdle(n); Hands(ts, x) == 0 && OwedAll(ts) == 0 && Held(ts) == 0
  {
    if n > 0 {
      IdleHands(n - 1, x);
      assert AllIdle(n)[1..] == AllIdle(n - 1);
    }
  }

  // Every step keeps the invariant.
  lemma {:induction false} StepInv(s: State, a: Action)
    requires Inv(s) && Enabled(s, a)
    ensures Inv(Do(s, a))
  {
    hide Places, Sums;
    assert |Do(s, a).retired| == EPOCHS;
    forall x: Token
      ensures Places(Do(s, a), x) == (if x < Do(s, a).deferred then 1 else 0) && Sums(Do(s, a))
    {
      StepPlaces(s, a, x);
    }
    assert Sums(Do(s, a)) by {
      StepPlaces(s, a, 0);
    }
  }

  lemma {:induction false} StepPlaces(s: State, a: Action, x: Token)
    requires Enabled(s, a) && Sums(s) && Places(s, x) == if x < s.deferred then 1 else 0
    ensures Places(Do(s, a), x) == if x < Do(s, a).deferred then 1 else 0
    ensures Sums(Do(s, a))
  {
    hide Hands, Buckets, OwedAll, Pending, Held, Occurs;
    OccursFew(s.deferred, x);
    var t := a.t;
    var s', l := Do(s, a), s.threads[t];
    var l' := s'.threads[t];
    ThreadUpdate(s.threads, t, l', x);
    assert s'.threads == s.threads[t := l'];
    match a
    case Append(_) =>
      OccursFew(l.obj, x);
      BucketUpdate(s.retired, l.bucket, s.retired[l.bucket] + [l.obj], x);
      OccursAppend(s.retired[l.bucket], [l.obj], x);
    case Take(_) =>
      BucketUpdate(s.retired, if l.Taking? then l.bucket else l.next, [], x);
    case Destroy(_) =>
      assert l.rest == [l.rest[0]] + l.rest[1..];
      OccursAppend([l.rest[0]], l.rest[1..], x);
      OccursAppend(s.destroyed, [l.rest[0]], x);
    case _ =>
  }

  // ---- Runs ----

  predicate Legal(s: State, run: seq<Action>)
    decreases |run|
  {
    run == [] || (Enabled(s, run[0]) && Legal(Do(s, run[0]), run[1..]))
  }

  function After(s: State, run: seq<Action>): State
    requires Legal(s, run)
    decreases |run|
  {
    if run == [] then s else After(Do(s, run[0]), run[1..])
  }

  lemma {:induction false} RunInv(s: State, run: seq<Action>)
    requires Inv(s) && Legal(s, run)
    ensures Inv(After(s, run))
    decreases |run|
  {
    if run != [] {
      StepInv(s, run[0]);
      RunInv(Do(s, run[0]), run[1..]);
    }
  }

  // After any run of any number of threads: no object is destroyed twice, each
  // is in exactly one place, and the counts add up.
  lemma {:induction false} EveryRun(n: nat, run: seq<Action>, x: Token)
    requires Legal(Init(n), run)
    ensures var s := After(Init(n), run);
            Places(s, x) == (if x < s.deferred then 1 else 0) && Occurs(s.destroyed, x) <= 1 &&
            s.reclaimed + OwedAll(s.threads) + Pending(s.retired) == s.deferred
  {
    InitInv(n);
    RunInv(Init(n), run);
  }

  // Once no call is in flight, reclaimed_count_ is the number of objects
  // destroyed, and with pending_count it is the number deferred.
  lemma {:induction false} Quiescent(n: nat, run: seq<Action>)
    requires Legal(Init(n), run)
    requires forall t :: 0 <= t < |After(Init(n), run).threads| ==> After(Init(n), run).threads[t] == Idle
    ensures var s := After(Init(n), run);
            s.reclaimed + Pending(s.retired) == s.deferred && s.reclaimed == |s.destroyed|
  {
    var s := After(Init(n), run);
    InitInv(n);
    RunInv(Init(n), run);
    assert s.threads == AllIdle(|s.threads|);
    IdleHands(|s.threads|, 0);
  }

  // Destruction is final: what a run has destroyed stays destroyed.
  lemma {:induction false} DestroyedGrows(s: State, run: seq<Action>)
    requires Legal(s, run)
    ensures s.destroyed <= After(s, run).destroyed
    decreases |run|
  {
    if run != [] {
      DestroyedGrows(Do(s, run[0]), run[1..]);
    }
  }
}
