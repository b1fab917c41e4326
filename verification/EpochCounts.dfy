// The counters of the epoch manager under every interleaving, against what
// can be read off the run.
module EpochCounts {
  import opened LittleEndian
  import opened EpochSteps
  import opened EpochOverlap

  // Calls of try_gc that read an epoch of at least two and have not yet added
  // to gc_count_.
  function Collecting(ts: seq<Local>): nat {
    if ts == [] then 0 else (if ts[0].Taking? || ts[0].Deleting? then 1 else 0) + Collecting(ts[1..])
  }

  // Is the step the start of a collection by try_gc, or the end of a force_gc
  // that found something?
  predicate Collects(s: State, a: Action)
    requires Enabled(s, a)
  {
    match a
    case Advance(_) => s.epoch >= 2
    case Finish(t) => s.threads[t].Forcing? && s.threads[t].total > 0
    case _ => false
  }

  function Collections(s: State, run: seq<Action>): nat
    requires Legal(s, run)
    decreases |run|
  {
    if run == [] then 0 else (if Collects(s, run[0]) then 1 else 0) + Collections(Do(s, run[0]), run[1..])
  }

  lemma {:induction false} CollectingUpdate(ts: seq<Local>, i: nat, l: Local)
    requires i < |ts|
    ensures Collecting(ts[i := l]) + (if ts[i].Taking? || ts[i].Deleting? then 1 else 0)
         == Collecting(ts) + (if l.Taking? || l.Deleting? then 1 else 0)
  {
    if i == 0 {
      assert ts[0 := l][1..] == ts[1..];
    } else {
      CollectingUpdate(ts[1..], i - 1, l);
      assert ts[i := l][1..] == ts[1..][i - 1 := l];
    }
  }

  lemma {:induction false} StepCollects(s: State, a: Action)
    requires Enabled(s, a)
    ensures var s' := Do(s, a);
            s'.gcs + Collecting(s'.threads) == s.gcs + Collecting(s.threads) + if Collects(s, a) then 1 else 0
    ensures Do(s, a).epoch == if a.Advance? then (s.epoch + 1) % U64 else s.epoch
  {
    hide Collecting;
    var s' := Do(s, a);
    CollectingUpdate(s.threads, a.t, s'.threads[a.t]);
    assert s'.threads == s.threads[a.t := s'.threads[a.t]];
  }

  lemma {:induction false} RunCollects(s: State, run: seq<Action>)
    requires Legal(s, run) && s.epoch < U64
    ensures var e := After(s, run);
            e.gcs + Collecting(e.threads) == s.gcs + Collecting(s.threads) + Collections(s, run) &&
            e.epoch == (s.epoch + Advances(run)) % U64
    decreases |run|
  {
    hide Collecting, Do, Enabled, Collects;
    if run != [] {
      StepCollects(s, run[0]);
      RunCollects(Do(s, run[0]), run[1..]);
      AdvanceWraps(s.epoch, run[0].Advance?, Advances(run[1..]));
    }
  }

  lemma {:induction false} AdvanceWraps(epoch: nat, advance: bool, n: nat)
    requires epoch < U64
    ensures var next := if advance then (epoch + 1) % U64 else epoch;
            next < U64 && (next + n) % U64 == (epoch + ((if advance then 1 else 0) + n)) % U64
  {
    Wrapped(epoch + 1, n);
  }

  lemma {:induction false} Wrapped(x: nat, n: nat)
    ensures (x % U64 + n) % U64 == (x + n) % U64
  {
    var q, y := x / U64, x % U64 + n;
    assert x + n == q * U64 + y;
    Multiples(q, y);
  }

  lemma {:induction false} Multiples(q: nat, y: nat)
    ensures (q * U64 + y) % U64 == y % U64
  {
    if q > 0 {
      Multiples(q - 1, y);
      assert q * U64 + y == (q - 1) * U64 + y + U64;
    }
  }

  lemma {:induction false} NoneCollecting(n: nat)
    ensures Collecting(AllIdle(n)) == 0
  {
    if n > 0 {
      NoneCollecting(n - 1);
      assert AllIdle(n)[1..] == AllIdle(n - 1);
    }
  }

  // After any run of any number of threads: gc_count_ and the collections in
  // flight are the calls of try_gc that read an epoch of at least two and the
  // calls of force_gc that ended and had found something; the epoch is the
  // number of calls of try_gc, modulo 2^64.
  lemma {:induction false} GcCount(n: nat, run: seq<Action>)
    requires Legal(Init(n), run)
    ensures var e := After(Init(n), run);
            e.gcs + Collecting(e.threads) == Collections(Init(n), run) &&
            e.epoch == Advances(run) % 0x1_0000_0000_0000_0000
  {
    RunCollects(Init(n), run);
    NoneCollecting(n);
  }

  // Once no call is in flight gc_count_ is the number of collections.
  lemma {:induction false} GcCountQuiescent(n: nat, run: seq<Action>)
    requires Legal(Init(n), run)
    requires forall t :: 0 <= t < |After(Init(n), run).threads| ==> After(Init(n), run).threads[t] == Idle
    ensures After(Init(n), run).gcs == Collections(Init(n), run)
  {
    GcCount(n, run);
    var e := After(Init(n), run);
    assert e.threads == AllIdle(|e.threads|);
    NoneCollecting(|e.threads|);
  }
}
