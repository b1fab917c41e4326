// What a force_gc takes under every interleaving: all that was retired when
// it was called.
module EpochForces {
  import opened EpochSteps

  // Tokens of xs that are nobody's to append, and that thread t, in a call of
  // force_gc, has already taken out of the buckets it has been at.
  ghost predicate Cleared(s: State, t: nat, xs: set<Token>) {
    |s.retired| == EPOCHS && t < |s.threads| &&
    (forall u :: 0 <= u < |s.threads| ==> NotAppending(s.threads[u], xs)) &&
    (forall x :: x in xs ==> x < s.deferred) &&
    forall b :: 0 <= b < EPOCHS && b < Passed(s.threads[t]) ==> NoneOf(s.retired[b], xs)
  }

  predicate NotAppending(l: Local, xs: set<Token>) {
    l.Appending? ==> l.obj !in xs
  }

  predicate NoneOf(bucket: seq<Token>, xs: set<Token>) {
    forall x :: x in bucket ==> x !in xs
  }

  // How many buckets a call of force_gc has emptied.
  function Passed(l: Local): nat {
    match l
    case Forcing(next, _) => next
    case ForceDeleting(_, _, next, _) => next + 1
    case _ => EPOCHS
  }

  // t takes no step that begins a call.
  predicate NoNewCall(a: Action, t: nat) {
    a.t == t ==> !a.Defer? && !a.Advance? && !a.Force?
  }

  // The threads of force_gc and those whose call has ended.
  predicate InForce(l: Local) {
    l.Forcing? || l.ForceDeleting? || l.Reclaiming? || l.Idle?
  }

  lemma {:induction false} StepCleared(s: State, t: nat, xs: set<Token>, a: Action)
    requires Cleared(s, t, xs) && InForce(s.threads[t]) && Enabled(s, a) && NoNewCall(a, t)
    ensures Cleared(Do(s, a), t, xs) && InForce(Do(s, a).threads[t])
  {
    var s' := Do(s, a);
    assert NotAppending(s.threads[a.t], xs);
    forall b | 0 <= b < EPOCHS && b < Passed(s'.threads[t]) ensures NoneOf(s'.retired[b], xs) {
      if b < Passed(s.threads[t]) {
        assert NoneOf(s.retired[b], xs);
      }
    }
  }

  lemma {:induction false} RunCleared(s: State, t: nat, xs: set<Token>, run: seq<Action>)
    requires Cleared(s, t, xs) && InForce(s.threads[t]) && Legal(s, run) && forall a :: a in run ==> NoNewCall(a, t)
    ensures Cleared(After(s, run), t, xs) && InForce(After(s, run).threads[t])
    decreases |run|
  {
    hide Cleared, Enabled;
    if run != [] {
      assert run[0] in run && forall a :: a in run[1..] ==> a in run;
      ThreadThere(s, t, xs);
      StepCleared(s, t, xs, run[0]);
      RunCleared(Do(s, run[0]), t, xs, run[1..]);
    }
  }

  lemma {:induction false} ThreadThere(s: State, t: nat, xs: set<Token>)
    requires Cleared(s, t, xs)
    ensures t < |s.threads|
  {
  }

  // What is in a bucket is in nobody's hands.
  lemma {:induction false} RetiredOnly(s: State, b: nat, u: nat, x: Token)
    requires Inv(s) && b < EPOCHS && x in s.retired[b] && u < |s.threads|
    ensures x < s.deferred && x !in InHand(s.threads[u]) && x !in s.destroyed
  {
    hide Sums;
    InBuckets(s.retired, b, x);
    InHands(s.threads, u, x);
    assert Places(s, x) == if x < s.deferred then 1 else 0;
  }

  lemma {:induction false} InBuckets(bs: seq<seq<Token>>, b: nat, x: Token)
    requires b < |bs|
    ensures Buckets(bs, x) >= Occurs(bs[b], x) && (x in bs[b] ==> Occurs(bs[b], x) > 0)
  {
    if b > 0 {
      InBuckets(bs[1..], b - 1, x);
    }
  }

  lemma {:induction false} InHands(ts: seq<Local>, u: nat, x: Token)
    requires u < |ts|
    ensures Hands(ts, x) >= Occurs(InHand(ts[u]), x) && (x in InHand(ts[u]) ==> Occurs(InHand(ts[u]), x) > 0)
  {
    hide InHand;
    if u > 0 {
      InHands(ts[1..], u - 1, x);
    }
  }

  // In any reachable state thread t calls force_gc, and takes steps until it
  // is done with the buckets: whatever the other threads do meanwhile, no
  // object that was in a bucket at the start is in one at the end.
  lemma {:induction false} ForceTakesAll(s: State, t: nat, run: seq<Action>, b: nat, x: Token)
    requires Inv(s) && Enabled(s, Force(t)) && Legal(Do(s, Force(t)), run) && forall a :: a in run ==> NoNewCall(a, t)
    requires b < EPOCHS && x in s.retired[b]
    requires var e := After(Do(s, Force(t)), run); t < |e.threads| && (e.threads[t].Idle? || e.threads[t].Reclaiming?)
    ensures forall q :: q in After(Do(s, Force(t)), run).retired ==> x !in q
  {
    hide Inv, Cleared;
    StartCleared(s, t, x);
    RunCleared(Do(s, Force(t)), t, {x}, run);
    EndCleared(After(Do(s, Force(t)), run), t, x);
  }

  lemma {:induction false} StartCleared(s: State, t: nat, x: Token)
    requires Inv(s) && Enabled(s, Force(t)) && exists b :: 0 <= b < EPOCHS && x in s.retired[b]
    ensures Cleared(Do(s, Force(t)), t, {x}) && InForce(Do(s, Force(t)).threads[t])
  {
    var b :| 0 <= b < EPOCHS && x in s.retired[b];
    var s' := Do(s, Force(t));
    forall u | 0 <= u < |s.threads| ensures NotAppending(s'.threads[u], {x}) {
      RetiredOnly(s, b, u, x);
      assert s.threads[u].Appending? ==> s.threads[u].obj in InHand(s.threads[u]);
    }
    RetiredOnly(s, b, t, x);
  }

  lemma {:induction false} EndCleared(s: State, t: nat, x: Token)
    requires Cleared(s, t, {x}) && (s.threads[t].Idle? || s.threads[t].Reclaiming?)
    ensures forall q :: q in s.retired ==> x !in q
  {
    forall q | q in s.retired ensures x !in q {
      var b :| 0 <= b < |s.retired| && s.retired[b] == q;
      assert NoneOf(s.retired[b], {x});
    }
  }
}
