// What a reader can rely on when calls overlap: which collector destroys an
// object, and when one can be destroyed before three more calls of try_gc
// have advanced the epoch.
module EpochOverlap {
  import opened LittleEndian
  import opened EpochSteps

  function Advances(run: seq<Action>): nat {
    if run == [] then 0 else (if run[0].Advance? then 1 else 0) + Advances(run[1..])
  }

  predicate NoForce(run: seq<Action>) {
    forall a :: a in run ==> !a.Force?
  }

  // ---- Which collector destroys an object ----

  // Object x was deferred in an epoch whose objects go to bucket b.
  predicate TagIs(tags: seq<nat>, x: Token, b: nat) {
    x < |tags| && tags[x] % EPOCHS == b
  }

  // What a thread holds agrees with the epochs that were read.
  predicate TaggedLocal(l: Local, tags: seq<nat>, epoch: nat) {
    match l
    case Appending(obj, b) => TagIs(tags, obj, b)
    case Taking(b, r) => 2 <= r < epoch && b == (r - 2) % EPOCHS
    case Deleting(rest, _, r) =>
      2 <= r < epoch && forall x :: x in rest ==> TagIs(tags, x, (r - 2) % EPOCHS)
    case _ => true
  }

  ghost predicate Tagged(s: State) {
    |s.retired| == EPOCHS && |s.tags| == s.deferred &&
    (forall x :: 0 <= x < |s.tags| ==> s.tags[x] <= s.epoch) &&
    (forall b, x :: 0 <= b < EPOCHS && x in s.retired[b] ==> TagIs(s.tags, x, b)) &&
    (forall t :: 0 <= t < |s.threads| ==> TaggedLocal(s.threads[t], s.tags, s.epoch))
  }

  lemma {:induction false} TagsGrow(l: Local, tags: seq<nat>, epoch: nat, more: seq<nat>, later: nat)
    requires TaggedLocal(l, tags, epoch) && epoch <= later
    ensures TaggedLocal(l, tags + more, later)
  {
    assert forall x, b :: TagIs(tags, x, b) ==> TagIs(tags + more, x, b);
  }

  lemma {:induction false} StepTagged(s: State, a: Action)
    requires Tagged(s) && Enabled(s, a) && (a.Advance? ==> s.epoch + 1 < U64)
    ensures Tagged(Do(s, a)) && Do(s, a).epoch == s.epoch + (if a.Advance? then 1 else 0) && s.tags <= Do(s, a).tags
  {
    hide TaggedLocal;
    var s' := Do(s, a);
    var more := if a.Defer? then [s.epoch] else [];
    assert s'.tags == s.tags + more;
    forall t | 0 <= t < |s'.threads| ensures TaggedLocal(s'.threads[t], s'.tags, s'.epoch) {
      TagsGrow(s.threads[t], s.tags, s.epoch, more, s'.epoch);
      if t == a.t {
        ActorTagged(s, a);
      }
    }
    BucketsTagged(s, a);
  }

  lemma {:induction false} ActorTagged(s: State, a: Action)
    requires Tagged(s) && Enabled(s, a) && (a.Advance? ==> s.epoch + 1 < U64)
    ensures TaggedLocal(Do(s, a).threads[a.t], Do(s, a).tags, Do(s, a).epoch)
  {
    var l, l' := s.threads[a.t], Do(s, a).threads[a.t];
    assert TaggedLocal(l, s.tags, s.epoch);
    if l'.Deleting? {
      assert Do(s, a).tags == s.tags;
      forall x | x in l'.rest ensures TagIs(s.tags, x, (l'.read - 2) % EPOCHS) {
        assert if l.Deleting? then x in l.rest else x in s.retired[l.bucket];
      }
    }
  }

  lemma {:induction false} BucketsTagged(s: State, a: Action)
    requires Tagged(s) && Enabled(s, a)
    ensures var s' := Do(s, a);
            forall b, x :: 0 <= b < EPOCHS && x in s'.retired[b] ==> TagIs(s'.tags, x, b)
  {
    var s' := Do(s, a);
    assert TaggedLocal(s.threads[a.t], s.tags, s.epoch);
    assert forall x, b :: TagIs(s.tags, x, b) ==> TagIs(s'.tags, x, b);
    forall b, x | 0 <= b < EPOCHS && x in s'.retired[b] ensures TagIs(s'.tags, x, b) {
      assert x in s.retired[b] || (a.Append? && s.threads[a.t] == Appending(x, b));
    }
  }

  lemma {:induction false} RunTagged(s: State, run: seq<Action>)
    requires Tagged(s) && Legal(s, run) && s.epoch + Advances(run) < U64
    ensures Tagged(After(s, run)) && After(s, run).epoch == s.epoch + Advances(run)
    decreases |run|
  {
    hide Tagged, Enabled, Do;
    if run != [] {
      StepTagged(s, run[0]);
      RunTagged(Do(s, run[0]), run[1..]);
    }
  }

  // Over every run, with force_gc or without, that does not exhaust the 64-bit
  // epoch: try_gc deletes an object either because it had read the epoch
  // before the object was deferred, or because three more calls have advanced
  // it since. The epoch is the number of advances so far, and an object's tag
  // and a collector's `read` are what it was when they were made.
  lemma {:induction false} CollectorOf(n: nat, run: seq<Action>, u: nat, x: Token)
    requires Legal(Init(n), run) && Advances(run) < U64 && u < |After(Init(n), run).threads|
    requires var l := After(Init(n), run).threads[u]; l.Deleting? && x in l.rest
    ensures var s := After(Init(n), run);
            x < |s.tags| && s.epoch == Advances(run) &&
            var e, read := s.tags[x], s.threads[u].read;
            read < s.epoch && (read < e || e + 2 <= read) && (s.epoch < e + 3 ==> read < e)
  {
    RunTagged(Init(n), run);
    assert TaggedLocal(After(Init(n), run).threads[u], After(Init(n), run).tags, After(Init(n), run).epoch);
  }

  // ---- When an object can be destroyed early ----

  // Thread l will take bucket b without advancing the epoch or starting a
  // force_gc first.
  predicate Threat(l: Local, b: nat) {
    match l
    case Taking(b', _) => b' == b
    case Forcing(next, _) => next <= b
    case ForceDeleting(_, _, next, _) => next < b
    case _ => false
  }

  // Object x is in bucket b or about to be appended to it, and nobody will
  // take that bucket.
  predicate ClearLocal(l: Local, x: Token, b: nat) {
    !Threat(l, b) && (l.Appending? && l.obj == x ==> l.bucket == b) && (!l.Appending? ==> x !in InHand(l))
  }

  ghost predicate Clear(s: State, x: Token, b: nat) {
    |s.retired| == EPOCHS && x < s.deferred && x !in s.destroyed &&
    (forall b' :: 0 <= b' < EPOCHS && b' != b ==> x !in s.retired[b']) &&
    (forall t :: 0 <= t < |s.threads| ==> ClearLocal(s.threads[t], x, b))
  }

  lemma {:induction false} StepClear(s: State, a: Action, x: Token, b: nat)
    requires Clear(s, x, b) && Enabled(s, a) && !a.Force?
    requires a.Advance? ==> s.epoch < 2 || (s.epoch - 2) % EPOCHS != b
    ensures Clear(Do(s, a), x, b)
  {
    assert ClearLocal(s.threads[a.t], x, b);
  }

  lemma {:induction false} StepEpoch(s: State, a: Action)
    requires Enabled(s, a) && s.epoch < U64
    ensures Do(s, a).epoch == if a.Advance? then (s.epoch + 1) % U64 else s.epoch
    ensures Do(s, a).epoch < U64
  {
  }

  // Up to two advances leave bucket e % 3 alone, even past the largest epoch.
  lemma {:induction false} StayClear(s: State, run: seq<Action>, x: Token, e: nat, k: nat)
    requires Clear(s, x, e % EPOCHS) && Legal(s, run) && NoForce(run)
    requires e < U64 && s.epoch == (e + k) % U64 && k + Advances(run) <= 2
    ensures Clear(After(s, run), x, e % EPOCHS)
    decreases |run|
  {
    hide Clear, Enabled, Do;
    if run != [] {
      var a := run[0];
      StepEpoch(s, a);
      assert a.Advance? ==> s.epoch < 2 || (s.epoch - 2) % EPOCHS != e % EPOCHS;
      StepClear(s, a, x, e % EPOCHS);
      assert forall c :: c in run[1..] ==> c in run;
      StayClear(Do(s, a), run[1..], x, e, if a.Advance? then k + 1 else k);
    }
  }

  lemma {:induction false} RunEpoch(s: State, run: seq<Action>)
    requires Legal(s, run) && s.epoch < U64
    ensures After(s, run).epoch < U64
    decreases |run|
  {
    hide Enabled, Do;
    if run != [] {
      StepEpoch(s, run[0]);
      RunEpoch(Do(s, run[0]), run[1..]);
    }
  }

  lemma {:induction false} InNoHand(ts: seq<Local>, x: Token)
    requires Hands(ts, x) == 0
    ensures forall t :: 0 <= t < |ts| ==> x !in InHand(ts[t])
  {
    hide InHand;
    if ts != [] {
      assert multiset(InHand(ts[0]))[x] == 0;
      InNoHand(ts[1..], x);
      assert forall t :: 0 < t < |ts| ==> ts[t] == ts[1..][t - 1];
    }
  }

  lemma {:induction false} InNoBucket(bs: seq<seq<Token>>, x: Token)
    requires Buckets(bs, x) == 0
    ensures forall b :: 0 <= b < |bs| ==> x !in bs[b]
  {
    if bs != [] {
      assert multiset(bs[0])[x] == 0;
      InNoBucket(bs[1..], x);
      assert forall b :: 0 < b < |bs| ==> bs[b] == bs[1..][b - 1];
    }
  }

  // What is deferred while nobody is about to take its bucket survives any
  // steps that advance the epoch at most twice and start no force_gc.
  lemma {:induction false} SafeWindow(n: nat, run: seq<Action>, t: nat, more: seq<Action>)
    requires Legal(Init(n), run) && Enabled(After(Init(n), run), Defer(t))
    requires var s := After(Init(n), run);
             (forall u :: 0 <= u < |s.threads| ==> !Threat(s.threads[u], s.epoch % EPOCHS)) &&
             Legal(Do(s, Defer(t)), more)
    requires NoForce(more) && Advances(more) <= 2
    ensures var s := After(Init(n), run);
            s.deferred !in After(Do(s, Defer(t)), more).destroyed
  {
    var s := After(Init(n), run);
    var x := s.deferred;
    InitInv(n);
    RunInv(Init(n), run);
    RunEpoch(Init(n), run);
    assert Places(s, x) == 0;
    InNoHand(s.threads, x);
    InNoBucket(s.retired, x);
    assert multiset(s.destroyed)[x] == 0;
    StayClear(Do(s, Defer(t)), more, x, s.epoch, 0);
  }

  // ---- The other half: a run that destroys it ----

  predicate Quiet(run: seq<Action>) {
    forall a :: a in run ==> !a.Force? && !a.Advance?
  }

  lemma {:induction false} QuietAdvances(run: seq<Action>)
    requires Quiet(run)
    ensures Advances(run) == 0 && NoForce(run)
  {
    if run != [] {
      assert forall a :: a in run[1..] ==> a in run;
      QuietAdvances(run[1..]);
    }
  }

  // One more step in front of a quiet run that destroys x.
  lemma {:induction false} Before(s: State, a: Action, rest: seq<Action>, x: Token) returns (run: seq<Action>)
    requires Enabled(s, a) && !a.Force? && !a.Advance?
    requires Legal(Do(s, a), rest) && Quiet(rest) && x in After(Do(s, a), rest).destroyed
    ensures Legal(s, run) && Quiet(run) && x in After(s, run).destroyed
  {
    hide Enabled, Do;
    run := [a] + rest;
    assert run[1..] == rest;
  }

  lemma {:induction false} DeleteUntil(s: State, u: nat, x: Token) returns (run: seq<Action>)
    requires |s.retired| == EPOCHS && u < |s.threads| && (s.threads[u].Deleting? || s.threads[u].ForceDeleting?)
    requires x in s.threads[u].rest
    ensures Legal(s, run) && Quiet(run) && x in After(s, run).destroyed
    decreases |s.threads[u].rest|
  {
    var s' := Do(s, Destroy(u));
    var rest: seq<Action> := [];
    if s.threads[u].rest[0] == x {
      assert x in s'.destroyed;
    } else {
      rest := DeleteUntil(s', u, x);
    }
    run := Before(s, Destroy(u), rest, x);
  }

  // A force_gc in progress gets to bucket b.
  lemma {:induction false} ForceUntil(s: State, u: nat, b: nat, x: Token) returns (run: seq<Action>)
    requires |s.retired| == EPOCHS && u < |s.threads| && b < EPOCHS && x in s.retired[b]
    requires var l := s.threads[u]; (l.Forcing? && l.next <= b) || (l.ForceDeleting? && l.next < b)
    ensures Legal(s, run) && Quiet(run) && x in After(s, run).destroyed
    decreases b - s.threads[u].next, if s.threads[u].Forcing? then 1 else 0,
              if s.threads[u].ForceDeleting? then |s.threads[u].rest| else 0
  {
    var l := s.threads[u];
    var rest;
    if l.Forcing? {
      var s' := Do(s, Take(u));
      if l.next == b {
        rest := DeleteUntil(s', u, x);
      } else {
        rest := ForceUntil(s', u, b, x);
      }
      run := Before(s, Take(u), rest, x);
    } else if l.rest != [] {
      rest := ForceUntil(Do(s, Destroy(u)), u, b, x);
      run := Before(s, Destroy(u), rest, x);
    } else {
      rest := ForceUntil(Do(s, Finish(u)), u, b, x);
      run := Before(s, Finish(u), rest, x);
    }
  }

  lemma {:induction false} ThreatStrikes(s: State, t: nat, u: nat) returns (run: seq<Action>)
    requires Enabled(s, Defer(t)) && u < |s.threads| && Threat(s.threads[u], s.epoch % EPOCHS)
    ensures Legal(Do(s, Defer(t)), run) && Quiet(run) && s.deferred in After(Do(s, Defer(t)), run).destroyed
  {
    var b, x := s.epoch % EPOCHS, s.deferred;
    var s1 := Do(s, Defer(t));
    var s2 := Do(s1, Append(t));
    assert s2.threads[u] == s.threads[u] && x in s2.retired[b];
    var rest;
    if s.threads[u].Taking? {
      rest := DeleteUntil(Do(s2, Take(u)), u, x);
      rest := Before(s2, Take(u), rest, x);
    } else {
      rest := ForceUntil(s2, u, b, x);
    }
    run := Before(s1, Append(t), rest, x);
  }

  // In every reachable state: an object deferred now can be destroyed before
  // three more calls of try_gc have advanced the epoch, and before another
  // force_gc starts, if and only if some thread is already about to take the
  // bucket it goes to.
  lemma {:induction false} EarlyIff(n: nat, run: seq<Action>, t: nat)
    requires Legal(Init(n), run) && Enabled(After(Init(n), run), Defer(t))
    ensures var s := After(Init(n), run);
            (exists more ::
               Legal(Do(s, Defer(t)), more) && NoForce(more) && Advances(more) <= 2 &&
               s.deferred in After(Do(s, Defer(t)), more).destroyed)
            <==> exists u :: 0 <= u < |s.threads| && Threat(s.threads[u], s.epoch % EPOCHS)
  {
    hide Do, Enabled, Threat;
    var s := After(Init(n), run);
    if u :| 0 <= u < |s.threads| && Threat(s.threads[u], s.epoch % EPOCHS) {
      var more := ThreatStrikes(s, t, u);
      QuietAdvances(more);
    }
    if more :|
      Legal(Do(s, Defer(t)), more) && NoForce(more) && Advances(more) <= 2 &&
      s.deferred in After(Do(s, Defer(t)), more).destroyed
    {
      if forall u :: 0 <= u < |s.threads| ==> !Threat(s.threads[u], s.epoch % EPOCHS) {
        SafeWindow(n, run, t, more);
      }
    }
  }

  // ---- Two runs ----

  // The run ends in state s.
  ghost predicate EndsIn(from: State, run: seq<Action>, s: State) {
    Legal(from, run) && After(from, run) == s
  }

  lemma {:induction false} Then(from: State, run: seq<Action>, s: State, a: Action)
    requires EndsIn(from, run, s) && Enabled(s, a)
    ensures EndsIn(from, run + [a], Do(s, a))
    decreases |run|
  {
    hide Enabled, Do;
    if run == [] {
      assert run + [a] == [a] && [a][1..] == [];
      assert Legal(Do(s, a), []) && After(Do(s, a), []) == Do(s, a);
    } else {
      assert (run + [a])[1..] == run[1..] + [a];
      Then(Do(from, run[0]), run[1..], s, a);
    }
  }

  // Two threads, and a third call of try_gc in progress while an object is
  // deferred: it is destroyed although no call advanced the epoch since.
  lemma {:induction false} OverlapDestroys()
    ensures var run := [Advance(0), Advance(0), Advance(0), Defer(1), Append(1), Take(0), Destroy(0)];
            Legal(Init(2), run) && After(Init(2), run).destroyed == [0]
  {
    hide Legal, After, Init;
    var s := Overlapping(2);
    var run := [Advance(0), Advance(0), Advance(0), Defer(1), Append(1)];
    Then(Init(2), run, s, Take(0));
    Then(Init(2), run + [Take(0)], Do(s, Take(0)), Destroy(0));
    assert run + [Take(0)] + [Destroy(0)] == [Advance(0), Advance(0), Advance(0), Defer(1), Append(1), Take(0), Destroy(0)];
  }

  // An overlapping collector may also be slow: here three more calls advance
  // the epoch before it takes the object.
  lemma {:induction false} SlowCollector() returns (run: seq<Action>)
    ensures Legal(Init(5), run) && Advances(run) == 6
    ensures var s := After(Init(5), run);
            |s.threads| == 5 && |s.tags| == 1 && s.threads[0].Deleting? && s.threads[0].rest == [0] && s.epoch == s.tags[0] + 3 && s.threads[0].read < s.tags[0]
  {
    hide Legal, After, Init, Advances;
    var s := Overlapping(5);
    run := [Advance(0), Advance(0), Advance(0), Defer(1), Append(1)];
    for u := 2 to 5
      invariant EndsIn(Init(5), run, s) && |s.threads| == 5 && s.threads[0] == Taking(0, 2)
      invariant (forall v :: u <= v < 5 ==> s.threads[v] == Idle) && |s.retired| == EPOCHS && s.retired[0] == [0]
      invariant s.epoch == 1 + u && s.tags == [3] && |run| == 3 + u && Advances(run) == 1 + u
    {
      Then(Init(5), run, s, Advance(u));
      AdvancesConcat(run, Advance(u));
      s, run := Do(s, Advance(u)), run + [Advance(u)];
    }
    Then(Init(5), run, s, Take(0));
    AdvancesConcat(run, Take(0));
    run := run + [Take(0)];
  }

  lemma {:induction false} AdvancesConcat(run: seq<Action>, a: Action)
    ensures Advances(run + [a]) == Advances(run) + (if a.Advance? then 1 else 0)
  {
    if run == [] {
      assert run + [a] == [a] && [a][1..] == [];
    } else {
      assert (run + [a])[1..] == run[1..] + [a];
      AdvancesConcat(run[1..], a);
    }
  }

  // The collector of thread 0 has read epoch 2, the object is in its bucket.
  lemma {:induction false} Overlapping(n: nat) returns (s: State)
    requires n >= 2
    ensures var run := [Advance(0), Advance(0), Advance(0), Defer(1), Append(1)];
            EndsIn(Init(n), run, s) && Advances(run) == 3
    ensures |s.threads| == n && s.threads[0] == Taking(0, 2) && (forall u :: 0 < u < n ==> s.threads[u] == Idle)
    ensures s.epoch == 3 && s.retired == [[0], [], []] && s.destroyed == [] && s.tags == [3]
  {
    hide EndsIn, Advances;
    var s3 := ThreeAdvances(n);
    var run := [Advance(0), Advance(0), Advance(0)];
    OneObject(n, s3, run);
    s := Do(Do(s3, Defer(1)), Append(1));
    assert run + [Defer(1), Append(1)] == [Advance(0), Advance(0), Advance(0), Defer(1), Append(1)];
    assert s3.retired[0] + [0] == [0] && s3.epoch % EPOCHS == 0;
    assert s.retired == s3.retired[0 := [0]];
  }

  lemma {:induction false} ThreeAdvances(n: nat) returns (s: State)
    requires n >= 2
    ensures var run := [Advance(0), Advance(0), Advance(0)]; EndsIn(Init(n), run, s) && Advances(run) == 3
    ensures |s.threads| == n && s.threads[0] == Taking(0, 2) && (forall u :: 0 < u < n ==> s.threads[u] == Idle)
    ensures s.epoch == 3 && s.retired == [[], [], []] && s.destroyed == [] && s.tags == [] && s.deferred == 0
  {
    s := Init(n);
    var run: seq<Action> := [];
    assert |s.retired| == EPOCHS && forall b :: 0 <= b < EPOCHS ==> s.retired[b] == [];
    assert s.retired == [[], [], []] && |s.threads| == n && forall u :: 0 <= u < n ==> s.threads[u] == Idle;
    assert EndsIn(Init(n), run, s) && Advances(run) == 0;
    hide EndsIn, Advances, Init;
    for i := 0 to 3
      invariant EndsIn(Init(n), run, s) && Advances(run) == i
      invariant run == [Advance(0), Advance(0), Advance(0)][..i]
      invariant |s.threads| == n && (forall u :: 0 < u < n ==> s.threads[u] == Idle)
      invariant s.threads[0] == if i < 3 then Idle else Taking(0, 2)
      invariant s.epoch == i && s.retired == [[], [], []] && s.destroyed == [] && s.tags == [] && s.deferred == 0
    {
      Then(Init(n), run, s, Advance(0));
      AdvancesConcat(run, Advance(0));
      s, run := Do(s, Advance(0)), run + [Advance(0)];
    }
    assert run == [Advance(0), Advance(0), Advance(0)];
  }

  lemma {:induction false} OneObject(n: nat, s: State, run: seq<Action>)
    requires EndsIn(Init(n), run, s) && |s.threads| > 1 && s.threads[1] == Idle && |s.retired| == EPOCHS
    ensures Enabled(s, Defer(1)) && Enabled(Do(s, Defer(1)), Append(1))
    ensures EndsIn(Init(n), run + [Defer(1), Append(1)], Do(Do(s, Defer(1)), Append(1)))
    ensures Advances(run + [Defer(1), Append(1)]) == Advances(run)
  {
    hide EndsIn;
    Then(Init(n), run, s, Defer(1));
    AdvancesConcat(run, Defer(1));
    var longer := run + [Defer(1)];
    Then(Init(n), longer, Do(s, Defer(1)), Append(1));
    AdvancesConcat(longer, Append(1));
    assert longer + [Append(1)] == run + [Defer(1), Append(1)];
  }
}
