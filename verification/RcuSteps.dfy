// The read-copy-update value under every interleaving of its atomic accesses.
// A version is known by its address only, and the address of a version that
// nobody holds any more may be given to a new one.
module RcuSteps {
  import opened Outcomes

  type Addr = nat

  // A snapshot somebody keeps: its address and, for the proof, which
  // publication it was (0 is the initial value).
  datatype Held = Held(addr: Addr, version: nat)

  datatype Phase =
    | Idle
    | Storing(new_: Addr)      // update has made its new version
    | Swapping(new_: Addr)     // compare_and_update has made its new version
    | Published                // the new version is in place, not yet counted

  // A caller with the snapshot it last read. A thread that keeps several
  // snapshots is several callers.
  datatype Caller = Caller(held: Option<Held>, phase: Phase)

  datatype State = State(current: Addr, contents: map<Addr, int>, callers: seq<Caller>, count: nat, history: seq<int>)

  datatype Action =
    | Read(t: nat)
    | Release(t: nat)
    | MakeUpdate(t: nat, addr: Addr, value: int)
    | MakeSwap(t: nat, addr: Addr, value: int)
    | Store(t: nat)
    | Swap(t: nat)
    | Count(t: nat)

  function Init(n: nat, a: Addr, v: int): State {
    State(a, map[a := v], AllIdle(n), 0, [v])
  }

  function AllIdle(n: nat): seq<Caller> {
    seq(n, _ => Caller(None, Idle))
  }

  // Addresses that are in use: current, kept by a caller, or just made.
  predicate InUse(s: State, a: Addr) {
    a == s.current ||
    exists t :: 0 <= t < |s.callers| && (Keeps(s.callers[t], a) || Makes(s.callers[t], a))
  }

  predicate Keeps(c: Caller, a: Addr) {
    c.held.Some? && c.held.value.addr == a
  }

  predicate Makes(c: Caller, a: Addr) {
    (c.phase.Storing? || c.phase.Swapping?) && c.phase.new_ == a
  }

  predicate Enabled(s: State, a: Action) {
    a.t < |s.callers| &&
    var c := s.callers[a.t];
    match a
    case Read(_) => c.phase.Idle?
    case Release(_) => c.phase.Idle?
    case MakeUpdate(_, addr, _) => c.phase.Idle? && !InUse(s, addr)
    case MakeSwap(_, addr, _) => c.phase.Idle? && c.held.Some? && !InUse(s, addr)
    case Store(_) => c.phase.Storing? && c.phase.new_ in s.contents
    case Swap(_) => c.phase.Swapping? && c.held.Some? && c.phase.new_ in s.contents
    case Count(_) => c.phase.Published?
  }

  function At(s: State, t: nat, c: Caller): State
    requires t < |s.callers|
  {
    s.(callers := s.callers[t := c])
  }

  // The comparison looks at addresses.
  predicate Succeeds(s: State, t: nat)
    requires t < |s.callers| && s.callers[t].held.Some?
  {
    s.current == s.callers[t].held.value.addr
  }

  function Publish(s: State, t: nat): State
    requires t < |s.callers| && (s.callers[t].phase.Storing? || s.callers[t].phase.Swapping?)
    requires s.callers[t].phase.new_ in s.contents
  {
    var a := s.callers[t].phase.new_;
    At(s, t, s.callers[t].(phase := Published)).(current := a, history := s.history + [s.contents[a]])
  }

  function Do(s: State, a: Action): State
    requires Enabled(s, a) && s.history != []
  {
    var c := s.callers[a.t];
    match a
    case Read(t) => At(s, t, c.(held := Some(Held(s.current, |s.history| - 1))))
    case Release(t) => At(s, t, c.(held := None))
    case MakeUpdate(t, addr, v) => At(s, t, c.(phase := Storing(addr))).(contents := s.contents[addr := v])
    case MakeSwap(t, addr, v) => At(s, t, c.(phase := Swapping(addr))).(contents := s.contents[addr := v])
    case Store(t) => Publish(s, t)
    case Swap(t) => if Succeeds(s, t) then Publish(s, t) else At(s, t, c.(phase := Idle))
    case Count(t) => At(s, t, c.(phase := Idle)).(count := s.count + 1)
  }

  // ---- The invariant ----

  // What a caller keeps is the publication it read, and it is the current
  // address iff that publication is still the latest.
  ghost predicate CallerOk(s: State, c: Caller) {
    (c.held.Some? ==>
       var h := c.held.value;
       h.version < |s.history| && h.addr in s.contents && s.contents[h.addr] == s.history[h.version] &&
       (h.addr == s.current <==> h.version == |s.history| - 1)) &&
    (c.phase.Storing? || c.phase.Swapping? ==> c.phase.new_ in s.contents && c.phase.new_ != s.current)
  }

  // An address under construction is nobody else's.
  ghost predicate Private(s: State) {
    forall t, u :: 0 <= t < |s.callers| && 0 <= u < |s.callers| ==>
      forall a :: Makes(s.callers[t], a) ==> !Keeps(s.callers[u], a) && (t != u ==> !Makes(s.callers[u], a))
  }

  function Uncounted(cs: seq<Caller>): nat {
    if cs == [] then 0 else (if cs[0].phase.Published? then 1 else 0) + Uncounted(cs[1..])
  }

  ghost predicate Inv(s: State) {
    s.history != [] && s.current in s.contents && s.contents[s.current] == s.history[|s.history| - 1] &&
    (forall t :: 0 <= t < |s.callers| ==> CallerOk(s, s.callers[t])) && Private(s) &&
    s.count + Uncounted(s.callers) == |s.history| - 1
  }

  lemma {:induction false} UncountedUpdate(cs: seq<Caller>, i: nat, c: Caller)
    requires i < |cs|
    ensures Uncounted(cs[i := c]) + (if cs[i].phase.Published? then 1 else 0)
         == Uncounted(cs) + (if c.phase.Published? then 1 else 0)
  {
    if i == 0 {
      assert cs[0 := c][1..] == cs[1..];
    } else {
      UncountedUpdate(cs[1..], i - 1, c);
      assert cs[i := c][1..] == cs[1..][i - 1 := c];
    }
  }

  lemma {:induction false} NoneUncounted(n: nat)
    ensures Uncounted(AllIdle(n)) == 0
  {
    if n > 0 {
      NoneUncounted(n - 1);
      assert AllIdle(n)[1..] == AllIdle(n - 1);
    }
  }

  // What one step does to any caller t.
  lemma {:induction false} StepCaller(s: State, a: Action, t: nat)
    requires Inv(s) && Enabled(s, a) && t < |s.callers|
    ensures CallerOk(Do(s, a), Do(s, a).callers[t])
  {
    hide Uncounted, Private;
    var c, u := s.callers[t], s.callers[a.t];
    assert CallerOk(s, c) && CallerOk(s, u);
    match a
    case MakeUpdate(_, addr, _) => NotInUse(s, addr, t);
    case MakeSwap(_, addr, _) => NotInUse(s, addr, t);
    case Store(_) => MakesAlone(s, a.t, t);
    case Swap(_) => MakesAlone(s, a.t, t);
    case _ =>
  }

  lemma {:induction false} NotInUse(s: State, addr: Addr, t: nat)
    requires !InUse(s, addr) && t < |s.callers|
    ensures !Keeps(s.callers[t], addr) && !Makes(s.callers[t], addr) && addr != s.current
  {
  }

  lemma {:induction false} MakesAlone(s: State, t: nat, u: nat)
    requires Private(s) && t < |s.callers| && u < |s.callers|
    requires s.callers[t].phase.Storing? || s.callers[t].phase.Swapping?
    ensures var a := s.callers[t].phase.new_; !Keeps(s.callers[u], a) && (t != u ==> !Makes(s.callers[u], a))
  {
    assert Makes(s.callers[t], s.callers[t].phase.new_);
  }

  lemma {:induction false} StepPrivate(s: State, a: Action)
    requires Inv(s) && Enabled(s, a)
    ensures Private(Do(s, a))
  {
    hide Uncounted, Private;
    var s' := Do(s, a);
    forall t, u, x | 0 <= t < |s'.callers| && 0 <= u < |s'.callers| && Makes(s'.callers[t], x)
      ensures !Keeps(s'.callers[u], x) && (t != u ==> !Makes(s'.callers[u], x))
    {
      assert CallerOk(s, s.callers[t]);
      if Makes(s.callers[t], x) {
        MakesAlone(s, t, u);
        if a.MakeUpdate? || a.MakeSwap? {
          NotInUse(s, a.addr, t);
        }
      } else {
        NotInUse(s, x, u);
      }
    }
    assert Private(s') by {
      PrivateFrom(s');
    }
  }

  lemma {:induction false} PrivateFrom(s: State)
    requires forall t, u, x :: 0 <= t < |s.callers| && 0 <= u < |s.callers| && Makes(s.callers[t], x) ==>
               !Keeps(s.callers[u], x) && (t != u ==> !Makes(s.callers[u], x))
    ensures Private(s)
  {
  }

  lemma {:induction false} StepInv(s: State, a: Action)
    requires Inv(s) && Enabled(s, a)
    ensures Inv(Do(s, a))
  {
    hide Uncounted, Private, CallerOk;
    var s' := Do(s, a);
    UncountedUpdate(s.callers, a.t, s'.callers[a.t]);
    assert s'.callers == s.callers[a.t := s'.callers[a.t]];
    forall t | 0 <= t < |s.callers| ensures CallerOk(s', s'.callers[t]) {
      StepCaller(s, a, t);
    }
    StepPrivate(s, a);
    StepCurrent(s, a);
  }

  lemma {:induction false} StepCurrent(s: State, a: Action)
    requires Inv(s) && Enabled(s, a)
    ensures var s' := Do(s, a);
            s'.current in s'.contents && s'.contents[s'.current] == s'.history[|s'.history| - 1]
  {
    hide Uncounted, Private, CallerOk;
    if a.MakeUpdate? || a.MakeSwap? {
      NotInUse(s, a.addr, a.t);
    }
  }

  // ---- Runs ----

  predicate Legal(s: State, run: seq<Action>)
    requires s.history != []
    decreases |run|
  {
    run == [] || (Enabled(s, run[0]) && Legal(Do(s, run[0]), run[1..]))
  }

  function After(s: State, run: seq<Action>): (r: State)
    requires s.history != [] && Legal(s, run)
    ensures r.history != []
    decreases |run|
  {
    if run == [] then s else After(Do(s, run[0]), run[1..])
  }

  lemma {:induction false} RunInv(s: State, run: seq<Action>)
    requires Inv(s) && Legal(s, run)
    ensures Inv(After(s, run))
    decreases |run|
  {
    if run != [] {
      StepInv(s, run[0]);
      RunInv(Do(s, run[0]), run[1..]);
    }
  }

  lemma {:induction false} InitInv(n: nat, a: Addr, v: int)
    ensures Inv(Init(n, a, v))
  {
    NoneUncounted(n);
  }

  // In every reachable state a compare_and_update succeeds iff nothing has
  // been published since its expected version was read, although it compares
  // addresses and addresses are reused.
  lemma {:induction false} SwapIffUnchanged(n: nat, a: Addr, v: int, run: seq<Action>, t: nat)
    requires Legal(Init(n, a, v), run) && Enabled(After(Init(n, a, v), run), Swap(t))
    ensures var s := After(Init(n, a, v), run);
            Succeeds(s, t) <==> s.callers[t].held.value.version == |s.history| - 1
  {
    InitInv(n, a, v);
    RunInv(Init(n, a, v), run);
    assert CallerOk(After(Init(n, a, v), run), After(Init(n, a, v), run).callers[t]);
  }

  // update_count is the number of publications once no call is in flight.
  lemma {:induction false} CountsPublications(n: nat, a: Addr, v: int, run: seq<Action>)
    requires Legal(Init(n, a, v), run)
    requires forall t :: 0 <= t < |After(Init(n, a, v), run).callers| ==> !After(Init(n, a, v), run).callers[t].phase.Published?
    ensures var s := After(Init(n, a, v), run); s.count == |s.history| - 1
  {
    InitInv(n, a, v);
    RunInv(Init(n, a, v), run);
    NoPublished(After(Init(n, a, v), run).callers);
  }

  lemma {:induction false} NoPublished(cs: seq<Caller>)
    requires forall t :: 0 <= t < |cs| ==> !cs[t].phase.Published?
    ensures Uncounted(cs) == 0
  {
    if cs != [] {
      NoPublished(cs[1..]);
    }
  }

  // ---- Increment loops ----

  // A step of threads that only read, retry and add one to what they read.
  predicate Increments(s: State, a: Action)
    requires Enabled(s, a)
  {
    match a
    case MakeUpdate(_, _, _) => false
    case MakeSwap(t, _, v) =>
      s.callers[t].held.value.addr in s.contents && v == s.contents[s.callers[t].held.value.addr] + 1
    case _ => true
  }

  predicate Incrementing(s: State, run: seq<Action>)
    requires s.history != [] && Legal(s, run)
    decreases |run|
  {
    run == [] || (Increments(s, run[0]) && Incrementing(Do(s, run[0]), run[1..]))
  }

  // Each publication is the one before plus one, and so will be what is made.
  ghost predicate Ladder(s: State) {
    (forall i :: 0 < i < |s.history| ==> s.history[i] == s.history[i - 1] + 1) &&
    forall t :: 0 <= t < |s.callers| ==> LadderOk(s, s.callers[t])
  }

  ghost predicate LadderOk(s: State, c: Caller) {
    !c.phase.Storing? &&
    (c.phase.Swapping? ==> c.held.Some? && c.phase.new_ in s.contents && c.held.value.version < |s.history| &&
                           s.contents[c.phase.new_] == s.history[c.held.value.version] + 1)
  }

  lemma {:induction false} StepLadder(s: State, a: Action)
    requires Inv(s) && Ladder(s) && Enabled(s, a) && Increments(s, a)
    ensures Ladder(Do(s, a))
  {
    hide LadderOk, CallerOk, Private, Uncounted;
    forall t | 0 <= t < |s.callers| ensures LadderOk(Do(s, a), Do(s, a).callers[t]) {
      StepLadderOk(s, a, t);
    }
    Rung(s, a);
  }

  // What one step does to any caller t.
  lemma {:induction false} StepLadderOk(s: State, a: Action, t: nat)
    requires Inv(s) && Ladder(s) && Enabled(s, a) && Increments(s, a) && t < |s.callers|
    ensures LadderOk(Do(s, a), Do(s, a).callers[t])
  {
    hide Private, Uncounted;
    assert CallerOk(s, s.callers[a.t]) && LadderOk(s, s.callers[t]) && LadderOk(s, s.callers[a.t]);
    if a.MakeSwap? {
      NotInUse(s, a.addr, t);
    }
  }

  // What one step does to the publications.
  lemma {:induction false} Rung(s: State, a: Action)
    requires Inv(s) && Ladder(s) && Enabled(s, a) && Increments(s, a)
    ensures var h := Do(s, a).history; forall i :: 0 < i < |h| ==> h[i] == h[i - 1] + 1
  {
    hide Private, Uncounted;
    assert CallerOk(s, s.callers[a.t]) && LadderOk(s, s.callers[a.t]);
  }

  lemma {:induction false} RunLadder(s: State, run: seq<Action>)
    requires Inv(s) && Ladder(s) && Legal(s, run) && Incrementing(s, run)
    ensures Inv(After(s, run)) && Ladder(After(s, run)) && After(s, run).history[0] == s.history[0]
    decreases |run|
  {
    if run != [] {
      StepInv(s, run[0]);
      StepLadder(s, run[0]);
      RunLadder(Do(s, run[0]), run[1..]);
    }
  }

  lemma {:induction false} LadderTop(h: seq<int>, i: nat)
    requires i < |h| && forall j :: 0 < j < |h| ==> h[j] == h[j - 1] + 1
    ensures h[i] == h[0] + i
  {
    if i > 0 {
      LadderTop(h, i - 1);
    }
  }

  // However compare-and-update increment loops interleave, the value is the
  // initial one plus the number of successful swaps: no increment is lost.
  lemma {:induction false} NoLostIncrement(n: nat, a: Addr, v: int, run: seq<Action>)
    requires Legal(Init(n, a, v), run) && Incrementing(Init(n, a, v), run)
    ensures var s := After(Init(n, a, v), run);
            s.current in s.contents && s.contents[s.current] == v + (|s.history| - 1) &&
            s.count + Uncounted(s.callers) == |s.history| - 1
  {
    InitInv(n, a, v);
    RunLadder(Init(n, a, v), run);
    var s := After(Init(n, a, v), run);
    LadderTop(s.history, |s.history| - 1);
  }
}
