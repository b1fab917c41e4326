// Lock-free container readers: a published snapshot, refreshes that replace
// it, and the background thread of the auto-refreshing reader.
module SnapshotSteps {
  type Map = map<string, int>

  // A copy of the source map; instant is the number of writes before it.
  datatype Snapshot = Snapshot(content: Map, instant: nat)

  // A refresh: not running, about to copy, holding its copy, published.
  // since is the instant at which the refresh was called.
  datatype Refresh =
    | Quiet
    | Called(since: nat)
    | Copied(copy: Snapshot, since: nat)
    | Stored(since: nat)

  // The background thread: at the top of its loop, in its refresh, ended.
  datatype Loop = Checking | Refreshing | Ended

  // A call of stop: not made, waiting for the thread to end, returned. first
  // marks the call that found the reader running.
  datatype Stop = NotCalled | Joining | Returned(first: bool)

  // Refresher 0 is the background thread; the others are manual callers.
  datatype State = State(history: seq<Map>, published: Snapshot, refreshers: seq<Refresh>, count: nat,
                         running: bool, loop: Loop, stops: seq<Stop>)

  datatype Action =
    | Write(m: Map)          // a locked update of the source container
    | Call(t: nat)           // refresh() is called
    | Copy(t: nat)           // for_each under the container's lock
    | Publish(t: nat)        // atomic store of the snapshot
    | Finish(t: nat)         // fetch_add on refresh_count_
    | Check                  // the background thread looks at running_
    | SetStopped(c: nat)     // stop(): the locked part
    | Join(c: nat)           // stop(): join returns

  // After the reader's constructor, which refreshes once.
  function Init(m: Map, threads: nat, callers: nat): State {
    State([m], Snapshot(m, 0), seq(threads + 1, _ => Quiet), 1, true, Checking, seq(callers, _ => NotCalled))
  }

  predicate Enabled(s: State, a: Action) {
    s.history != [] &&
    match a
    case Write(_) => true
    case Call(t) => 0 < t < |s.refreshers| && s.refreshers[t].Quiet?
    case Copy(t) => t < |s.refreshers| && s.refreshers[t].Called?
    case Publish(t) => t < |s.refreshers| && s.refreshers[t].Copied?
    case Finish(t) => t < |s.refreshers| && s.refreshers[t].Stored?
    case Check => 0 < |s.refreshers| && s.loop.Checking? && s.refreshers[0].Quiet?
    case SetStopped(c) => c < |s.stops| && s.stops[c].NotCalled?
    case Join(c) => c < |s.stops| && s.stops[c].Joining? && s.loop.Ended?
  }

  function Now(s: State): nat
    requires s.history != []
  {
    |s.history| - 1
  }

  function At(s: State, t: nat, r: Refresh): State
    requires t < |s.refreshers|
  {
    s.(refreshers := s.refreshers[t := r])
  }

  function Do(s: State, a: Action): (r: State)
    requires Enabled(s, a)
    ensures r.history != []
  {
    match a
    case Write(m) => s.(history := s.history + [m])
    case Call(t) => At(s, t, Called(Now(s)))
    case Copy(t) => At(s, t, Copied(Snapshot(s.history[Now(s)], Now(s)), s.refreshers[t].since))
    case Publish(t) => At(s, t, Stored(s.refreshers[t].since)).(published := s.refreshers[t].copy)
    case Finish(t) =>
      At(s, t, Quiet).(count := s.count + 1, loop := if t == 0 && s.loop.Refreshing? then Checking else s.loop)
    case Check => if !s.running then s.(loop := Ended) else At(s, 0, Called(Now(s))).(loop := Refreshing)
    case SetStopped(c) =>
      if !s.running then s.(stops := s.stops[c := Returned(false)])
      else s.(running := false, stops := s.stops[c := Joining])
    case Join(c) => s.(stops := s.stops[c := Returned(true)])
  }

  // What get, contains, size, keys and for_each answer from: one load of the
  // published snapshot.
  function Answer(s: State): Map {
    s.published.content
  }

  predicate Past(s: State, x: Snapshot) {
    x.instant < |s.history| && x.content == s.history[x.instant]
  }

  // Snapshots, published or about to be, are the source map as it once was;
  // a copy is no older than the call of its refresh; the background thread
  // refreshes only inside its loop, and a first stop has returned only if
  // that loop has ended.
  ghost predicate Inv(s: State) {
    s.history != [] && |s.refreshers| > 0 && Past(s, s.published) &&
    (forall t :: 0 <= t < |s.refreshers| ==> RefreshOk(s, s.refreshers[t])) &&
    (s.loop.Refreshing? <==> !s.refreshers[0].Quiet?) &&
    (s.loop.Ended? ==> !s.running) &&
    (forall c :: 0 <= c < |s.stops| && s.stops[c] == Returned(true) ==> s.loop.Ended?) &&
    (forall c :: 0 <= c < |s.stops| && s.stops[c] != NotCalled ==> !s.running)
  }

  ghost predicate RefreshOk(s: State, r: Refresh) {
    match r
    case Quiet => true
    case Called(since) => since < |s.history|
    case Copied(copy, since) => Past(s, copy) && since <= copy.instant
    case Stored(since) => since < |s.history|
  }

  lemma {:induction false} StepInv(s: State, a: Action)
    requires Inv(s) && Enabled(s, a)
    ensures Inv(Do(s, a))
  {
    var s' := Do(s, a);
    assert forall i :: 0 <= i < |s.history| ==> s'.history[i] == s.history[i];
    forall t | 0 <= t < |s'.refreshers| ensures RefreshOk(s', s'.refreshers[t]) {
      assert RefreshOk(s, s.refreshers[t]);
    }
  }

  // ---- Runs ----

  predicate Legal(s: State, run: seq<Action>)
    decreases |run|
  {
    run == [] || (Enabled(s, run[0]) && Legal(Do(s, run[0]), run[1..]))
  }

  function After(s: State, run: seq<Action>): State
    requires Legal(s, run)
    decreases |run|
  {
    if run == [] then s else After(Do(s, run[0]), run[1..])
  }

  lemma {:induction false} RunInv(s: State, run: seq<Action>)
    requires Inv(s) && Legal(s, run)
    ensures Inv(After(s, run)) && s.history <= After(s, run).history
    decreases |run|
  {
    if run != [] {
      StepInv(s, run[0]);
      RunInv(Do(s, run[0]), run[1..]);
      assert s.history <= Do(s, run[0]).history;
    }
  }

  // Any read at any time answers from the source map as it was at one instant.
  lemma {:induction false} ReadsOneInstant(m: Map, threads: nat, callers: nat, run: seq<Action>)
    requires Legal(Init(m, threads, callers), run)
    ensures var s := After(Init(m, threads, callers), run);
            s.published.instant < |s.history| && Answer(s) == s.history[s.published.instant]
  {
    RunInv(Init(m, threads, callers), run);
  }

  // ---- One refresher ----

  predicate RefreshedBy(a: Action, t: nat) {
    match a
    case Call(u) => u == t
    case Copy(u) => u == t
    case Publish(u) => u == t
    case Finish(u) => u == t
    case Check => t == 0
    case _ => true
  }

  // Every refresh in the run is refresher t's.
  predicate OnlyRefresher(run: seq<Action>, t: nat) {
    forall i :: 0 <= i < |run| ==> RefreshedBy(run[i], t)
  }

  // With refresher t alone, its copy is no older than what is published, and
  // what it has published is no older than the call of its refresh.
  ghost predicate Forward(s: State, t: nat) {
    t < |s.refreshers| &&
    match s.refreshers[t]
    case Quiet => true
    case Called(since) => true
    case Copied(copy, since) => s.published.instant <= copy.instant
    case Stored(since) => since <= s.published.instant
  }

  lemma {:induction false} StepForward(s: State, a: Action, t: nat)
    requires Inv(s) && Enabled(s, a) && Forward(s, t) && RefreshedBy(a, t)
    ensures Forward(Do(s, a), t) && s.published.instant <= Do(s, a).published.instant
  {
    assert RefreshOk(s, s.refreshers[t]);
  }

  // With a single refresher the published instant never goes back, and once a
  // refresh has published, readers see nothing older than its call.
  lemma {:induction false} SingleRefresher(s: State, run: seq<Action>, t: nat)
    requires Inv(s) && Legal(s, run) && Forward(s, t) && OnlyRefresher(run, t)
    ensures var e := After(s, run);
            Inv(e) && Forward(e, t) && s.published.instant <= e.published.instant
    decreases |run|
  {
    if run != [] {
      assert RefreshedBy(run[0], t);
      StepForward(s, run[0], t);
      StepInv(s, run[0]);
      assert forall i :: 0 <= i < |run[1..]| ==> run[1..][i] == run[i + 1];
      SingleRefresher(Do(s, run[0]), run[1..], t);
    }
  }

  // One more action at the end of a run.
  lemma {:induction false} Extend(s: State, run: seq<Action>, a: Action) returns (longer: seq<Action>)
    requires Legal(s, run) && Enabled(After(s, run), a)
    ensures longer == run + [a] && Legal(s, longer) && After(s, longer) == Do(After(s, run), a)
    decreases |run|
  {
    longer := run + [a];
    if run == [] {
      assert longer[1..] == [];
    } else {
      var rest := Extend(Do(s, run[0]), run[1..], a);
      assert longer[1..] == rest;
    }
  }

  // How refresher t begins: the background thread at the top of its loop, a
  // manual caller with its call.
  function Begin(t: nat): Action {
    if t == 0 then Check else Call(t)
  }

  // Any two refreshers, the background thread among them or not, can turn the
  // snapshot back: the slower one publishes the copy it made before the other
  // started.
  lemma {:induction false} TwoRefreshersGoBack(m: Map, n: Map, threads: nat, callers: nat, t: nat, u: nat)
      returns (run: seq<Action>)
    requires t != u && t <= threads && u <= threads
    ensures Legal(Init(m, threads, callers), run) && (forall a :: a in run ==> Among(a, {t, u}))
    ensures var s := After(Init(m, threads, callers), run);
            Answer(s) == n && s.published.instant == 1 && Enabled(s, Publish(t)) &&
            Answer(Do(s, Publish(t))) == m && Do(s, Publish(t)).published.instant == 0
  {
    var s := Init(m, threads, callers);
    assert s.running && s.loop.Checking? && s.history == [m] && s.published == Snapshot(m, 0);
    assert |s.refreshers| == threads + 1 && s.refreshers[t].Quiet? && s.refreshers[u].Quiet?;
    hide Legal, After, Init;
    run := Start(s);
    run := Copies(s, run, t);
    run := Extend(s, run, Write(n));
    run := Copies(s, run, u);
    run := Extend(s, run, Publish(u));
  }

  // Refresher t begins and copies.
  lemma {:induction false} Copies(s: State, run: seq<Action>, t: nat) returns (longer: seq<Action>)
    requires Legal(s, run) && After(s, run).history != []
    requires var e := After(s, run); t < |e.refreshers| && e.refreshers[t].Quiet? && (t == 0 ==> e.running && e.loop.Checking?)
    ensures longer == run + [Begin(t), Copy(t)] && Legal(s, longer)
    ensures var e := After(s, run);
            After(s, longer) == At(e, t, Copied(Snapshot(e.history[Now(e)], Now(e)), Now(e)))
                                  .(loop := if t == 0 then Refreshing else e.loop)
  {
    hide Legal, After;
    longer := Extend(s, run, Begin(t));
    longer := Extend(s, longer, Copy(t));
  }

  // A step that is no refresh, or one of the given refreshers'.
  predicate Among(a: Action, r: set<nat>) {
    match a
    case Call(u) => u in r
    case Copy(u) => u in r
    case Publish(u) => u in r
    case Finish(u) => u in r
    case Check => 0 in r
    case _ => true
  }

  // A run in which only refreshers of r refresh ends with a step that turns
  // the published snapshot back.
  ghost predicate GoesBack(s: State, r: set<nat>, run: seq<Action>, a: Action) {
    Legal(s, run) && (forall b :: b in run ==> Among(b, r)) && Among(a, r) &&
    Enabled(After(s, run), a) && Do(After(s, run), a).published.instant < After(s, run).published.instant
  }

  // The snapshot can go back exactly when two different refreshers are used.
  lemma {:induction false} GoesBackIff(m: Map, threads: nat, callers: nat, r: set<nat>)
    requires forall t :: t in r ==> t <= threads
    ensures (exists run, a :: GoesBack(Init(m, threads, callers), r, run, a)) <==> exists t, u :: t in r && u in r && t != u
  {
    hide Legal, After;
    var s := Init(m, threads, callers);
    if t, u :| t in r && u in r && t != u {
      var run := TwoRefreshersGoBack(m, m, threads, callers, t, u);
      AmongFewer(run, {t, u}, r);
      assert GoesBack(s, r, run, Publish(t));
    }
    if run, a :| GoesBack(s, r, run, a) {
      if forall t, u :: t in r && u in r ==> t == u {
        var t := if r == {} then 0 else OneOf(r);
        assert r <= {t};
        AmongFewer(run, r, {t});
        AmongFewer([a], r, {t});
        OneAmong(run, t);
        OneAmong([a], t);
        assert RefreshedBy([a][0], t);
        SingleRefresher(s, run, t);
        StepForward(After(s, run), a, t);
      }
    }
  }

  lemma {:induction false} AmongFewer(run: seq<Action>, q: set<nat>, r: set<nat>)
    requires q <= r && forall a :: a in run ==> Among(a, q)
    ensures forall a :: a in run ==> Among(a, r)
  {
    forall a | a in run ensures Among(a, r) {
      assert Among(a, q);
    }
  }

  lemma {:induction false} OneAmong(run: seq<Action>, t: nat)
    requires forall a :: a in run ==> Among(a, {t})
    ensures OnlyRefresher(run, t)
  {
    forall i | 0 <= i < |run| ensures RefreshedBy(run[i], t) {
      assert Among(run[i], {t});
    }
  }

  ghost function OneOf(r: set<nat>): (t: nat)
    requires r != {}
    ensures t in r
  {
    var t :| t in r; t
  }

  lemma {:induction false} Start(s: State) returns (run: seq<Action>)
    ensures run == [] && Legal(s, run) && After(s, run) == s
  {
    run := [];
  }

  // ---- Stopping ----

  // Once the first stop has returned, the background thread takes no further
  // step: whatever is published after that, a manual refresh published.
  lemma {:induction false} OnlyManualAfterStop(s: State, run: seq<Action>, c: nat)
    requires Inv(s) && Legal(s, run) && c < |s.stops| && s.stops[c] == Returned(true)
    ensures forall i :: 0 <= i < |run| ==> run[i] != Check && run[i] != Copy(0) && run[i] != Publish(0) && run[i] != Finish(0)
    decreases |run|
  {
    if run != [] {
      assert s.loop.Ended? && s.refreshers[0].Quiet?;
      StepInv(s, run[0]);
      OnlyManualAfterStop(Do(s, run[0]), run[1..], c);
      assert forall i :: 0 < i < |run| ==> run[i] == run[1..][i - 1];
    }
  }

  // A second stop promises less: it can return while the background thread
  // is still in a refresh, which then publishes.
  lemma {:induction false} SecondStopReturnsEarly(m: Map, n: Map) returns (run: seq<Action>)
    requires m != n
    ensures Legal(Init(m, 0, 2), run)
    ensures var s := After(Init(m, 0, 2), run);
            |s.stops| == 2 && s.stops[1] == Returned(false) && Answer(s) == m &&
            Enabled(s, Publish(0)) && Answer(Do(s, Publish(0))) == n
  {
    hide Legal, After;
    run := Start(Init(m, 0, 2));
    run := Extend(Init(m, 0, 2), run, Write(n));
    run := Extend(Init(m, 0, 2), run, Check);
    run := Extend(Init(m, 0, 2), run, Copy(0));
    run := Extend(Init(m, 0, 2), run, SetStopped(0));
    run := Extend(Init(m, 0, 2), run, SetStopped(1));
  }

  // Once stop was called, the background thread can publish again exactly if
  // it is in a refresh that has not published.
  lemma {:induction false} NoNewRefresh(s: State, run: seq<Action>)
    requires Legal(s, run) && !s.running && |s.refreshers| > 0
    requires s.refreshers[0].Quiet? || s.refreshers[0].Stored?
    ensures Publish(0) !in run
    decreases |run|
  {
    if run != [] {
      assert run[0] != Publish(0);
      NoNewRefresh(Do(s, run[0]), run[1..]);
      assert run == [run[0]] + run[1..];
    }
  }

  // In every reachable state in which a call of stop has returned, the first
  // or a later one: the background thread can still publish if and only if it
  // has begun a refresh that has not published.
  lemma {:induction false} PublishesAfterStop(m: Map, threads: nat, callers: nat, run: seq<Action>, c: nat)
    requires Legal(Init(m, threads, callers), run)
    requires var s := After(Init(m, threads, callers), run); c < |s.stops| && s.stops[c].Returned? && |s.refreshers| > 0
    ensures var s := After(Init(m, threads, callers), run);
            (exists more :: Legal(s, more) && Publish(0) in more) <==> s.refreshers[0].Called? || s.refreshers[0].Copied?
  {
    var s := After(Init(m, threads, callers), run);
    RunInv(Init(m, threads, callers), run);
    assert !s.running && s.history != [];
    if s.refreshers[0].Called? || s.refreshers[0].Copied? {
      var more := StillPublishes(s);
      assert Legal(s, more) && Publish(0) in more;
    } else {
      forall more | Legal(s, more) ensures Publish(0) !in more {
        NoNewRefresh(s, more);
      }
    }
  }

  lemma {:induction false} StillPublishes(s: State) returns (more: seq<Action>)
    requires s.history != [] && |s.refreshers| > 0 && (s.refreshers[0].Called? || s.refreshers[0].Copied?)
    ensures Legal(s, more) && Publish(0) in more
  {
    hide Legal, After;
    more := Start(s);
    if s.refreshers[0].Called? {
      more := Extend(s, more, Copy(0));
    }
    more := Extend(s, more, Publish(0));
  }
}
