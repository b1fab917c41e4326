// What a run of read-copy-update calls publishes, read off the run alone.
module RcuPublications {
  import opened Outcomes
  import opened RcuSteps

  predicate Gives(a: Action, t: nat) {
    (a.MakeUpdate? || a.MakeSwap?) && a.t == t
  }

  // The value caller t gave last.
  function Given(run: seq<Action>, t: nat): Option<int> {
    if run == [] then None
    else if Gives(run[|run| - 1], t) then Some(run[|run| - 1].value)
    else Given(run[..|run| - 1], t)
  }

  // How many actions precede caller t's last read.
  function LastRead(run: seq<Action>, t: nat): (n: nat)
    ensures n <= |run|
    ensures run != [] ==> n < |run|
  {
    if run == [] then 0
    else if run[|run| - 1] == Read(t) then |run| - 1
    else LastRead(run[..|run| - 1], t)
  }

  // The values published, in order: an update publishes when it stores, and
  // a compare_and_update when nothing was published since its caller's last
  // read.
  function Publications(run: seq<Action>): seq<int>
    decreases |run|
  {
    if run == [] then []
    else
      var before, a := run[..|run| - 1], run[|run| - 1];
      var sofar := Publications(before);
      var value := match Given(before, a.t) case Some(v) => [v] case None => [];
      match a
      case Store(_) => sofar + value
      case Swap(t) => if |Publications(before[..LastRead(before, t)])| == |sofar| then sofar + value else sofar
      case _ => sofar
  }

  // What the state remembers of the run that led to it.
  ghost predicate Follows(s: State, v: int, run: seq<Action>) {
    Inv(s) && s.history == [v] + Publications(run) &&
    forall t :: 0 <= t < |s.callers| ==> CallerFollows(s, s.callers[t], t, run)
  }

  ghost predicate CallerFollows(s: State, c: Caller, t: nat, run: seq<Action>) {
    (c.held.Some? ==> c.held.value.version == |Publications(run[..LastRead(run, t)])|) &&
    (c.phase.Storing? || c.phase.Swapping? ==> c.phase.new_ in s.contents && Given(run, t) == Some(s.contents[c.phase.new_]))
  }

  lemma {:induction false} Before(run: seq<Action>, a: Action)
    ensures (run + [a])[..|run|] == run && (run + [a])[|run|] == a
  {
  }

  lemma {:induction false} StepFollows(s: State, v: int, run: seq<Action>, a: Action)
    requires Follows(s, v, run) && Enabled(s, a)
    ensures Follows(Do(s, a), v, run + [a])
  {
    hide Inv, CallerFollows, Publications;
    StepInv(s, a);
    StepPublishes(s, v, run, a);
    assert s.history != [];
    forall t | 0 <= t < |s.callers| ensures CallerFollows(Do(s, a), Do(s, a).callers[t], t, run + [a]) {
      StepCallerFollows(s, v, run, a, t);
    }
  }

  lemma {:induction false} StepPublishes(s: State, v: int, run: seq<Action>, a: Action)
    requires Follows(s, v, run) && Enabled(s, a)
    ensures Do(s, a).history == [v] + Publications(run + [a])
  {
    hide Uncounted, Private, LastRead, Given;
    Before(run, a);
    assert CallerFollows(s, s.callers[a.t], a.t, run) && CallerOk(s, s.callers[a.t]);
  }

  lemma {:induction false} StepCallerFollows(s: State, v: int, run: seq<Action>, a: Action, t: nat)
    requires Follows(s, v, run) && Enabled(s, a) && t < |s.callers|
    ensures s.history != [] && CallerFollows(Do(s, a), Do(s, a).callers[t], t, run + [a])
  {
    hide Uncounted, Private, Publications;
    Before(run, a);
    var n := LastRead(run, t);
    assert (run + [a])[..n] == run[..n];
    assert CallerFollows(s, s.callers[t], t, run) && CallerOk(s, s.callers[t]);
    if a.MakeUpdate? || a.MakeSwap? {
      NotInUse(s, a.addr, t);
    }
  }

  lemma {:induction false} Started(s: State, v: int, run: seq<Action>)
    requires Follows(s, v, run)
    ensures s.history != []
  {
  }

  lemma {:induction false} RunFollows(s: State, v: int, before: seq<Action>, run: seq<Action>)
    requires Follows(s, v, before) && Legal(s, run)
    ensures Follows(After(s, run), v, before + run)
    decreases |run|
  {
    hide Follows, Enabled;
    Started(s, v, before);
    if run == [] {
      assert before + run == before;
    } else {
      StepFollows(s, v, before, run[0]);
      RunFollows(Do(s, run[0]), v, before + [run[0]], run[1..]);
      assert before + [run[0]] + run[1..] == before + run;
    }
  }

  lemma {:induction false} NothingYet(n: nat, a: Addr, v: int)
    ensures Follows(Init(n, a, v), v, [])
  {
    InitInv(n, a, v);
  }

  // In every reachable state the publications are the initial value and those
  // the run gave, and what is in place is the last of them.
  lemma {:induction false} PublishesGiven(n: nat, a: Addr, v: int, run: seq<Action>)
    requires Legal(Init(n, a, v), run)
    ensures var s := After(Init(n, a, v), run);
            s.history == [v] + Publications(run) && s.current in s.contents &&
            s.contents[s.current] == if Publications(run) == [] then v else Publications(run)[|Publications(run)| - 1]
  {
    hide Publications;
    NothingYet(n, a, v);
    RunFollows(Init(n, a, v), v, [], run);
    assert [] + run == run;
  }

  // A step that puts nothing in place.
  predicate Quiet(a: Action) {
    !a.Store? && !a.Swap?
  }

  // A read after an update with nothing stored or swapped since gets the
  // value the update was given.
  lemma {:induction false} ReadsUpdate(n: nat, a: Addr, v: int, run: seq<Action>, t: nat, addr: Addr, value: int, late: seq<Action>)
    requires var all := run + [MakeUpdate(t, addr, value), Store(t)] + late; Legal(Init(n, a, v), all)
    requires forall i :: 0 <= i < |late| ==> Quiet(late[i])
    ensures var s := After(Init(n, a, v), run + [MakeUpdate(t, addr, value), Store(t)] + late);
            s.current in s.contents && s.contents[s.current] == value
  {
    hide Publications, Given;
    var published := run + [MakeUpdate(t, addr, value), Store(t)];
    PublishesGiven(n, a, v, published + late);
    QuietPublishes(published, late);
    StorePublishes(run, t, addr, value);
  }

  lemma {:induction false} QuietPublishes(run: seq<Action>, late: seq<Action>)
    requires forall i :: 0 <= i < |late| ==> Quiet(late[i])
    ensures Publications(run + late) == Publications(run)
    decreases |late|
  {
    if late == [] {
      assert run + late == run;
    } else {
      var k := |late| - 1;
      hide Given, LastRead;
      assert Quiet(late[k]);
      assert (run + late)[..|run| + k] == run + late[..k];
      assert (run + late)[|run| + k] == late[k];
      QuietPublishes(run, late[..k]);
    }
  }

  lemma {:induction false} StorePublishes(run: seq<Action>, t: nat, addr: Addr, value: int)
    ensures Publications(run + [MakeUpdate(t, addr, value), Store(t)]) == Publications(run) + [value]
  {
    var made := run + [MakeUpdate(t, addr, value)];
    var all := run + [MakeUpdate(t, addr, value), Store(t)];
    Before(run, MakeUpdate(t, addr, value));
    assert all[..|run| + 1] == made && all[|run| + 1] == Store(t);
    assert Given(made, t) == Some(value);
    assert Publications(made) == Publications(run);
  }
}
