// What the container readers publish and count, read off the run alone.
module SnapshotRuns {
  import opened SnapshotSteps

  function WrittenBy(a: Action): seq<Map> {
    if a.Write? then [a.m] else []
  }

  // The maps written to the source, in order.
  function Written(run: seq<Action>): seq<Map> {
    if run == [] then [] else WrittenBy(run[0]) + Written(run[1..])
  }

  function Finished(run: seq<Action>): nat {
    if run == [] then 0 else (if run[0].Finish? then 1 else 0) + Finished(run[1..])
  }

  lemma {:induction false} StepWrites(s: State, a: Action)
    requires Enabled(s, a)
    ensures Do(s, a).history == s.history + WrittenBy(a) && Do(s, a).count == s.count + (if a.Finish? then 1 else 0)
  {
  }

  lemma {:induction false} RunWrites(s: State, run: seq<Action>)
    requires Legal(s, run)
    ensures After(s, run).history == s.history + Written(run) && After(s, run).count == s.count + Finished(run)
    decreases |run|
  {
    hide Enabled, Do, WrittenBy;
    if run == [] {
      assert s.history + [] == s.history;
    } else {
      StepWrites(s, run[0]);
      RunWrites(Do(s, run[0]), run[1..]);
      assert s.history + WrittenBy(run[0]) + Written(run[1..]) == s.history + (WrittenBy(run[0]) + Written(run[1..]));
    }
  }

  // After any run the source has been the initial map and then each map
  // written, a reader answers from one of these, and the refresh count is one,
  // for the refresh at construction, and the refreshes finished since.
  lemma {:induction false} AnswersWritten(m: Map, threads: nat, callers: nat, run: seq<Action>)
    requires Legal(Init(m, threads, callers), run)
    ensures var s := After(Init(m, threads, callers), run);
            s.history == [m] + Written(run) && s.count == 1 + Finished(run) &&
            s.published.instant <= |Written(run)| &&
            Answer(s) == if s.published.instant == 0 then m else Written(run)[s.published.instant - 1]
  {
    RunWrites(Init(m, threads, callers), run);
    ReadsOneInstant(m, threads, callers, run);
  }

  // The map in the source.
  function Latest(m: Map, run: seq<Action>): Map {
    if Written(run) == [] then m else Written(run)[|Written(run)| - 1]
  }

  // Called, copied and published without another write, a refresh lets
  // readers see the map written last.
  lemma {:induction false} FreshRefresh(m: Map, threads: nat, callers: nat, run: seq<Action>, t: nat)
    requires var all := run + [Copy(t), Publish(t)]; Legal(Init(m, threads, callers), all)
    ensures Answer(After(Init(m, threads, callers), run + [Copy(t), Publish(t)])) == Latest(m, run)
  {
    var s := Init(m, threads, callers);
    Parts(s, run, [Copy(t), Publish(t)]);
    var e := After(s, run);
    RunWrites(s, run);
    assert [Copy(t), Publish(t)][1..] == [Publish(t)] && [Publish(t)][1..] == [];
    assert After(e, [Copy(t), Publish(t)]) == Do(Do(e, Copy(t)), Publish(t)) by { TwoSteps(e, Copy(t), Publish(t)); }
  }

  lemma {:induction false} TwoSteps(s: State, a: Action, b: Action)
    requires Legal(s, [a, b])
    ensures Enabled(s, a) && Enabled(Do(s, a), b) && After(s, [a, b]) == Do(Do(s, a), b)
  {
    assert [a, b][1..] == [b] && [b][1..] == [];
    assert After(Do(s, a), [b]) == After(Do(Do(s, a), b), []);
  }

  lemma {:induction false} Parts(s: State, p: seq<Action>, q: seq<Action>)
    requires Legal(s, p + q)
    ensures Legal(s, p) && Legal(After(s, p), q) && After(s, p + q) == After(After(s, p), q)
    decreases |p|
  {
    hide Enabled;
    if p == [] {
      assert p + q == q;
    } else {
      assert (p + q)[1..] == p[1..] + q;
      Parts(Do(s, p[0]), p[1..], q);
    }
  }

  // ---- When a refresh was called ----

  predicate Begins(a: Action, t: nat) {
    a == Call(t) || (t == 0 && a == Check)
  }

  // The actions before refresher t's last call.
  function BeforeCall(run: seq<Action>, t: nat): (p: seq<Action>)
    ensures |p| <= |run|
  {
    if run == [] then []
    else if Begins(run[|run| - 1], t) then run[..|run| - 1]
    else BeforeCall(run[..|run| - 1], t)
  }

  ghost predicate CallsNoted(s: State, run: seq<Action>) {
    s.history != [] && |s.history| == 1 + |Written(run)| &&
    forall t :: 0 <= t < |s.refreshers| ==> CallNoted(s.refreshers[t], t, run)
  }

  predicate CallNoted(r: Refresh, t: nat, run: seq<Action>) {
    r.Quiet? || r.since == |Written(BeforeCall(run, t))|
  }

  lemma {:induction false} WrittenThen(run: seq<Action>, a: Action)
    ensures Written(run + [a]) == Written(run) + WrittenBy(a)
  {
    hide WrittenBy;
    if run == [] {
      assert [] + [a] == [a] && [a][1..] == [];
      assert WrittenBy(a) + Written([]) == Written([]) + WrittenBy(a);
    } else {
      var b, c, d := WrittenBy(run[0]), Written(run[1..]), WrittenBy(a);
      assert (run + [a])[1..] == run[1..] + [a];
      WrittenThen(run[1..], a);
      assert (b + c) + d == b + (c + d);
    }
  }

  lemma {:induction false} StepNoted(s: State, run: seq<Action>, a: Action)
    requires CallsNoted(s, run) && Enabled(s, a)
    ensures CallsNoted(Do(s, a), run + [a])
  {
    hide Written, BeforeCall;
    WrittenThen(run, a);
    forall t | 0 <= t < |s.refreshers| ensures CallNoted(Do(s, a).refreshers[t], t, run + [a]) {
      assert CallNoted(s.refreshers[t], t, run);
      CallThen(run, a, t);
    }
  }

  lemma {:induction false} CallThen(run: seq<Action>, a: Action, t: nat)
    ensures BeforeCall(run + [a], t) == if Begins(a, t) then run else BeforeCall(run, t)
  {
    assert (run + [a])[..|run|] == run;
  }

  lemma {:induction false} RunNoted(s: State, before: seq<Action>, run: seq<Action>)
    requires CallsNoted(s, before) && Legal(s, run)
    ensures CallsNoted(After(s, run), before + run)
    decreases |run|
  {
    hide CallsNoted, Enabled;
    if run == [] {
      assert before + run == before;
    } else {
      StepNoted(s, before, run[0]);
      RunNoted(Do(s, run[0]), before + [run[0]], run[1..]);
      assert before + [run[0]] + run[1..] == before + run;
    }
  }

  // With one refresher, once it has published what readers see is no older
  // than the call of its refresh: every map written before that call is the
  // answer or an earlier one.
  lemma {:induction false} NoStalerThanCall(m: Map, threads: nat, callers: nat, run: seq<Action>, t: nat)
    requires Legal(Init(m, threads, callers), run) && OnlyRefresher(run, t) && t <= threads
    requires var s := After(Init(m, threads, callers), run); t < |s.refreshers| && s.refreshers[t].Stored?
    ensures |Written(BeforeCall(run, t))| <= After(Init(m, threads, callers), run).published.instant
  {
    hide Written, BeforeCall;
    var s := Init(m, threads, callers);
    assert Written([]) == [] by { NothingWritten(); }
    RunNoted(s, [], run);
    assert [] + run == run;
    SingleRefresher(s, run, t);
    assert CallNoted(After(s, run).refreshers[t], t, run);
  }

  lemma {:induction false} NothingWritten()
    ensures Written([]) == []
  {
  }
}
