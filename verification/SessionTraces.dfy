/** Reachable states of the session protocol, built up one action at a time. */
module SessionTraces {
  import opened SessionProtocol

  ghost predicate Step(st: State, next: State) {
    exists a :: Enabled(st, a) && next == Apply(st, a)
  }

  ghost predicate Link(trace: seq<State>, i: nat)
    requires 0 < i < |trace|
  {
    Step(trace[i - 1], trace[i])
  }

  ghost predicate Trace(start: State, trace: seq<State>) {
    && |trace| > 0 && trace[0] == start
    && forall i {:trigger Link(trace, i)} :: 0 < i < |trace| ==> Link(trace, i)
  }

  ghost predicate Reaches(start: State, st: State) {
    exists trace :: Trace(start, trace) && trace[|trace| - 1] == st
  }

  lemma ReachNext(start: State, st: State, a: Action)
    requires Reaches(start, st) && Enabled(st, a)
    ensures Reaches(start, Apply(st, a))
  {
    var trace :| Trace(start, trace) && trace[|trace| - 1] == st;
    var longer := trace + [Apply(st, a)];
    forall i | 0 < i < |longer| ensures Link(longer, i) {
      if i < |trace| {
        assert Link(trace, i);
      }
    }
    assert Trace(start, longer);
  }

  lemma {:induction false} Extend(st: State, run: seq<Action>, a: Action)
    requires ValidRun(st, run) && Enabled(Final(st, run), a)
    ensures ValidRun(st, run + [a]) && Final(st, run + [a]) == Apply(Final(st, run), a)
    decreases |run|
  {
    if run == [] {
      assert (run + [a])[1..] == [];
    } else {
      assert (run + [a])[1..] == run[1..] + [a];
      Extend(Apply(st, run[0]), run[1..], a);
    }
  }

  lemma {:induction false} TraceIsRun(start: State, trace: seq<State>) returns (run: seq<Action>)
    requires Trace(start, trace)
    ensures ValidRun(start, run) && Final(start, run) == trace[|trace| - 1]
    decreases |trace|
  {
    if |trace| == 1 {
      run := [];
    } else {
      var shorter := trace[..|trace| - 1];
      forall i | 0 < i < |shorter| ensures Link(shorter, i) {
        assert Link(trace, i);
      }
      run := TraceIsRun(start, shorter);
      assert Link(trace, |trace| - 1);
      var a :| Enabled(trace[|trace| - 2], a) && trace[|trace| - 1] == Apply(trace[|trace| - 2], a);
      Extend(start, run, a);
      run := run + [a];
    }
  }

  // ----- a run and its beginnings

  lemma {:induction false} RunSplits(st: State, first: seq<Action>, second: seq<Action>)
    requires ValidRun(st, first + second)
    ensures ValidRun(st, first) && ValidRun(Final(st, first), second)
    ensures Final(st, first + second) == Final(Final(st, first), second)
    decreases |first|
  {
    if first == [] {
      assert first + second == second;
    } else {
      assert (first + second)[0] == first[0] && (first + second)[1..] == first[1..] + second;
      RunSplits(Apply(st, first[0]), first[1..], second);
    }
  }

  lemma OneStep(st: State, a: Action)
    requires ValidRun(st, [a])
    ensures Enabled(st, a) && Final(st, [a]) == Apply(st, a)
  {
    assert [a][1..] == [];
  }

  lemma LastStep(st: State, run: seq<Action>)
    requires ValidRun(st, run) && run != []
    ensures var n := |run| - 1;
            && ValidRun(st, run[..n]) && Enabled(Final(st, run[..n]), run[n])
            && Final(st, run) == Apply(Final(st, run[..n]), run[n])
  {
    var n := |run| - 1;
    assert run == run[..n] + [run[n]];
    RunSplits(st, run[..n], [run[n]]);
    OneStep(Final(st, run[..n]), run[n]);
  }
}
