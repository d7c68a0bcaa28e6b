/**
 Why the limit does not count sessions restored as closed: restoring starts no prune, so whatever
 the limit, one closed session more than it can be restored and all of them stay.
 */
module SessionLimitRace {
  import opened SessionPruneRace
  import opened SessionProtocol
  import SessionLimit
  import opened SessionTraces
  import opened Wrappers

  ghost predicate AllDifferent(ids: seq<string>) {
    forall i, j :: 0 <= i < j < |ids| ==> ids[i] != ids[j]
  }

  function RestoreOf(ids: seq<string>, i: nat): Request
    requires i < |ids|
  {
    Restore("o", ids[i], Some(i))
  }

  /** One caller for each id, who restores that session as closed. */
  function Restorers(ids: seq<string>, limit: nat): State {
    State([], map[], None, seq(|ids|, i requires 0 <= i < |ids| => Op(RestoreOf(ids, i), Start)), 1, limit)
  }

  ghost predicate Brought(st: State, ids: seq<string>, k: nat) {
    && k <= |ids| == |st.ops|
    && (forall i :: 0 <= i < k ==> st.ops[i].pc.Ended?)
    && (forall i :: k <= i < |ids| ==> st.ops[i] == Op(RestoreOf(ids, i), Start))
    && |st.handles| == k && IsMap(ids, k, st.sessions)
    && (forall i :: 0 <= i < k ==> IsHandle(st.handles[i], ids[i], Some(i)))
  }

  lemma BringOne(st: State, ids: seq<string>, k: nat)
    requires AllDifferent(ids) && k < |ids| && Brought(st, ids, k)
    ensures Enabled(st, RestoreNow(k)) && Brought(Apply(st, RestoreNow(k)), ids, k + 1)
  {
    assert st.ops[k] == Op(RestoreOf(ids, k), Start);
    assert ids[k] !in st.sessions;
  }

  lemma {:induction false} BringAll(ids: seq<string>, limit: nat, k: nat) returns (st: State)
    requires AllDifferent(ids) && k <= |ids|
    ensures Reaches(Restorers(ids, limit), st) && Brought(st, ids, k)
  {
    if k == 0 {
      st := Restorers(ids, limit);
      assert Trace(st, [st]);
    } else {
      st := BringAll(ids, limit, k - 1);
      BringOne(st, ids, k - 1);
      ReachNext(Restorers(ids, limit), st, RestoreNow(k - 1));
      st := Apply(st, RestoreNow(k - 1));
    }
  }

  lemma {:induction false} CountIds(ids: seq<string>, s: set<string>)
    requires AllDifferent(ids) && forall id :: id in s <==> id in ids
    ensures |s| == |ids|
  {
    if ids == [] {
      assert s == {};
    } else {
      var last := |ids| - 1;
      assert ids == ids[..last] + [ids[last]];
      CountIds(ids[..last], s - {ids[last]});
    }
  }

  lemma AllStayClosed(st: State, ids: seq<string>)
    requires AllDifferent(ids) && Brought(st, ids, |ids|)
    ensures Names(st, st.sessions) && |SessionLimit.Closed(st)| == |ids|
  {
    forall k | k in st.sessions ensures st.sessions[k] < |st.handles| && st.handles[st.sessions[k]].id == k {
      assert IsHandle(st.handles[st.sessions[k]], ids[st.sessions[k]], Some(st.sessions[k]));
    }
    forall id ensures id in SessionLimit.Closed(st) <==> id in ids {
      if id in st.sessions {
        assert IsHandle(st.handles[st.sessions[id]], ids[st.sessions[id]], Some(st.sessions[id]));
      }
      if id in ids {
        var i :| 0 <= i < |ids| && ids[i] == id;
        assert ids[i] in st.sessions;
      }
    }
    CountIds(ids, SessionLimit.Closed(st));
  }

  /** For every limit, 32 among them, there is a run that ends with more closed sessions than it allows. */
  lemma ClosedRestoresExceedTheLimit(ids: seq<string>, limit: nat)
    requires AllDifferent(ids) && |ids| == limit + 1
    ensures Initial(Restorers(ids, limit)) && Restorers(ids, limit).closedLimit == limit
    ensures exists run :: ValidRun(Restorers(ids, limit), run) &&
              var end := Final(Restorers(ids, limit), run);
              && (forall i :: 0 <= i < |end.ops| ==> end.ops[i].pc.Ended?)
              && Names(end, end.sessions) && |SessionLimit.Closed(end)| > limit
  {
    var st := BringAll(ids, limit, |ids|);
    AllStayClosed(st, ids);
    var trace :| Trace(Restorers(ids, limit), trace) && trace[|trace| - 1] == st;
    var run := TraceIsRun(Restorers(ids, limit), trace);
    assert Final(Restorers(ids, limit), run) == st;
  }
}
