/**
 Why PruneRemovesOnlyClosed speaks of sessions nobody restores as active: whatever the limit, one
 that is deleted and restored while a prune is under way is dropped although it is active.
 */
module SessionPruneRace {
  import opened SessionStore
  import opened SessionProtocol
  import SessionPruning
  import opened SessionTraces
  import opened Wrappers

  /** Sessions of one owner: all closed, oldest first, except that the last is active. */
  ghost predicate Distinct(ids: seq<string>) {
    |ids| >= 2 && forall i, j :: 0 <= i < j < |ids| ==> ids[i] != ids[j]
  }

  /** The sessions are restored first; then come a close, a delete and one more restore. */
  function RequestOf(ids: seq<string>, i: nat): Request
    requires |ids| >= 2
  {
    var n := |ids| - 1;
    if i < n then Restore("o", ids[i], Some(i))
    else if i == n then Restore("o", ids[n], None)
    else if i == n + 1 then Close("o", ids[n])
    else if i == n + 2 then Delete("o", ids[0])
    else Restore("o", ids[0], None)
  }

  /** The limit leaves room for all but one of the sessions. */
  function StartState(ids: seq<string>): State
    requires |ids| >= 2
  {
    State([], map[], None, seq(|ids| + 3, i requires 0 <= i => Op(RequestOf(ids, i), Start)), 1, |ids| - 1)
  }

  function Closer(ids: seq<string>): nat { |ids| }

  function Deleter(ids: seq<string>): nat { |ids| + 1 }

  function Restorer(ids: seq<string>): nat { |ids| + 2 }

  // ----- restoring the sessions

  /** The first k ids with their handles. */
  ghost predicate IsMap(ids: seq<string>, k: nat, m: map<string, nat>)
    requires k <= |ids|
  {
    && (forall i :: 0 <= i < k ==> ids[i] in m && m[ids[i]] == i)
    && (forall id :: id in m ==> m[id] < k && ids[m[id]] == id)
  }

  ghost predicate Waiting(st: State, ids: seq<string>, from: nat)
    requires |ids| >= 2
  {
    && |st.ops| == |ids| + 3 && st.closedLimit == |ids| - 1
    && forall i :: from <= i < |st.ops| ==> st.ops[i] == Op(RequestOf(ids, i), Start)
  }

  predicate IsHandle(h: Handle, id: string, closedAt: Option<Time>) {
    h.id == id && h.owner == "o" && h.closedAt == closedAt && (h.active <==> closedAt == None)
  }

  ghost predicate Restored(st: State, ids: seq<string>, k: nat) {
    && 2 <= |ids| && k <= |ids| && Waiting(st, ids, k)
    && |st.handles| == k && IsMap(ids, k, st.sessions)
    && forall i :: 0 <= i < k ==> IsHandle(st.handles[i], ids[i], if i < |ids| - 1 then Some(i) else None)
  }

  lemma RestoreOne(st: State, ids: seq<string>, k: nat)
    requires Distinct(ids) && k < |ids| && Restored(st, ids, k)
    ensures Enabled(st, RestoreNow(k)) && Restored(Apply(st, RestoreNow(k)), ids, k + 1)
  {
    assert st.ops[k] == Op(RequestOf(ids, k), Start);
    assert ids[k] !in st.sessions;
  }

  lemma {:induction false} RestoreAll(ids: seq<string>, k: nat) returns (st: State)
    requires Distinct(ids) && k <= |ids|
    ensures Reaches(StartState(ids), st) && Restored(st, ids, k)
  {
    if k == 0 {
      st := StartState(ids);
      assert Trace(st, [st]);
    } else {
      st := RestoreAll(ids, k - 1);
      RestoreOne(st, ids, k - 1);
      ReachNext(StartState(ids), st, RestoreNow(k - 1));
      st := Apply(st, RestoreNow(k - 1));
    }
  }

  // ----- closing the active one; the prune that follows reads them all, the latest first

  ghost predicate AllClosed(st: State, ids: seq<string>) {
    && 2 <= |ids| && Waiting(st, ids, |ids| + 1)
    && |st.handles| == |ids| && IsMap(ids, |ids|, st.sessions)
    && forall i :: 0 <= i < |ids| ==> IsHandle(st.handles[i], ids[i], Some(i))
  }

  lemma FindLast(st: State, ids: seq<string>)
    requires Distinct(ids) && Restored(st, ids, |ids|)
    ensures Enabled(st, Find(Closer(ids)))
    ensures Apply(st, Find(Closer(ids))) == At(st, Closer(ids), Closing(|ids| - 1))
  {
    assert st.ops[Closer(ids)] == Op(RequestOf(ids, Closer(ids)), Start);
  }

  lemma CloseLast(st: State, ids: seq<string>)
    requires Distinct(ids) && Restored(st, ids, |ids|)
    ensures var finding := At(st, Closer(ids), Closing(|ids| - 1));
            var close := CloseHandle(Closer(ids), |ids| - 1);
            && Enabled(finding, close)
            && AllClosed(Apply(finding, close), ids) && Apply(finding, close).ops[Closer(ids)].pc == Pruning
  {
  }

  /** The sessions k and later have been read. */
  ghost predicate HasRead(ids: seq<string>, k: nat, pc: Pc)
    requires k <= |ids|
  {
    && pc.Reading? && IsMap(ids, k, pc.todo) && pc.seen.Keys == pc.from.Keys && |pc.seen| == |ids| - k
    && (forall i :: k <= i < |ids| ==> ids[i] in pc.seen && pc.seen[ids[i]] == i)
    && (forall id :: id in pc.seen ==> k <= pc.seen[id] < |ids| && ids[pc.seen[id]] == id)
  }

  lemma ReadOne(st: State, ids: seq<string>, k: nat, pc: Pc)
    requires Distinct(ids) && k < |ids| && AllClosed(st, ids) && HasRead(ids, k + 1, pc) && pc == st.ops[Closer(ids)].pc
    ensures Enabled(st, Read(Closer(ids), ids[k]))
    ensures AllClosed(Apply(st, Read(Closer(ids), ids[k])), ids)
    ensures HasRead(ids, k, Apply(st, Read(Closer(ids), ids[k])).ops[Closer(ids)].pc)
  {
    assert pc.todo[ids[k]] == k && IsHandle(st.handles[k], ids[k], Some(k));
    HasReadOneMore(ids, k, pc);
    assert Apply(st, Read(Closer(ids), ids[k])) == At(st, Closer(ids), ReadMore(ids[k], k, pc));
  }

  function ReadMore(id: string, k: nat, pc: Pc): Pc
    requires pc.Reading?
  {
    Reading(pc.todo - {id}, pc.seen[id := k], pc.from[id := k])
  }

  lemma HasReadOneMore(ids: seq<string>, k: nat, pc: Pc)
    requires Distinct(ids) && k < |ids| && HasRead(ids, k + 1, pc)
    ensures HasRead(ids, k, ReadMore(ids[k], k, pc))
  {
    AddOne(ids, k, pc.todo, pc.seen);
    SeenOneMore(ids, k, pc.seen);
    assert pc.seen[ids[k] := k].Keys == pc.seen.Keys + {ids[k]};
    assert pc.from[ids[k] := k].Keys == pc.from.Keys + {ids[k]};
  }

  lemma SeenOneMore(ids: seq<string>, k: nat, seen: map<string, Time>)
    requires Distinct(ids) && k < |ids|
    requires forall i :: k + 1 <= i < |ids| ==> ids[i] in seen && seen[ids[i]] == i
    requires forall id :: id in seen ==> k + 1 <= seen[id] < |ids| && ids[seen[id]] == id
    ensures var more := seen[ids[k] := k];
            && (forall i :: k <= i < |ids| ==> ids[i] in more && more[ids[i]] == i)
            && (forall id :: id in more ==> k <= more[id] < |ids| && ids[more[id]] == id)
  {
  }

  lemma AddOne(ids: seq<string>, k: nat, todo: map<string, nat>, seen: map<string, Time>)
    requires Distinct(ids) && k < |ids| && IsMap(ids, k + 1, todo)
    requires forall id :: id in seen ==> k + 1 <= seen[id] < |ids| && ids[seen[id]] == id
    requires |seen| == |ids| - k - 1
    ensures IsMap(ids, k, todo - {ids[k]}) && |seen[ids[k] := k]| == |ids| - k
  {
    assert ids[k] !in seen;
  }

  lemma StartReading(ids: seq<string>) returns (st: State)
    requires Distinct(ids)
    ensures Reaches(StartState(ids), st) && AllClosed(st, ids) && HasRead(ids, |ids|, st.ops[Closer(ids)].pc)
  {
    st := RestoreAll(ids, |ids|);
    FindLast(st, ids);
    CloseLast(st, ids);
    ReachNext(StartState(ids), st, Find(Closer(ids)));
    st := Apply(st, Find(Closer(ids)));
    ReachNext(StartState(ids), st, CloseHandle(Closer(ids), |ids| - 1));
    st := Apply(st, CloseHandle(Closer(ids), |ids| - 1));
    ReachNext(StartState(ids), st, SnapshotClosed(Closer(ids)));
    st := Apply(st, SnapshotClosed(Closer(ids)));
  }

  lemma {:induction false} ReadDownTo(ids: seq<string>, k: nat) returns (st: State)
    requires Distinct(ids) && k <= |ids|
    ensures Reaches(StartState(ids), st) && AllClosed(st, ids) && HasRead(ids, k, st.ops[Closer(ids)].pc)
    decreases |ids| - k
  {
    if k == |ids| {
      st := StartReading(ids);
    } else {
      st := ReadDownTo(ids, k + 1);
      ReadOne(st, ids, k, st.ops[Closer(ids)].pc);
      ReachNext(StartState(ids), st, Read(Closer(ids), ids[k]));
      st := Apply(st, Read(Closer(ids), ids[k]));
    }
  }

  // ----- the oldest is chosen, but meanwhile deleted and restored

  lemma OldestIsStale(ids: seq<string>, pc: Pc)
    requires Distinct(ids) && HasRead(ids, 0, pc)
    ensures Prunes(pc.seen, |ids| - 1, {ids[0]}) && pc.todo == map[] && ids[0] in pc.from
  {
    assert |pc.seen.Keys| == |pc.seen|;
    assert |pc.seen.Keys - {ids[0]}| == |pc.seen.Keys| - 1;
  }

  /** The prune will remove the oldest session; the deleter has got as far as `pc`. */
  ghost predicate Doomed(st: State, ids: seq<string>, pc: Pc) {
    && 2 <= |ids| && Waiting(st, ids, |ids| + 2)
    && st.ops[Deleter(ids)] == Op(Delete("o", ids[0]), pc)
    && (forall id :: id in st.sessions ==> st.sessions[id] < |st.handles|)
    && |st.handles| > 0 && st.handles[0].owner == "o"
    && (var pruner := st.ops[Closer(ids)].pc; pruner.Removing? && pruner.pruning && ids[0] in pruner.ids)
  }

  lemma ChooseStep(st: State, ids: seq<string>)
    requires Distinct(ids) && AllClosed(st, ids) && HasRead(ids, 0, st.ops[Closer(ids)].pc)
    ensures Enabled(st, Choose(Closer(ids), {ids[0]}))
    ensures var next := Apply(st, Choose(Closer(ids), {ids[0]}));
            Doomed(next, ids, Start) && ids[0] in next.sessions && next.sessions[ids[0]] == 0
  {
    OldestIsStale(ids, st.ops[Closer(ids)].pc);
    assert IsHandle(st.handles[0], ids[0], Some(0));
    assert st.ops[Deleter(ids)] == Op(RequestOf(ids, Deleter(ids)), Start);
  }

  lemma ChooseOldest(ids: seq<string>) returns (st: State)
    requires Distinct(ids)
    ensures Reaches(StartState(ids), st) && Doomed(st, ids, Start)
    ensures ids[0] in st.sessions && st.sessions[ids[0]] == 0
  {
    st := ReadDownTo(ids, 0);
    ChooseStep(st, ids);
    ReachNext(StartState(ids), st, Choose(Closer(ids), {ids[0]}));
    st := Apply(st, Choose(Closer(ids), {ids[0]}));
  }

  lemma FindOldest(st: State, ids: seq<string>)
    requires Doomed(st, ids, Start) && ids[0] in st.sessions && st.sessions[ids[0]] == 0
    ensures Enabled(st, Find(Deleter(ids)))
    ensures Doomed(Apply(st, Find(Deleter(ids))), ids, Marking(map[ids[0] := 0], map[]))
  {
  }

  lemma MarkOldest(st: State, ids: seq<string>)
    requires 2 <= |ids| && Doomed(st, ids, Marking(map[ids[0] := 0], map[]))
    ensures var mark := Mark(Deleter(ids), ids[0], 0);
            Enabled(st, mark) && Doomed(Apply(st, mark), ids, Marking(map[], map[ids[0] := 0]))
  {
    assert map[ids[0] := 0] - {ids[0]} == map[];
  }

  lemma RemoveOldest(st: State, ids: seq<string>)
    requires 2 <= |ids| && Doomed(st, ids, Removing(map[ids[0] := 0], false))
    ensures Enabled(st, Remove(Deleter(ids)))
    ensures Doomed(Apply(st, Remove(Deleter(ids))), ids, Ended) && ids[0] !in Apply(st, Remove(Deleter(ids))).sessions
  {
  }

  lemma DeleteOldest(ids: seq<string>) returns (st: State)
    requires Distinct(ids)
    ensures Reaches(StartState(ids), st) && Doomed(st, ids, Ended) && ids[0] !in st.sessions
  {
    st := ChooseOldest(ids);
    FindOldest(st, ids);
    ReachNext(StartState(ids), st, Find(Deleter(ids)));
    st := Apply(st, Find(Deleter(ids)));
    MarkOldest(st, ids);
    ReachNext(StartState(ids), st, Mark(Deleter(ids), ids[0], 0));
    st := Apply(st, Mark(Deleter(ids), ids[0], 0));
    ReachNext(StartState(ids), st, MarkedAll(Deleter(ids)));
    st := Apply(st, MarkedAll(Deleter(ids)));
    RemoveOldest(st, ids);
    ReachNext(StartState(ids), st, Remove(Deleter(ids)));
    st := Apply(st, Remove(Deleter(ids)));
  }

  /** The next step of operation i, a prune, takes the active session `id` away. */
  ghost predicate DropsActive(st: State, i: nat, id: string) {
    && SessionPruning.AboutToPrune(st, i, id)
    && st.sessions[id] < |st.handles| && st.handles[st.sessions[id]].active
    && id !in Apply(st, Remove(i)).sessions
  }

  lemma RestoreOldest(st: State, ids: seq<string>)
    requires Doomed(st, ids, Ended) && ids[0] !in st.sessions
    ensures Enabled(st, RestoreNow(Restorer(ids))) && DropsActive(Apply(st, RestoreNow(Restorer(ids))), Closer(ids), ids[0])
  {
    assert st.ops[Restorer(ids)] == Op(RequestOf(ids, Restorer(ids)), Start);
  }

  /** For every limit, 32 among them, there is a run in which a prune removes an active session. */
  lemma PruneDropsARestoredSession(ids: seq<string>)
    requires Distinct(ids)
    ensures Initial(StartState(ids)) && StartState(ids).closedLimit == |ids| - 1
    ensures SessionPruning.RestoresActive(StartState(ids), ids[0])
    ensures exists run :: ValidRun(StartState(ids), run) && DropsActive(Final(StartState(ids), run), Closer(ids), ids[0])
  {
    var st := DeleteOldest(ids);
    RestoreOldest(st, ids);
    ReachNext(StartState(ids), st, RestoreNow(Restorer(ids)));
    st := Apply(st, RestoreNow(Restorer(ids)));
    var trace :| Trace(StartState(ids), trace) && trace[|trace| - 1] == st;
    var run := TraceIsRun(StartState(ids), trace);
    assert DropsActive(Final(StartState(ids), run), Closer(ids), ids[0]);
    assert StartState(ids).ops[Restorer(ids)].request == Restore("o", ids[0], None);
  }
}
