/**
 What a pruner takes away under concurrency: sessions it read as closed, and possibly an active
 one that came back under the same id since, restored as active.
 */
module SessionPruning {
  import opened SessionProtocol

  // ----- what a pruner read as closed stays closed

  ghost predicate AllInactive(st: State, m: map<string, nat>) {
    forall k :: k in m ==> m[k] < |st.handles| && !st.handles[m[k]].active
  }

  ghost predicate ReadClosed(st: State, pc: Pc) {
    match pc
    case Reading(_, _, from) => AllInactive(st, from)
    case Removing(ids, pruning) => pruning ==> AllInactive(st, ids)
    case _ => true
  }

  lemma InactiveStays(st: State, next: State, m: map<string, nat>)
    requires HandlesOnlyClose(st, next) && AllInactive(st, m)
    ensures AllInactive(next, m)
  {
  }

  lemma ReadClosedKept(st: State, next: State, pc: Pc)
    requires HandlesOnlyClose(st, next) && ReadClosed(st, pc)
    ensures ReadClosed(next, pc)
  {
    match pc
    case Reading(_, _, from) => InactiveStays(st, next, from);
    case Removing(ids, pruning) => if pruning { InactiveStays(st, next, ids); }
    case _ =>
  }

  ghost predicate FlagsAgree(st: State) {
    forall h :: 0 <= h < |st.handles| ==> (st.handles[h].active <==> st.handles[h].closedAt.None?)
  }

  lemma ReadReadsClosed(st: State, i: nat, key: string)
    requires Enabled(st, Read(i, key)) && FlagsAgree(st) && ReadClosed(st, st.ops[i].pc)
    ensures ReadClosed(st, DoRead(st, i, key).ops[i].pc)
  {
  }

  lemma ChooseReadsClosed(st: State, i: nat, stale: set<string>)
    requires i < |st.ops| && st.ops[i].pc.Reading? && ReadClosed(st, st.ops[i].pc)
    ensures ReadClosed(st, DoChoose(st, i, stale).ops[i].pc)
  {
  }

  predicate IsPruner(pc: Pc) {
    pc.Reading? || (pc.Removing? && pc.pruning)
  }

  /** Only three steps lead to a pruner that has a list. */
  lemma NewPruner(st: State, a: Action)
    requires Enabled(st, a) && IsPruner(Apply(st, a).ops[a.i].pc)
    ensures a.SnapshotClosed? || a.Read? || a.Choose?
  {
    if a.Find? {
      FindDoesNotPrune(st, a.i);
    }
  }

  lemma FindDoesNotPrune(st: State, i: nat)
    requires Enabled(st, Find(i))
    ensures !IsPruner(DoFind(st, i).ops[i].pc)
  {
  }

  lemma ActorReadsClosed(st: State, a: Action)
    requires Enabled(st, a) && FlagsAgree(st) && ReadClosed(st, st.ops[a.i].pc)
    ensures ReadClosed(st, Apply(st, a).ops[a.i].pc)
  {
    if IsPruner(Apply(st, a).ops[a.i].pc) {
      NewPruner(st, a);
      match a
      case Read(i, key) => ReadReadsClosed(st, i, key);
      case Choose(i, stale) => ChooseReadsClosed(st, i, stale);
      case SnapshotClosed(_) =>
    }
  }

  lemma KeepsReadClosed(st: State, a: Action, k: nat)
    requires Enabled(st, a) && FlagsAgree(st) && k < |st.ops| && ReadClosed(st, st.ops[k].pc)
    ensures |Apply(st, a).ops| == |st.ops| && ReadClosed(Apply(st, a), Apply(st, a).ops[k].pc)
  {
    HandlesStep(st, a);
    OthersStay(st, a, k);
    if k == a.i {
      ActorReadsClosed(st, a);
    }
    ReadClosedKept(st, Apply(st, a), Apply(st, a).ops[k].pc);
  }

  // ----- an id only moves to newer handles

  /** What the list names is what the store holds under the id, or older. */
  ghost predicate Behind(sessions: map<string, nat>, m: map<string, nat>) {
    forall k :: k in m && k in sessions ==> m[k] <= sessions[k]
  }

  ghost predicate PcBehind(sessions: map<string, nat>, pc: Pc) {
    match pc
    case Reading(todo, _, from) => Behind(sessions, todo) && Behind(sessions, from)
    case Removing(ids, pruning) => pruning ==> Behind(sessions, ids)
    case _ => true
  }

  /** Entries stay, go, or come new with the newest handle. */
  ghost predicate MovesOn(st: State, sessions: map<string, nat>) {
    forall k :: k in sessions ==> (k in st.sessions && sessions[k] == st.sessions[k]) || sessions[k] == |st.handles|
  }

  lemma SessionsMoveOn(st: State, a: Action)
    requires Enabled(st, a)
    ensures MovesOn(st, Apply(st, a).sessions)
  {
    SessionsMove(st, a);
  }

  lemma BehindKept(st: State, sessions: map<string, nat>, pc: Pc)
    requires MovesOn(st, sessions) && PcNames(st, pc) && PcBehind(st.sessions, pc)
    ensures PcBehind(sessions, pc)
  {
  }

  lemma ReadKeepsBehind(st: State, i: nat, key: string)
    requires Enabled(st, Read(i, key)) && PcBehind(st.sessions, st.ops[i].pc)
    ensures PcBehind(st.sessions, DoRead(st, i, key).ops[i].pc)
  {
  }

  lemma ChooseKeepsBehind(st: State, i: nat, stale: set<string>)
    requires i < |st.ops| && st.ops[i].pc.Reading? && PcBehind(st.sessions, st.ops[i].pc)
    ensures PcBehind(st.sessions, DoChoose(st, i, stale).ops[i].pc)
  {
  }

  lemma ActorBehind(st: State, a: Action)
    requires Enabled(st, a) && PcBehind(st.sessions, st.ops[a.i].pc)
    ensures PcBehind(st.sessions, Apply(st, a).ops[a.i].pc)
  {
    if IsPruner(Apply(st, a).ops[a.i].pc) {
      NewPruner(st, a);
      match a
      case Read(i, key) => ReadKeepsBehind(st, i, key);
      case Choose(i, stale) => ChooseKeepsBehind(st, i, stale);
      case SnapshotClosed(_) =>
    }
  }

  lemma KeepsBehind(st: State, a: Action, k: nat)
    requires Enabled(st, a) && References(st) && k < |st.ops| && PcBehind(st.sessions, st.ops[k].pc)
    ensures |Apply(st, a).ops| == |st.ops| && PcBehind(Apply(st, a).sessions, Apply(st, a).ops[k].pc)
  {
    OthersStay(st, a, k);
    SessionsMoveOn(st, a);
    assert PcNames(st, st.ops[k].pc);
    if k == a.i {
      ActorBehind(st, a);
      ActorNamed(st, a, Apply(st, a).ops[k].pc);
    }
    BehindKept(st, Apply(st, a).sessions, Apply(st, a).ops[k].pc);
  }

  // ----- where a second handle of an id comes from

  /** Some caller asks to restore this session as an active one. */
  ghost predicate RestoresActive(st: State, id: string) {
    exists i :: 0 <= i < |st.ops| && st.ops[i].request.Restore? && st.ops[i].request.id == id && st.ops[i].request.closedAt.None?
  }

  ghost predicate SameRequests(start: State, st: State) {
    |st.ops| == |start.ops| && forall i :: 0 <= i < |st.ops| ==> st.ops[i].request == start.ops[i].request
  }

  /** Of two handles with one id the later was restored, and restored handles are active only if asked for. */
  ghost predicate HandlesInv(start: State, st: State) {
    && (forall g, h :: 0 <= g < h < |st.handles| && st.handles[g].id == st.handles[h].id ==> !st.handles[h].created)
    && (forall h :: 0 <= h < |st.handles| && !st.handles[h].created && st.handles[h].active ==>
          RestoresActive(start, st.handles[h].id))
  }

  lemma KeepsRequests(start: State, st: State, a: Action)
    requires Enabled(st, a) && SameRequests(start, st)
    ensures SameRequests(start, Apply(st, a))
  {
    forall k | 0 <= k < |Apply(st, a).ops| ensures Apply(st, a).ops[k].request == start.ops[k].request {
      OthersStay(st, a, k);
    }
    OthersStay(st, a, a.i);
  }

  /** At most one handle is added; one that create_session adds has a new id. */
  lemma NewHandle(st: State, a: Action)
    requires Enabled(st, a)
    ensures var next, n := Apply(st, a), |st.handles|;
            || |next.handles| == n
            || (|next.handles| == n + 1 && next.handles[n].created
                && forall h :: 0 <= h < n ==> st.handles[h].id != next.handles[n].id)
            || (|next.handles| == n + 1 && !next.handles[n].created
                && st.ops[a.i].request == Restore(next.handles[n].owner, next.handles[n].id, next.handles[n].closedAt)
                && (next.handles[n].active <==> next.handles[n].closedAt.None?))
  {
  }

  lemma KeepsHandles(start: State, st: State, a: Action)
    requires Enabled(st, a) && SameRequests(start, st) && HandlesInv(start, st)
    ensures HandlesInv(start, Apply(st, a))
  {
    HandlesStep(st, a);
    NewHandle(st, a);
    var next, n := Apply(st, a), |st.handles|;
    if |next.handles| == n + 1 && !next.handles[n].created && next.handles[n].active {
      assert start.ops[a.i].request == st.ops[a.i].request;
      assert RestoresActive(start, next.handles[n].id);
    }
  }

  // ----- every run

  ghost predicate PruneInv(start: State, st: State) {
    && References(st) && SameRequests(start, st) && HandlesInv(start, st)
    && (forall i :: 0 <= i < |st.ops| ==> ReadClosed(st, st.ops[i].pc) && PcBehind(st.sessions, st.ops[i].pc))
  }

  lemma KeepsPruneInv(start: State, st: State, a: Action)
    requires Enabled(st, a) && PruneInv(start, st)
    ensures PruneInv(start, Apply(st, a))
  {
    KeepsReferences(st, a);
    KeepsRequests(start, st, a);
    KeepsHandles(start, st, a);
    var next := Apply(st, a);
    forall k | 0 <= k < |next.ops| ensures ReadClosed(next, next.ops[k].pc) && PcBehind(next.sessions, next.ops[k].pc) {
      KeepsReadClosed(st, a, k);
      KeepsBehind(st, a, k);
    }
  }

  lemma {:induction false} PruneReachable(start: State, st: State, run: seq<Action>)
    requires PruneInv(start, st) && ValidRun(st, run)
    ensures PruneInv(start, Final(st, run))
    decreases |run|
  {
    if run != [] {
      KeepsPruneInv(start, st, run[0]);
      PruneReachable(start, Apply(st, run[0]), run[1..]);
    }
  }

  /** Operation i is about to remove what it pruned, and the store holds a session under this id. */
  ghost predicate AboutToPrune(st: State, i: nat, id: string) {
    Enabled(st, Remove(i)) && st.ops[i].pc.pruning && id in st.ops[i].pc.ids && id in st.sessions
  }

  lemma NewerIsRestored(start: State, st: State, ids: map<string, nat>, id: string)
    requires HandlesInv(start, st) && Names(st, st.sessions) && Names(st, ids)
    requires AllInactive(st, ids) && Behind(st.sessions, ids) && id in ids && id in st.sessions
    ensures var current := st.sessions[id];
            st.handles[current].active ==> ids[id] < current && !st.handles[current].created && RestoresActive(start, id)
  {
    var pruned, current := ids[id], st.sessions[id];
    if st.handles[current].active {
      assert pruned < current && st.handles[pruned].id == st.handles[current].id;
    }
  }

  /**
   In every run a session about to be pruned is closed; or it is active and sits under a newer handle
   than the one the pruner read, which restore_session made for a caller that asked for it.
   */
  lemma PruneRemovesClosedOrRestored(st: State, run: seq<Action>, i: nat, id: string)
    requires Initial(st) && ValidRun(st, run) && AboutToPrune(Final(st, run), i, id)
    ensures var end, ids := Final(st, run), Final(st, run).ops[i].pc.ids;
            var current := end.sessions[id];
            && current < |end.handles|
            && (end.handles[current].active ==>
                  ids[id] < current && !end.handles[current].created && RestoresActive(st, id))
  {
    PruneReachable(st, st, run);
    var end := Final(st, run);
    assert ReadClosed(end, end.ops[i].pc) && PcNames(end, end.ops[i].pc);
    NewerIsRestored(st, end, end.ops[i].pc.ids, id);
  }

  /** Unless some caller restores that very session as active, a prune does not take it away while it is. */
  lemma PruneRemovesOnlyClosed(st: State, run: seq<Action>, i: nat, id: string)
    requires Initial(st) && ValidRun(st, run) && AboutToPrune(Final(st, run), i, id)
    requires !RestoresActive(st, id)
    ensures var end := Final(st, run); end.sessions[id] < |end.handles| && !end.handles[end.sessions[id]].active
  {
    PruneRemovesClosedOrRestored(st, run, i, id);
  }
}
