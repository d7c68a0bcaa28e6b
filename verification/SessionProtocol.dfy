/**
 Concurrent users of the session store. Operations take a snapshot of the map, then read one
 handle at a time, then take the write lock; between any two of these steps other operations
 run. The create lock serialises only the creations.
 */
module SessionProtocol {
  import opened SessionStore
  import opened Wrappers

  /** `created` records that create_session made the handle; no guard reads it. */
  datatype Handle = Handle(id: string, owner: string, active: bool, closedAt: Option<Time>, created: bool)

  datatype Request =
    | Create(owner: string)
    | Restore(owner: string, id: string, closedAt: Option<Time>)
    | Close(owner: string, id: string)
    | Delete(owner: string, id: string)
    | DeleteOwners(owners: set<string>)
    | Discard(owner: string, id: string)

  /** Handles are named by their index. `counted`, `from` and the handles in `ids` are records of the run. */
  datatype Pc =
    | Start
    | Locked
    | Counting(todo: map<string, nat>, count: nat, counted: set<string>)
    | Inserting
    | Closing(handle: nat)
    | Pruning
    | Reading(todo: map<string, nat>, seen: map<string, Time>, from: map<string, nat>)
    | Marking(todo: map<string, nat>, marked: map<string, nat>)
    | Removing(ids: map<string, nat>, pruning: bool)
    | Ended

  datatype Op = Op(request: Request, pc: Pc)

  datatype State = State(
    handles: seq<Handle>,
    sessions: map<string, nat>,
    lock: Option<nat>,
    ops: seq<Op>,
    cap: nat,
    closedLimit: nat)

  datatype Action =
    | Acquire(i: nat)
    | Snapshot(i: nat)
    | Count(i: nat, key: string)
    | Decide(i: nat)
    | Insert(i: nat, id: string)
    | RestoreNow(i: nat)
    | Find(i: nat)
    | CloseHandle(i: nat, now: Time)
    | SnapshotClosed(i: nat)
    | Read(i: nat, key: string)
    | Choose(i: nat, stale: set<string>)
    | Mark(i: nat, key: string, now: Time)
    | MarkedAll(i: nat)
    | Remove(i: nat)

  predicate Initial(st: State) {
    && st.handles == [] && st.sessions == map[] && st.lock == None
    && (forall i :: 0 <= i < |st.ops| ==> st.ops[i].pc == Start)
  }

  /** The conditions on handle indices always hold (see References); they only make the step functions total. */
  ghost predicate Enabled(st: State, a: Action) {
    && a.i < |st.ops|
    && var pc, request := st.ops[a.i].pc, st.ops[a.i].request;
       match a
       case Acquire(_) => pc == Start && request.Create? && st.lock == None
       case Snapshot(_) => pc == Locked
       case Count(_, key) => pc.Counting? && key in pc.todo && pc.todo[key] < |st.handles|
       case Decide(_) => pc.Counting? && pc.todo == map[]
       case Insert(_, id) => pc == Inserting && forall h :: 0 <= h < |st.handles| ==> st.handles[h].id != id
       case RestoreNow(_) => pc == Start && request.Restore?
       case Find(_) => pc == Start && !request.Create? && !request.Restore? && forall k :: k in st.sessions ==> st.sessions[k] < |st.handles|
       case CloseHandle(_, _) => pc.Closing? && pc.handle < |st.handles|
       case SnapshotClosed(_) => pc == Pruning
       case Read(_, key) => pc.Reading? && key in pc.todo && pc.todo[key] < |st.handles|
       case Choose(_, stale) => pc.Reading? && pc.todo == map[] && Prunes(pc.seen, st.closedLimit, stale)
       case Mark(_, key, _) => pc.Marking? && key in pc.todo && pc.todo[key] < |st.handles|
       case MarkedAll(_) => pc.Marking? && pc.todo == map[]
       case Remove(_) => pc.Removing?
  }

  function At(st: State, i: nat, pc: Pc): State
    requires i < |st.ops|
  {
    st.(ops := st.ops[i := st.ops[i].(pc := pc)])
  }

  /** owner_matches and is_active of one handle. */
  function DoCount(st: State, i: nat, key: string): State
    requires i < |st.ops| && st.ops[i].pc.Counting? && key in st.ops[i].pc.todo && st.ops[i].pc.todo[key] < |st.handles|
  {
    var pc := st.ops[i].pc;
    var handle := st.handles[pc.todo[key]];
    var todo := pc.todo - {key};
    if st.ops[i].request.Create? && handle.owner == st.ops[i].request.owner && handle.active then
      At(st, i, Counting(todo, pc.count + 1, pc.counted + {key}))
    else
      At(st, i, Counting(todo, pc.count, pc.counted))
  }

  function DoDecide(st: State, i: nat): State
    requires i < |st.ops| && st.ops[i].pc.Counting?
  {
    if st.ops[i].pc.count >= st.cap then At(st, i, Ended).(lock := None) else At(st, i, Inserting)
  }

  function DoInsert(st: State, i: nat, id: string): State
    requires i < |st.ops|
  {
    var owner := if st.ops[i].request.Create? then st.ops[i].request.owner else "";
    At(st, i, Ended).(
      handles := st.handles + [Handle(id, owner, true, None, true)],
      sessions := st.sessions[id := |st.handles|],
      lock := None)
  }

  /** An id that is present keeps its handle; the restored one is dropped. */
  function DoRestore(st: State, i: nat): State
    requires i < |st.ops| && st.ops[i].request.Restore?
  {
    var r := st.ops[i].request;
    if r.id in st.sessions then At(st, i, Ended)
    else
      At(st, i, Ended).(
        handles := st.handles + [Handle(r.id, r.owner, r.closedAt.None?, r.closedAt, false)],
        sessions := st.sessions[r.id := |st.handles|])
  }

  /** The look-up under the read lock and the owner check. */
  function DoFind(st: State, i: nat): State
    requires i < |st.ops| && !st.ops[i].request.Create? && !st.ops[i].request.Restore?
    requires forall k :: k in st.sessions ==> st.sessions[k] < |st.handles|
  {
    var r := st.ops[i].request;
    if r.DeleteOwners? then
      if r.owners == {} then At(st, i, Ended)
      else At(st, i, Marking(map k | k in st.sessions && st.handles[st.sessions[k]].owner in r.owners :: st.sessions[k], map[]))
    else if r.id !in st.sessions || st.handles[st.sessions[r.id]].owner != r.owner then At(st, i, Ended)
    else
      var handle := st.sessions[r.id];
      if r.Close? then At(st, i, Closing(handle))
      else if r.Delete? then At(st, i, Marking(map[r.id := handle], map[]))
      else At(st, i, Removing(map[r.id := handle], false))
  }

  function DoClose(st: State, i: nat, now: Time): State
    requires i < |st.ops| && st.ops[i].pc.Closing? && st.ops[i].pc.handle < |st.handles|
  {
    var h := st.ops[i].pc.handle;
    if !st.handles[h].active then At(st, i, Ended)
    else At(st, i, Pruning).(handles := st.handles[h := st.handles[h].(active := false, closedAt := Some(now))])
  }

  function DoRead(st: State, i: nat, key: string): State
    requires i < |st.ops| && st.ops[i].pc.Reading? && key in st.ops[i].pc.todo && st.ops[i].pc.todo[key] < |st.handles|
  {
    var pc := st.ops[i].pc;
    var todo := pc.todo - {key};
    match st.handles[pc.todo[key]].closedAt
    case Some(time) => At(st, i, Reading(todo, pc.seen[key := time], pc.from[key := pc.todo[key]]))
    case None => At(st, i, Reading(todo, pc.seen, pc.from))
  }

  function DoChoose(st: State, i: nat, stale: set<string>): State
    requires i < |st.ops| && st.ops[i].pc.Reading?
  {
    var pc := st.ops[i].pc;
    if |pc.seen| <= st.closedLimit then At(st, i, Ended)
    else At(st, i, Removing(map k | k in pc.from && k in stale :: pc.from[k], true))
  }

  /** prepare_delete on one handle. */
  function DoMark(st: State, i: nat, key: string, now: Time): State
    requires i < |st.ops| && st.ops[i].pc.Marking? && key in st.ops[i].pc.todo && st.ops[i].pc.todo[key] < |st.handles|
  {
    var pc := st.ops[i].pc;
    var h := pc.todo[key];
    var handle := st.handles[h];
    At(st, i, Marking(pc.todo - {key}, pc.marked[key := h])).(
      handles := st.handles[h := handle.(active := false, closedAt := if handle.closedAt.None? then Some(now) else handle.closedAt)])
  }

  function DoRemove(st: State, i: nat): State
    requires i < |st.ops| && st.ops[i].pc.Removing?
  {
    At(st, i, Ended).(sessions := st.sessions - st.ops[i].pc.ids.Keys)
  }

  ghost function Apply(st: State, a: Action): State
    requires Enabled(st, a)
  {
    match a
    case Acquire(i) => At(st, i, Locked).(lock := Some(i))
    case Snapshot(i) => At(st, i, Counting(st.sessions, 0, {}))
    case Count(i, key) => DoCount(st, i, key)
    case Decide(i) => DoDecide(st, i)
    case Insert(i, id) => DoInsert(st, i, id)
    case RestoreNow(i) => DoRestore(st, i)
    case Find(i) => DoFind(st, i)
    case CloseHandle(i, now) => DoClose(st, i, now)
    case SnapshotClosed(i) => At(st, i, Reading(st.sessions, map[], map[]))
    case Read(i, key) => DoRead(st, i, key)
    case Choose(i, stale) => DoChoose(st, i, stale)
    case Mark(i, key, now) => DoMark(st, i, key, now)
    case MarkedAll(i) => At(st, i, Removing(st.ops[i].pc.marked, false))
    case Remove(i) => DoRemove(st, i)
  }

  ghost predicate ValidRun(st: State, run: seq<Action>)
    decreases |run|
  {
    run == [] || (Enabled(st, run[0]) && ValidRun(Apply(st, run[0]), run[1..]))
  }

  ghost function Final(st: State, run: seq<Action>): State
    requires ValidRun(st, run)
    decreases |run|
  {
    if run == [] then st else Final(Apply(st, run[0]), run[1..])
  }

  // ----- references and handles

  ghost predicate Names(st: State, m: map<string, nat>) {
    forall k :: k in m ==> m[k] < |st.handles| && st.handles[m[k]].id == k
  }

  ghost predicate PcNames(st: State, pc: Pc) {
    match pc
    case Counting(todo, _, _) => Names(st, todo)
    case Closing(h) => h < |st.handles|
    case Reading(todo, seen, from) => Names(st, todo) && Names(st, from) && seen.Keys == from.Keys
    case Marking(todo, marked) => Names(st, todo) && Names(st, marked)
    case Removing(ids, _) => Names(st, ids)
    case _ => true
  }

  ghost predicate References(st: State) {
    && Names(st, st.sessions)
    && (forall i :: 0 <= i < |st.ops| ==> PcNames(st, st.ops[i].pc))
    && (forall h :: 0 <= h < |st.handles| ==> (st.handles[h].active <==> st.handles[h].closedAt.None?))
  }

  /** Handles are never dropped, keep who they are, and once closed stay closed. */
  ghost predicate HandlesOnlyClose(st: State, next: State) {
    && |st.handles| <= |next.handles|
    && (forall h :: 0 <= h < |st.handles| ==>
          && next.handles[h].id == st.handles[h].id
          && next.handles[h].owner == st.handles[h].owner
          && next.handles[h].created == st.handles[h].created
          && (next.handles[h].active ==> st.handles[h].active))
  }

  lemma HandlesStep(st: State, a: Action)
    requires Enabled(st, a)
    ensures HandlesOnlyClose(st, Apply(st, a))
  {
  }

  lemma OthersStay(st: State, a: Action, k: nat)
    requires Enabled(st, a) && k < |st.ops|
    ensures |Apply(st, a).ops| == |st.ops|
    ensures Apply(st, a).ops[k].request == st.ops[k].request
    ensures k != a.i ==> Apply(st, a).ops[k].pc == st.ops[k].pc
  {
  }

  lemma KeepsReferences(st: State, a: Action)
    requires Enabled(st, a) && References(st)
    ensures References(Apply(st, a))
  {
    var next := Apply(st, a);
    HandlesStep(st, a);
    forall k | 0 <= k < |next.ops| ensures PcNames(next, next.ops[k].pc) {
      OthersStay(st, a, k);
      assert PcNames(st, st.ops[k].pc);
      if k == a.i {
        ActorNamed(st, a, next.ops[k].pc);
      }
      PcNamesKept(st, next, next.ops[k].pc);
    }
    MapStep(st, a);
    FlagsStep(st, a);
  }

  lemma FindNames(st: State, i: nat)
    requires Enabled(st, Find(i)) && References(st)
    ensures PcNames(st, DoFind(st, i).ops[i].pc)
  {
  }

  lemma ChooseNames(st: State, i: nat, stale: set<string>)
    requires Enabled(st, Choose(i, stale)) && PcNames(st, st.ops[i].pc)
    ensures PcNames(st, DoChoose(st, i, stale).ops[i].pc)
  {
  }

  lemma ReadNames(st: State, i: nat, key: string)
    requires Enabled(st, Read(i, key)) && PcNames(st, st.ops[i].pc)
    ensures PcNames(st, DoRead(st, i, key).ops[i].pc)
  {
  }

  lemma CountNames(st: State, i: nat, key: string)
    requires Enabled(st, Count(i, key)) && PcNames(st, st.ops[i].pc)
    ensures PcNames(st, DoCount(st, i, key).ops[i].pc)
  {
  }

  lemma MarkNames(st: State, i: nat, key: string, now: Time)
    requires Enabled(st, Mark(i, key, now)) && PcNames(st, st.ops[i].pc)
    ensures PcNames(st, DoMark(st, i, key, now).ops[i].pc)
  {
  }

  /** Steps that look up no handle in a list. */
  lemma PlainNames(st: State, a: Action)
    requires Enabled(st, a) && Names(st, st.sessions) && PcNames(st, st.ops[a.i].pc)
    requires !a.Find? && !a.Choose? && !a.Read? && !a.Count? && !a.Mark?
    ensures PcNames(st, Apply(st, a).ops[a.i].pc)
  {
  }

  /** The new names of the acting operation name handles that were there before. */
  lemma ActorNamed(st: State, a: Action, pc: Pc)
    requires Enabled(st, a) && References(st) && pc == Apply(st, a).ops[a.i].pc
    ensures PcNames(st, pc)
  {
    assert PcNames(st, st.ops[a.i].pc);
    match a
    case Find(i) => FindNames(st, i);
    case Choose(i, stale) => ChooseNames(st, i, stale);
    case Read(i, key) => ReadNames(st, i, key);
    case Count(i, key) => CountNames(st, i, key);
    case Mark(i, key, now) => MarkNames(st, i, key, now);
    case _ => PlainNames(st, a);
  }

  lemma PcNamesKept(st: State, next: State, pc: Pc)
    requires HandlesOnlyClose(st, next) && PcNames(st, pc)
    ensures PcNames(next, pc)
  {
  }

  /** Entries of the map stay, go, or come with the handle that is new. */
  lemma SessionsMove(st: State, a: Action)
    requires Enabled(st, a)
    ensures var next := Apply(st, a);
            forall k :: k in next.sessions ==>
              || (k in st.sessions && next.sessions[k] == st.sessions[k])
              || (next.sessions[k] == |st.handles| < |next.handles| && next.handles[|st.handles|].id == k)
  {
  }

  lemma MapStep(st: State, a: Action)
    requires Enabled(st, a) && Names(st, st.sessions)
    ensures Names(Apply(st, a), Apply(st, a).sessions)
  {
    HandlesStep(st, a);
    SessionsMove(st, a);
  }

  lemma FlagsStep(st: State, a: Action)
    requires Enabled(st, a) && References(st)
    ensures forall h :: 0 <= h < |Apply(st, a).handles| ==>
              (Apply(st, a).handles[h].active <==> Apply(st, a).handles[h].closedAt.None?)
  {
  }
}
