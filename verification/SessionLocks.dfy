/**
 Operations on backend sessions, serialised by a lock per session that is looked up or made in a
 table, and forget_session, which empties the tables at any moment. Every operation is awaited to
 its end by its caller, so the lock is held for as long as the operation runs.
 */
module SessionLocks {
  import opened MockClient
  import opened Wrappers

  /** Where an operation is; from ReadingCache to Using it holds its lock. */
  datatype OpPc =
    | LookingUp
    | Queued
    | ReadingCache
    | Loading(cached: Option<string>)
    | Deciding(cached: Option<string>, loaded: bool)
    | Creating
    | Inserting(id: string)
    | Using(id: string)
    | Ended

  /** `lock` and `seen`, how many locks had been removed, are set by the look-up; no guard reads `seen`. */
  datatype Op = Op(session: string, pc: OpPc, lock: nat, seen: nat)

  datatype ForgetPc = DroppingUpstream | DroppingLock | Forgotten

  datatype Forget = Forget(session: string, pc: ForgetPc)

  datatype Removal = Removal(session: string, lock: nat)

  /**
   The first three fields are the program's. `removals`, `forgotten` and `last` record the locks
   removed so far, the sessions some forget has reached and the last upstream id each session used.
   */
  datatype State = State(
    locks: map<string, nat>,
    nextLock: nat,
    upstream: map<string, string>,
    ops: seq<Op>,
    forgets: seq<Forget>,
    removals: seq<Removal>,
    forgotten: set<string>,
    last: map<string, string>)

  datatype Action =
    | LookUp(o: nat)
    | Acquire(o: nat)
    | ReadCache(o: nat)
    | Load(o: nat, ok: bool)
    | Decide(o: nat)
    | Create(o: nat, id: string)
    | Insert(o: nat)
    | Fail(o: nat)
    | Finish(o: nat)
    | DropUpstream(f: nat)
    | DropLock(f: nat)

  predicate Initial(st: State) {
    && st.locks == map[] && st.upstream == map[] && st.nextLock == 0
    && (forall i :: 0 <= i < |st.ops| ==> st.ops[i].pc == LookingUp)
    && (forall f :: 0 <= f < |st.forgets| ==> st.forgets[f].pc == DroppingUpstream)
    && st.removals == [] && st.forgotten == {} && st.last == map[]
  }

  predicate Running(pc: OpPc) {
    !pc.LookingUp? && !pc.Queued? && !pc.Ended?
  }

  predicate Looked(pc: OpPc) {
    !pc.LookingUp?
  }

  ghost predicate LockFree(st: State, lock: nat) {
    forall i :: 0 <= i < |st.ops| && Running(st.ops[i].pc) ==> st.ops[i].lock != lock
  }

  ghost predicate Enabled(st: State, a: Action) {
    if a.DropUpstream? || a.DropLock? then
      && a.f < |st.forgets|
      && (if a.DropUpstream? then st.forgets[a.f].pc.DroppingUpstream? else st.forgets[a.f].pc.DroppingLock?)
    else
      a.o < |st.ops| && OpEnabled(st, st.ops[a.o], a)
  }

  ghost predicate OpEnabled(st: State, op: Op, a: Action) {
    match a
    case LookUp(_) => op.pc.LookingUp?
    case Acquire(_) => op.pc.Queued? && LockFree(st, op.lock)
    case ReadCache(_) => op.pc.ReadingCache?
    case Load(_, _) => op.pc.Loading?
    case Decide(_) => op.pc.Deciding?
    case Create(_, _) => op.pc.Creating?
    case Insert(_) => op.pc.Inserting?
    case Fail(_) => Running(op.pc)
    case Finish(_) => op.pc.Using?
    case _ => false
  }

  function WithPc(st: State, o: nat, pc: OpPc): State
    requires o < |st.ops|
  {
    st.(ops := st.ops[o := st.ops[o].(pc := pc)])
  }

  /** load_or_create_session has an id for its caller. */
  function Obtained(st: State, o: nat, id: string): State
    requires o < |st.ops|
  {
    WithPc(st, o, Using(id)).(last := st.last[st.ops[o].session := id])
  }

  /** Load answers ok when the agent can load sessions and loaded this one. */
  ghost function Apply(st: State, a: Action): State
    requires Enabled(st, a)
  {
    match a
    case LookUp(o) =>
      var session := st.ops[o].session;
      var lock := LockFor(st.locks, st.nextLock, session);
      st.(locks := st.locks[session := lock],
          nextLock := if session in st.locks then st.nextLock else st.nextLock + 1,
          ops := st.ops[o := Op(session, Queued, lock, |st.removals|)])
    case Acquire(o) => WithPc(st, o, ReadingCache)
    case ReadCache(o) => WithPc(st, o, Loading(Get(st.upstream, st.ops[o].session)))
    case Load(o, ok) =>
      var cached := st.ops[o].pc.cached;
      WithPc(st, o, Deciding(cached, cached.Some? && ok))
    case Decide(o) =>
      var op := st.ops[o];
      var (kept, upstream) := ReuseCached(op.pc.cached, op.pc.loaded, st.upstream, op.session);
      (match kept
       case Some(id) => Obtained(st, o, id)
       case None => WithPc(st, o, Creating).(upstream := upstream))
    case Create(o, id) => WithPc(st, o, Inserting(id))
    case Insert(o) =>
      var op := st.ops[o];
      Obtained(st, o, op.pc.id).(upstream := st.upstream[op.session := op.pc.id])
    case Fail(o) => WithPc(st, o, Ended)
    case Finish(o) => WithPc(st, o, Ended)
    case DropUpstream(f) =>
      var session := st.forgets[f].session;
      st.(upstream := st.upstream - {session}, forgotten := st.forgotten + {session},
          forgets := st.forgets[f := Forget(session, DroppingLock)])
    case DropLock(f) =>
      var session := st.forgets[f].session;
      st.(locks := st.locks - {session},
          removals := if session in st.locks then st.removals + [Removal(session, st.locks[session])] else st.removals,
          forgets := st.forgets[f := Forget(session, Forgotten)])
  }

  ghost predicate ValidRun(st: State, run: seq<Action>)
    decreases |run|
  {
    run == [] || (Enabled(st, run[0]) && ValidRun(Apply(st, run[0]), run[1..]))
  }

  ghost function Final(st: State, run: seq<Action>): State
    requires ValidRun(st, run)
    decreases |run|
  {
    if run == [] then st else Final(Apply(st, run[0]), run[1..])
  }

  // ----- what every step keeps: the lock table

  ghost predicate TableInv(st: State) {
    && (forall s :: s in st.locks ==> st.locks[s] < st.nextLock)
    && (forall s, t :: s in st.locks && t in st.locks && s != t ==> st.locks[s] != st.locks[t])
  }

  /** A removed lock is not made again and does not come back to the table. */
  ghost predicate RemovedForGood(st: State) {
    forall k :: 0 <= k < |st.removals| ==>
      st.removals[k].lock < st.nextLock && forall s :: s in st.locks ==> st.locks[s] != st.removals[k].lock
  }

  /** Who found a lock found it before it was removed. */
  ghost predicate FoundBeforeRemoval(removals: seq<Removal>, op: Op) {
    Looked(op.pc) ==> forall k :: 0 <= k < |removals| && removals[k].lock == op.lock ==> op.seen <= k
  }

  /** A lock was taken out of the table while the removals numbered from..to. */
  ghost predicate RemovedBetween(removals: seq<Removal>, session: string, lock: nat, from: nat, to: nat) {
    exists k :: from <= k < to && k < |removals| && removals[k] == Removal(session, lock)
  }

  /** The lock an operation found is still its session's, or it was removed since the look-up. */
  ghost predicate OpInv(st: State, op: Op) {
    Looked(op.pc) ==>
      && op.lock < st.nextLock && op.seen <= |st.removals|
      && (forall t :: t in st.locks && st.locks[t] == op.lock ==> t == op.session)
      && ((op.session in st.locks && st.locks[op.session] == op.lock)
          || RemovedBetween(st.removals, op.session, op.lock, op.seen, |st.removals|))
  }

  /** Two look-ups of one session found the same lock unless it was removed in between. */
  ghost predicate PairInv(removals: seq<Removal>, a: Op, b: Op) {
    Looked(a.pc) && Looked(b.pc) ==>
      && (a.session != b.session ==> a.lock != b.lock)
      && (a.session == b.session && a.seen <= b.seen ==>
            a.lock == b.lock || RemovedBetween(removals, a.session, a.lock, a.seen, b.seen))
  }

  ghost predicate Exclusive(a: Op, b: Op) {
    Running(a.pc) && Running(b.pc) ==> a.lock != b.lock
  }

  ghost predicate LocksInv(st: State) {
    && TableInv(st) && RemovedForGood(st)
    && (forall i :: 0 <= i < |st.ops| ==> OpInv(st, st.ops[i]) && FoundBeforeRemoval(st.removals, st.ops[i]))
    && (forall i, j :: 0 <= i < |st.ops| && 0 <= j < |st.ops| && i != j ==>
          PairInv(st.removals, st.ops[i], st.ops[j]) && Exclusive(st.ops[i], st.ops[j]))
  }

  predicate TouchesLocks(a: Action) {
    a.LookUp? || a.DropLock?
  }

  lemma KeepsTable(st: State, a: Action)
    requires Enabled(st, a) && TableInv(st)
    ensures TableInv(Apply(st, a))
  {
  }

  lemma KeepsRemoved(st: State, a: Action)
    requires Enabled(st, a) && TableInv(st) && RemovedForGood(st)
    ensures RemovedForGood(Apply(st, a))
  {
  }

  lemma LookUpFound(st: State, o: nat)
    requires Enabled(st, LookUp(o)) && RemovedForGood(st)
    ensures FoundBeforeRemoval(st.removals, Apply(st, LookUp(o)).ops[o])
  {
  }

  lemma DropLockFound(st: State, f: nat, op: Op)
    requires Enabled(st, DropLock(f)) && OpInv(st, op) && FoundBeforeRemoval(st.removals, op)
    ensures FoundBeforeRemoval(Apply(st, DropLock(f)).removals, op)
  {
  }

  lemma LaterRemovals(removals: seq<Removal>, more: seq<Removal>, session: string, lock: nat, from: nat, to: nat)
    requires removals <= more
    ensures RemovedBetween(removals, session, lock, from, to) ==> RemovedBetween(more, session, lock, from, to)
  {
    if RemovedBetween(removals, session, lock, from, to) {
      var k :| from <= k < to && k < |removals| && removals[k] == Removal(session, lock);
      assert more[k] == Removal(session, lock);
    }
  }

  lemma LookUpOp(st: State, o: nat)
    requires Enabled(st, LookUp(o)) && TableInv(st)
    ensures OpInv(Apply(st, LookUp(o)), Apply(st, LookUp(o)).ops[o])
  {
  }

  lemma LookUpOther(st: State, o: nat, op: Op)
    requires Enabled(st, LookUp(o)) && OpInv(st, op)
    ensures OpInv(Apply(st, LookUp(o)), op)
  {
  }

  lemma LookUpPair(st: State, o: nat, op: Op)
    requires Enabled(st, LookUp(o)) && TableInv(st) && OpInv(st, op)
    ensures PairInv(st.removals, Apply(st, LookUp(o)).ops[o], op) && PairInv(st.removals, op, Apply(st, LookUp(o)).ops[o])
  {
  }

  lemma DropLockOp(st: State, f: nat, op: Op)
    requires Enabled(st, DropLock(f)) && OpInv(st, op)
    ensures OpInv(Apply(st, DropLock(f)), op)
  {
    var next := Apply(st, DropLock(f));
    if Looked(op.pc) {
      LaterRemovals(st.removals, next.removals, op.session, op.lock, op.seen, |st.removals|);
      if op.session in st.locks && st.locks[op.session] == op.lock && op.session !in next.locks {
        assert next.removals[|st.removals|] == Removal(op.session, op.lock);
      } else if op.session !in next.locks || next.locks[op.session] != op.lock {
        var k :| op.seen <= k < |st.removals| && st.removals[k] == Removal(op.session, op.lock);
        assert next.removals[k] == Removal(op.session, op.lock);
      }
    }
  }

  lemma DropLockPair(st: State, f: nat, a: Op, b: Op)
    requires Enabled(st, DropLock(f)) && PairInv(st.removals, a, b)
    ensures PairInv(Apply(st, DropLock(f)).removals, a, b)
  {
    LaterRemovals(st.removals, Apply(st, DropLock(f)).removals, a.session, a.lock, a.seen, b.seen);
  }

  lemma PlainStep(st: State, a: Action)
    requires Enabled(st, a) && !TouchesLocks(a)
    ensures var next := Apply(st, a);
            && next.locks == st.locks && next.nextLock == st.nextLock && next.removals == st.removals
            && |next.ops| == |st.ops|
            && forall i :: 0 <= i < |st.ops| ==>
                 && next.ops[i].session == st.ops[i].session
                 && next.ops[i].lock == st.ops[i].lock && next.ops[i].seen == st.ops[i].seen
                 && (Looked(next.ops[i].pc) <==> Looked(st.ops[i].pc))
                 && (Running(next.ops[i].pc) ==> Running(st.ops[i].pc) || (a == Acquire(i) && LockFree(st, st.ops[i].lock)))
  {
  }

  lemma PlainKeepsLocks(st: State, a: Action)
    requires Enabled(st, a) && !TouchesLocks(a) && LocksInv(st)
    ensures LocksInv(Apply(st, a))
  {
    PlainStep(st, a);
    var next := Apply(st, a);
    forall i | 0 <= i < |next.ops| ensures OpInv(next, next.ops[i]) && FoundBeforeRemoval(next.removals, next.ops[i]) {
      assert OpInv(st, st.ops[i]) && FoundBeforeRemoval(st.removals, st.ops[i]);
    }
    forall i, j | 0 <= i < |next.ops| && 0 <= j < |next.ops| && i != j
      ensures PairInv(next.removals, next.ops[i], next.ops[j]) && Exclusive(next.ops[i], next.ops[j])
    {
      assert PairInv(st.removals, st.ops[i], st.ops[j]) && Exclusive(st.ops[i], st.ops[j]);
    }
  }

  lemma LookUpKeepsLocks(st: State, o: nat)
    requires Enabled(st, LookUp(o)) && LocksInv(st)
    ensures LocksInv(Apply(st, LookUp(o)))
  {
    KeepsTable(st, LookUp(o));
    KeepsRemoved(st, LookUp(o));
    LookUpFound(st, o);
    var next := Apply(st, LookUp(o));
    forall i | 0 <= i < |next.ops| ensures OpInv(next, next.ops[i]) && FoundBeforeRemoval(next.removals, next.ops[i]) {
      if i == o { LookUpOp(st, o); } else { LookUpOther(st, o, st.ops[i]); }
    }
    forall i, j | 0 <= i < |next.ops| && 0 <= j < |next.ops| && i != j
      ensures PairInv(next.removals, next.ops[i], next.ops[j]) && Exclusive(next.ops[i], next.ops[j])
    {
      if i == o {
        LookUpPair(st, o, st.ops[j]);
      } else if j == o {
        LookUpPair(st, o, st.ops[i]);
      } else {
        assert PairInv(st.removals, st.ops[i], st.ops[j]) && Exclusive(st.ops[i], st.ops[j]);
      }
    }
  }

  lemma DropLockKeepsLocks(st: State, f: nat)
    requires Enabled(st, DropLock(f)) && LocksInv(st)
    ensures LocksInv(Apply(st, DropLock(f)))
  {
    KeepsTable(st, DropLock(f));
    KeepsRemoved(st, DropLock(f));
    var next := Apply(st, DropLock(f));
    forall i | 0 <= i < |next.ops| ensures OpInv(next, next.ops[i]) && FoundBeforeRemoval(next.removals, next.ops[i]) {
      DropLockOp(st, f, st.ops[i]);
      DropLockFound(st, f, st.ops[i]);
    }
    forall i, j | 0 <= i < |next.ops| && 0 <= j < |next.ops| && i != j
      ensures PairInv(next.removals, next.ops[i], next.ops[j]) && Exclusive(next.ops[i], next.ops[j])
    {
      DropLockPair(st, f, st.ops[i], st.ops[j]);
    }
  }

  lemma KeepsLocks(st: State, a: Action)
    requires Enabled(st, a) && LocksInv(st)
    ensures LocksInv(Apply(st, a))
  {
    match a
    case LookUp(o) => LookUpKeepsLocks(st, o);
    case DropLock(f) => DropLockKeepsLocks(st, f);
    case _ => PlainKeepsLocks(st, a);
  }
}
