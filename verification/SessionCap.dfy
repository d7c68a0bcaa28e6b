/**
 The per-owner cap under concurrency: although create_session counts handle by handle in a
 snapshot, the active sessions it ever made for one owner never exceed the cap.
 */
module SessionCap {
  import opened SessionProtocol
  import opened Wrappers

  ghost function ActiveMade(st: State, owner: string): set<string>
    requires Names(st, st.sessions)
  {
    set k | k in st.sessions && (var h := st.handles[st.sessions[k]]; h.owner == owner && h.active && h.created)
  }

  predicate HoldsLock(pc: Pc) {
    pc.Locked? || pc.Counting? || pc.Inserting?
  }

  ghost predicate LockFits(st: State, i: nat)
    requires i < |st.ops|
  {
    && (HoldsLock(st.ops[i].pc) <==> st.lock == Some(i))
    && (HoldsLock(st.ops[i].pc) ==> st.ops[i].request.Create?)
  }

  ghost predicate LockInv(st: State) {
    forall i :: 0 <= i < |st.ops| ==> LockFits(st, i)
  }

  /** A session made by create_session and active now was counted, or is still to be looked at. */
  ghost predicate CountCovers(st: State, op: Op)
    requires Names(st, st.sessions)
  {
    match op.pc
    case Counting(todo, count, counted) =>
      op.request.Create? ==>
        && |counted| == count && counted !! todo.Keys
        && (forall k :: k in ActiveMade(st, op.request.owner) ==> k in counted || (k in todo && todo[k] == st.sessions[k]))
    case Inserting => op.request.Create? ==> |ActiveMade(st, op.request.owner)| < st.cap
    case _ => true
  }

  ghost predicate CapInv(st: State) {
    && References(st)
    && LockInv(st)
    && (forall i :: 0 <= i < |st.ops| ==> CountCovers(st, st.ops[i]))
    && (forall o :: |ActiveMade(st, o)| <= st.cap)
  }

  lemma SubsetCount<T>(a: set<T>, b: set<T>)
    requires a <= b
    ensures |a| <= |b|
  {
    assert b == a + (b - a);
  }

  lemma InsertAddsOne(st: State, i: nat, id: string, owner: string)
    requires Enabled(st, Insert(i, id)) && st.ops[i].request.Create? && References(st) && References(DoInsert(st, i, id))
    ensures ActiveMade(DoInsert(st, i, id), owner) ==
              ActiveMade(st, owner) + if st.ops[i].request.owner == owner then {id} else {}
    ensures id !in st.sessions
  {
    var next := DoInsert(st, i, id);
    assert id !in st.sessions;
    assert next.sessions[id] == |st.handles|;
    assert forall k :: k in st.sessions ==> next.sessions[k] == st.sessions[k] && next.handles[st.sessions[k]] == st.handles[st.sessions[k]];
  }

  /** Only Insert makes the set of active created sessions larger, by one session of its owner. */
  lemma ActiveMadeStep(st: State, a: Action, owner: string)
    requires Enabled(st, a) && LockInv(st) && References(st) && References(Apply(st, a))
    ensures var before, after := ActiveMade(st, owner), ActiveMade(Apply(st, a), owner);
            if a.Insert? && st.ops[a.i].request == Create(owner) then after == before + {a.id}
            else forall k :: k in after ==> k in before && Apply(st, a).sessions[k] == st.sessions[k]
  {
    if a.Insert? {
      assert LockFits(st, a.i);
      InsertAddsOne(st, a.i, a.id, owner);
    } else {
      HandlesStep(st, a);
      SessionsStep(st, a);
    }
  }

  /** Apart from Insert the map only loses entries or gains a restored one. */
  lemma SessionsStep(st: State, a: Action)
    requires Enabled(st, a) && !a.Insert?
    ensures var next := Apply(st, a);
            forall k :: k in next.sessions ==>
              || (k in st.sessions && next.sessions[k] == st.sessions[k])
              || (next.sessions[k] == |st.handles| < |next.handles| && !next.handles[|st.handles|].created)
  {
  }

  lemma KeepsLockOf(st: State, a: Action, k: nat)
    requires Enabled(st, a) && k < |st.ops| && LockFits(st, a.i) && LockFits(st, k)
    ensures |Apply(st, a).ops| == |st.ops| && LockFits(Apply(st, a), k)
  {
    OthersStay(st, a, k);
    LockMoves(st, a);
  }

  lemma KeepsLock(st: State, a: Action)
    requires Enabled(st, a) && LockInv(st)
    ensures LockInv(Apply(st, a))
  {
    OthersStay(st, a, a.i);
    forall k | 0 <= k < |Apply(st, a).ops| ensures LockFits(Apply(st, a), k) {
      KeepsLockOf(st, a, k);
    }
  }

  lemma LockMoves(st: State, a: Action)
    requires Enabled(st, a)
    ensures var next := Apply(st, a);
            || (next.lock == st.lock && (HoldsLock(next.ops[a.i].pc) <==> HoldsLock(st.ops[a.i].pc)))
            || (st.lock == None && next.lock == Some(a.i) && HoldsLock(next.ops[a.i].pc) && st.ops[a.i].request.Create?)
            || (HoldsLock(st.ops[a.i].pc) && next.lock == None && !HoldsLock(next.ops[a.i].pc))
  {
    if a.Find? || a.Read? || a.Mark? || a.Choose? {
      NoLockMove(st, a);
    }
  }

  ghost predicate LeavesLock(st: State, next: State, i: nat) {
    && i < |st.ops| && i < |next.ops| && next.lock == st.lock
    && !HoldsLock(next.ops[i].pc) && !HoldsLock(st.ops[i].pc)
  }

  lemma FindLeavesLock(st: State, i: nat)
    requires Enabled(st, Find(i))
    ensures LeavesLock(st, DoFind(st, i), i)
  {
  }

  lemma ReadLeavesLock(st: State, i: nat, key: string)
    requires Enabled(st, Read(i, key))
    ensures LeavesLock(st, DoRead(st, i, key), i)
  {
  }

  lemma NoLockMove(st: State, a: Action)
    requires Enabled(st, a) && (a.Find? || a.Read? || a.Mark? || a.Choose?)
    ensures LeavesLock(st, Apply(st, a), a.i)
  {
    match a
    case Find(i) => FindLeavesLock(st, i);
    case Read(i, key) => ReadLeavesLock(st, i, key);
    case _ =>
  }

  lemma OtherStillCovers(st: State, a: Action, k: nat)
    requires Enabled(st, a) && CapInv(st) && References(Apply(st, a)) && k < |st.ops| && k != a.i
    ensures CountCovers(Apply(st, a), Apply(st, a).ops[k])
  {
    var next := Apply(st, a);
    OthersStay(st, a, k);
    var op := st.ops[k];
    assert CountCovers(st, op);
    if HoldsLock(op.pc) {
      assert !a.Insert? by {
        assert LockFits(st, k) && LockFits(st, a.i);
      }
      ActiveMadeStep(st, a, op.request.owner);
      SubsetCount(ActiveMade(next, op.request.owner), ActiveMade(st, op.request.owner));
    }
  }

  lemma SnapshotCovers(st: State, i: nat)
    requires Enabled(st, Snapshot(i)) && Names(st, st.sessions)
    ensures CountCovers(Apply(st, Snapshot(i)), Apply(st, Snapshot(i)).ops[i])
  {
  }

  /** No other step leads into counting or out of it. */
  lemma OnlyThreeCount(st: State, a: Action)
    requires Enabled(st, a) && !a.Snapshot? && !a.Count? && !a.Decide?
    ensures !Apply(st, a).ops[a.i].pc.Counting? && !Apply(st, a).ops[a.i].pc.Inserting?
  {
    if a.Find? || a.Read? || a.Mark? || a.Choose? {
      NoLockMove(st, a);
    }
  }

  lemma ActorCovers(st: State, a: Action, next: State)
    requires Enabled(st, a) && CapInv(st) && next == Apply(st, a) && References(next)
    ensures a.i < |next.ops| && CountCovers(next, next.ops[a.i])
  {
    OthersStay(st, a, a.i);
    match a
    case Snapshot(i) => SnapshotCovers(st, i);
    case Count(_, key) => CountOneCovers(st, a.i, key);
    case Decide(i) => DecideIsRight(st, i);
    case _ => OnlyThreeCount(st, a);
  }

  lemma CountOneCovers(st: State, i: nat, key: string)
    requires Enabled(st, Count(i, key)) && CapInv(st) && References(DoCount(st, i, key))
    ensures CountCovers(DoCount(st, i, key), DoCount(st, i, key).ops[i])
  {
    assert CountCovers(st, st.ops[i]);
    var owner := if st.ops[i].request.Create? then st.ops[i].request.owner else "";
    assert ActiveMade(DoCount(st, i, key), owner) == ActiveMade(st, owner);
  }

  lemma DecideIsRight(st: State, i: nat)
    requires Enabled(st, Decide(i)) && CapInv(st) && References(DoDecide(st, i))
    ensures CountCovers(DoDecide(st, i), DoDecide(st, i).ops[i])
  {
    var op := st.ops[i];
    assert CountCovers(st, op);
    if op.request.Create? {
      var made := ActiveMade(st, op.request.owner);
      SubsetCount(made, op.pc.counted);
      assert ActiveMade(DoDecide(st, i), op.request.owner) == made;
    }
  }

  lemma KeepsCover(st: State, a: Action, k: nat)
    requires Enabled(st, a) && CapInv(st) && References(Apply(st, a)) && k < |st.ops|
    ensures |Apply(st, a).ops| == |st.ops| && CountCovers(Apply(st, a), Apply(st, a).ops[k])
  {
    OthersStay(st, a, k);
    if k == a.i {
      ActorCovers(st, a, Apply(st, a));
    } else {
      OtherStillCovers(st, a, k);
    }
  }

  lemma KeepsCap(st: State, a: Action)
    requires Enabled(st, a) && CapInv(st)
    ensures CapInv(Apply(st, a))
  {
    var next := Apply(st, a);
    KeepsReferences(st, a);
    KeepsLock(st, a);
    OthersStay(st, a, a.i);
    forall k | 0 <= k < |next.ops| ensures CountCovers(next, next.ops[k]) {
      KeepsCover(st, a, k);
    }
    forall o ensures |ActiveMade(next, o)| <= next.cap {
      OwnerStaysWithinCap(st, a, o);
    }
  }

  lemma OwnerStaysWithinCap(st: State, a: Action, o: string)
    requires Enabled(st, a) && LockInv(st) && References(st) && References(Apply(st, a))
    requires CountCovers(st, st.ops[a.i]) && |ActiveMade(st, o)| <= st.cap
    ensures |ActiveMade(Apply(st, a), o)| <= Apply(st, a).cap
  {
    ActiveMadeStep(st, a, o);
    CapFixed(st, a);
    if a.Insert? && st.ops[a.i].request == Create(o) {
      assert |ActiveMade(st, o) + {a.id}| <= |ActiveMade(st, o)| + 1;
    } else {
      SubsetCount(ActiveMade(Apply(st, a), o), ActiveMade(st, o));
    }
  }

  lemma CapFixed(st: State, a: Action)
    requires Enabled(st, a)
    ensures Apply(st, a).cap == st.cap && Apply(st, a).closedLimit == st.closedLimit
  {
  }

  lemma {:induction false} CapReachable(st: State, run: seq<Action>)
    requires CapInv(st) && ValidRun(st, run)
    ensures CapInv(Final(st, run)) && Final(st, run).cap == st.cap
    decreases |run|
  {
    if run != [] {
      KeepsCap(st, run[0]);
      CapFixed(st, run[0]);
      CapReachable(Apply(st, run[0]), run[1..]);
    }
  }

  /** In every run, also with restores, an owner has at most `cap` active sessions that create_session made. */
  lemma ActiveCreatedSessionsStayWithinCap(st: State, run: seq<Action>, owner: string)
    requires Initial(st) && ValidRun(st, run)
    ensures Names(Final(st, run), Final(st, run).sessions)
    ensures |ActiveMade(Final(st, run), owner)| <= st.cap
  {
    forall o ensures |ActiveMade(st, o)| <= st.cap {
      assert ActiveMade(st, o) == {};
    }
    CapReachable(st, run);
  }
}
