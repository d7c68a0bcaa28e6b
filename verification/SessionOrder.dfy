/** What the session locks promise: who may overlap, and which upstream session an operation gets. */
module SessionOrder {
  import opened MockClient
  import opened SessionLocks
  import opened Wrappers

  /** Locks are removed only by forgets, and a forget drops the upstream id first. */
  ghost predicate ForgetInv(st: State) {
    && (forall f :: 0 <= f < |st.forgets| && !st.forgets[f].pc.DroppingUpstream? ==> st.forgets[f].session in st.forgotten)
    && (forall k :: 0 <= k < |st.removals| ==> st.removals[k].session in st.forgotten)
  }

  /** Until its session is forgotten a running operation knows what the cache holds. */
  ghost predicate CacheInv(st: State, op: Op) {
    op.session !in st.forgotten ==>
      match op.pc
      case Loading(cached) => cached == Get(st.upstream, op.session)
      case Deciding(cached, loaded) => cached == Get(st.upstream, op.session) && (loaded ==> cached.Some?)
      case Creating => op.session !in st.upstream
      case Inserting(_) => op.session !in st.upstream
      case Using(id) => Get(st.upstream, op.session) == Some(id)
      case _ => true
  }

  /** Until its session is forgotten a cached id is the one the session used last. */
  ghost predicate LastInv(st: State, session: string) {
    session !in st.forgotten && session in st.upstream ==> Get(st.last, session) == Some(st.upstream[session])
  }

  ghost predicate Inv(st: State) {
    && LocksInv(st) && ForgetInv(st)
    && (forall i :: 0 <= i < |st.ops| ==> CacheInv(st, st.ops[i]))
    && (forall s :: s in st.upstream ==> LastInv(st, s))
  }

  lemma KeepsForgets(st: State, a: Action)
    requires Enabled(st, a) && ForgetInv(st)
    ensures ForgetInv(Apply(st, a))
  {
  }

  lemma PairAlone(st: State, a: Op, b: Op)
    requires ForgetInv(st) && PairInv(st.removals, a, b) && PairInv(st.removals, b, a) && Exclusive(a, b)
    requires a.session == b.session && a.session !in st.forgotten
    ensures !(Running(a.pc) && Running(b.pc))
  {
  }

  /** Operations of a session that no forget has reached run one at a time. */
  lemma AloneUnlessForgotten(st: State, i: nat, j: nat)
    requires LocksInv(st) && ForgetInv(st) && i < |st.ops| && j < |st.ops|
    requires st.ops[i].session == st.ops[j].session && st.ops[i].session !in st.forgotten
    ensures Running(st.ops[i].pc) && Running(st.ops[j].pc) ==> i == j
  {
    if i != j {
      PairAlone(st, st.ops[i], st.ops[j]);
    }
  }

  lemma KeepsLast(st: State, a: Action, session: string)
    requires Enabled(st, a) && LastInv(st, session)
    requires a.Decide? ==> CacheInv(st, st.ops[a.o])
    ensures LastInv(Apply(st, a), session)
  {
  }

  lemma OwnStepKeepsCache(st: State, a: Action)
    requires Enabled(st, a) && !a.DropUpstream? && !a.DropLock? && CacheInv(st, st.ops[a.o])
    ensures CacheInv(Apply(st, a), Apply(st, a).ops[a.o])
  {
  }

  /** Another operation's step changes neither this operation nor what the cache holds for it. */
  lemma OtherOpKeepsCache(st: State, a: Action, i: nat)
    requires Enabled(st, a) && i < |st.ops| && CacheInv(st, st.ops[i])
    requires !a.DropUpstream? && !a.DropLock? && a.o != i
    requires a.Decide? || a.Insert? ==>
               || st.ops[a.o].session != st.ops[i].session
               || !Running(st.ops[i].pc)
               || st.ops[i].session in st.forgotten
    ensures CacheInv(Apply(st, a), Apply(st, a).ops[i])
  {
  }

  lemma ForgetKeepsCache(st: State, a: Action, i: nat)
    requires Enabled(st, a) && i < |st.ops| && CacheInv(st, st.ops[i])
    requires a.DropUpstream? || a.DropLock?
    ensures CacheInv(Apply(st, a), Apply(st, a).ops[i])
  {
  }

  lemma KeepsCache(st: State, a: Action, i: nat)
    requires Enabled(st, a) && Inv(st) && i < |st.ops|
    ensures CacheInv(Apply(st, a), Apply(st, a).ops[i])
  {
    if a.DropUpstream? || a.DropLock? {
      ForgetKeepsCache(st, a, i);
    } else if a.o == i {
      OwnStepKeepsCache(st, a);
    } else {
      if (a.Decide? || a.Insert?) && st.ops[a.o].session == st.ops[i].session
         && Running(st.ops[i].pc) && st.ops[i].session !in st.forgotten {
        AloneUnlessForgotten(st, a.o, i);
      }
      OtherOpKeepsCache(st, a, i);
    }
  }

  lemma KeepsInv(st: State, a: Action)
    requires Enabled(st, a) && Inv(st)
    ensures Inv(Apply(st, a))
  {
    KeepsLocks(st, a);
    KeepsForgets(st, a);
    var next := Apply(st, a);
    forall i | 0 <= i < |next.ops| ensures CacheInv(next, next.ops[i]) {
      KeepsCache(st, a, i);
    }
    forall s | s in next.upstream ensures LastInv(next, s) {
      KeepsLast(st, a, s);
    }
  }

  lemma {:induction false} Reachable(st: State, run: seq<Action>)
    requires Inv(st) && ValidRun(st, run)
    ensures Inv(Final(st, run))
    decreases |run|
  {
    if run != [] {
      KeepsInv(st, run[0]);
      Reachable(Apply(st, run[0]), run[1..]);
    }
  }

  lemma ReachableInv(st: State, run: seq<Action>)
    requires Initial(st) && ValidRun(st, run)
    ensures Inv(Final(st, run))
  {
    Reachable(st, run);
  }

  // ----- the promises

  /**
   Two operations of one session run at once only if a forget of that session took the lock of the
   one that looked up first out of the table before the other looked up.
   */
  lemma OverlapNeedsForget(st: State, run: seq<Action>, i: nat, j: nat)
    requires Initial(st) && ValidRun(st, run)
    requires i < |Final(st, run).ops| && j < |Final(st, run).ops| && i != j
    requires var a, b := Final(st, run).ops[i], Final(st, run).ops[j];
             a.session == b.session && Running(a.pc) && Running(b.pc) && a.seen <= b.seen
    ensures var end, a, b := Final(st, run), Final(st, run).ops[i], Final(st, run).ops[j];
            && a.lock != b.lock
            && RemovedBetween(end.removals, a.session, a.lock, a.seen, b.seen)
            && a.session in end.forgotten
  {
    ReachableInv(st, run);
    var end, a, b := Final(st, run), Final(st, run).ops[i], Final(st, run).ops[j];
    assert PairInv(end.removals, a, b) && Exclusive(a, b);
  }

  lemma PairDiffersIff(st: State, a: Op, b: Op)
    requires PairInv(st.removals, a, b) && FoundBeforeRemoval(st.removals, b)
    requires Looked(a.pc) && Looked(b.pc) && a.session == b.session && a.seen <= b.seen
    ensures a.lock != b.lock <==> RemovedBetween(st.removals, a.session, a.lock, a.seen, b.seen)
  {
  }

  /** Two operations of one session hold different locks exactly when the first one's was removed before the other looked up. */
  lemma LocksDifferIff(st: State, run: seq<Action>, i: nat, j: nat)
    requires Initial(st) && ValidRun(st, run)
    requires i < |Final(st, run).ops| && j < |Final(st, run).ops| && i != j
    requires var a, b := Final(st, run).ops[i], Final(st, run).ops[j];
             Looked(a.pc) && Looked(b.pc) && a.session == b.session && a.seen <= b.seen
    ensures var end, a, b := Final(st, run), Final(st, run).ops[i], Final(st, run).ops[j];
            a.lock != b.lock <==> RemovedBetween(end.removals, a.session, a.lock, a.seen, b.seen)
  {
    ReachableInv(st, run);
    var end, a, b := Final(st, run), Final(st, run).ops[i], Final(st, run).ops[j];
    assert PairInv(end.removals, a, b) && FoundBeforeRemoval(end.removals, b);
    PairDiffersIff(end, a, b);
  }

  /** A forget removed the lock of whichever of the two looked up first before the other did. */
  ghost predicate Parted(removals: seq<Removal>, a: Op, b: Op) {
    if a.seen <= b.seen then RemovedBetween(removals, a.session, a.lock, a.seen, b.seen)
    else RemovedBetween(removals, b.session, b.lock, b.seen, a.seen)
  }

  lemma BlockedUnlessParted(st: State, a: Op, b: Op)
    requires PairInv(st.removals, a, b) && PairInv(st.removals, b, a)
    requires FoundBeforeRemoval(st.removals, a) && FoundBeforeRemoval(st.removals, b)
    requires Looked(a.pc) && Looked(b.pc)
    ensures a.lock == b.lock <==> a.session == b.session && !Parted(st.removals, a, b)
  {
    if a.session == b.session {
      if a.seen <= b.seen { PairDiffersIff(st, a, b); } else { PairDiffersIff(st, b, a); }
    }
  }

  /**
   A queued operation may start exactly when a forget parted it from every running operation of its
   session: those it was not parted from keep it waiting, and nobody else does.
   */
  lemma MayStartIff(st: State, run: seq<Action>, j: nat)
    requires Initial(st) && ValidRun(st, run)
    requires j < |Final(st, run).ops| && Final(st, run).ops[j].pc.Queued?
    ensures var end := Final(st, run);
            Enabled(end, Acquire(j)) <==>
              forall i :: 0 <= i < |end.ops| && Running(end.ops[i].pc) && end.ops[i].session == end.ops[j].session ==>
                Parted(end.removals, end.ops[i], end.ops[j])
  {
    ReachableInv(st, run);
    var end := Final(st, run);
    forall i | 0 <= i < |end.ops| && Running(end.ops[i].pc)
      ensures end.ops[i].lock == end.ops[j].lock <==>
                end.ops[i].session == end.ops[j].session && !Parted(end.removals, end.ops[i], end.ops[j])
    {
      BlockedUnlessParted(end, end.ops[i], end.ops[j]);
    }
  }

  /** As long as no forget has reached a session, its operations are totally ordered. */
  lemma OneAtATime(st: State, run: seq<Action>, i: nat, j: nat)
    requires Initial(st) && ValidRun(st, run)
    requires i < |Final(st, run).ops| && j < |Final(st, run).ops|
    requires Final(st, run).ops[i].session == Final(st, run).ops[j].session
    requires Final(st, run).ops[i].session !in Final(st, run).forgotten
    requires Running(Final(st, run).ops[i].pc) && Running(Final(st, run).ops[j].pc)
    ensures i == j
  {
    ReachableInv(st, run);
    AloneUnlessForgotten(Final(st, run), i, j);
  }

  /** The id an operation works with is the cached one, for as long as it works with it. */
  lemma IdInUseIsCached(st: State, run: seq<Action>, i: nat)
    requires Initial(st) && ValidRun(st, run)
    requires i < |Final(st, run).ops| && Final(st, run).ops[i].pc.Using?
    requires Final(st, run).ops[i].session !in Final(st, run).forgotten
    ensures Get(Final(st, run).upstream, Final(st, run).ops[i].session) == Some(Final(st, run).ops[i].pc.id)
  {
    ReachableInv(st, run);
    assert CacheInv(Final(st, run), Final(st, run).ops[i]);
  }

  /** A reused session is the one the previous operation of that session worked with. */
  lemma ReuseContinuesLastSession(st: State, run: seq<Action>, i: nat)
    requires Initial(st) && ValidRun(st, run)
    requires i < |Final(st, run).ops| && Final(st, run).ops[i].pc.Deciding?
    requires Final(st, run).ops[i].session !in Final(st, run).forgotten
    ensures var end, op := Final(st, run), Final(st, run).ops[i];
            var next := Apply(end, Decide(i)).ops[i].pc;
            && (op.pc.loaded ==> op.session in end.last && next == Using(end.last[op.session]))
            && (!op.pc.loaded ==> next == Creating && op.session !in Apply(end, Decide(i)).upstream)
  {
    ReachableInv(st, run);
    var end, op := Final(st, run), Final(st, run).ops[i];
    assert CacheInv(end, op);
    if op.session in end.upstream {
      assert LastInv(end, op.session);
    }
  }

  /** A cached session that the agent loads is reused, and is the one the previous operation worked with; otherwise one is made. */
  lemma LoadedIsReused(st: State, run: seq<Action>, i: nat, ok: bool)
    requires Initial(st) && ValidRun(st, run)
    requires i < |Final(st, run).ops| && Final(st, run).ops[i].pc.Loading?
    requires Final(st, run).ops[i].session !in Final(st, run).forgotten
    ensures var end, s := Final(st, run), Final(st, run).ops[i].session;
            var loaded := Apply(end, Load(i, ok));
            && Enabled(loaded, Decide(i))
            && Apply(loaded, Decide(i)).ops[i].pc ==
               (if s in end.upstream && ok then Using(end.upstream[s]) else Creating)
            && (s in end.upstream ==> Get(end.last, s) == Some(end.upstream[s]))
  {
    ReachableInv(st, run);
    var end, op := Final(st, run), Final(st, run).ops[i];
    assert CacheInv(end, op);
    if op.session in end.upstream {
      assert LastInv(end, op.session);
    }
  }

  // ----- steps taken without interruption are the client's methods

  lemma LookUpAlone(st: State, o: nat) returns (next: State)
    requires o < |st.ops| && st.ops[o].pc.LookingUp? && forall i :: 0 <= i < |st.ops| ==> !Running(st.ops[i].pc)
    ensures Enabled(st, LookUp(o)) && Enabled(Apply(st, LookUp(o)), Acquire(o))
    ensures next == Apply(Apply(st, LookUp(o)), Acquire(o))
    ensures o < |next.ops| && next.ops[o].pc == ReadingCache && next.ops[o].session == st.ops[o].session
    ensures next.upstream == st.upstream && next.locks == st.locks[st.ops[o].session := LockFor(st.locks, st.nextLock, st.ops[o].session)]
  {
    next := Apply(Apply(st, LookUp(o)), Acquire(o));
  }

  lemma DecideAlone(st: State, o: nat, ok: bool) returns (next: State)
    requires o < |st.ops| && st.ops[o].pc == ReadingCache
    ensures Enabled(st, ReadCache(o)) && Enabled(Apply(st, ReadCache(o)), Load(o, ok))
    ensures Enabled(Apply(Apply(st, ReadCache(o)), Load(o, ok)), Decide(o))
    ensures next == Apply(Apply(Apply(st, ReadCache(o)), Load(o, ok)), Decide(o))
    ensures var s := st.ops[o].session;
            && o < |next.ops| && next.ops[o].session == s
            && (if s in st.upstream && ok then next.ops[o].pc == Using(st.upstream[s]) && next.upstream == st.upstream
                else next.ops[o].pc == Creating && next.upstream == st.upstream - {s})
  {
    var read := Apply(st, ReadCache(o));
    var loaded := Apply(read, Load(o, ok));
    next := Apply(loaded, Decide(o));
    var s := st.ops[o].session;
    if s !in st.upstream {
      assert st.upstream - {s} == st.upstream;
    }
  }

  lemma CreateAlone(st: State, o: nat, id: string) returns (next: State)
    requires o < |st.ops| && st.ops[o].pc == Creating
    ensures Enabled(st, Create(o, id)) && Enabled(Apply(st, Create(o, id)), Insert(o))
    ensures next == Apply(Apply(st, Create(o, id)), Insert(o))
    ensures o < |next.ops| && next.ops[o].pc == Using(id) && next.upstream == st.upstream[st.ops[o].session := id]
  {
    next := Apply(Apply(st, Create(o, id)), Insert(o));
  }

  /** A forget alone leaves neither an upstream id nor a lock of its session, and all others as they were. */
  lemma ForgetAlone(st: State, f: nat)
    requires f < |st.forgets| && st.forgets[f].pc.DroppingUpstream?
    ensures Enabled(st, DropUpstream(f)) && Enabled(Apply(st, DropUpstream(f)), DropLock(f))
    ensures var next, s := Apply(Apply(st, DropUpstream(f)), DropLock(f)), st.forgets[f].session;
            && next.upstream == st.upstream - {s} && next.locks == st.locks - {s} && next.nextLock == st.nextLock
  {
  }

  // ----- a forget does let two operations overlap

  const TWO_AND_A_FORGET := State(map[], 0, map[],
    [Op("s", LookingUp, 0, 0), Op("s", LookingUp, 0, 0)], [Forget("s", DroppingUpstream)], [], {}, map[])

  const ONE_RUNS_FORGOTTEN := State(map[], 1, map[],
    [Op("s", ReadingCache, 0, 0), Op("s", LookingUp, 0, 0)], [Forget("s", Forgotten)], [Removal("s", 0)], {"s"}, map[])

  lemma FirstRunsOn()
    ensures var run := [LookUp(0), Acquire(0), DropUpstream(0), DropLock(0)];
            && Initial(TWO_AND_A_FORGET) && ValidRun(TWO_AND_A_FORGET, run)
            && Final(TWO_AND_A_FORGET, run) == ONE_RUNS_FORGOTTEN
  {
    var s1 := Apply(TWO_AND_A_FORGET, LookUp(0));
    var s2 := Apply(s1, Acquire(0));
    var s3 := Apply(s2, DropUpstream(0));
    assert Apply(s3, DropLock(0)) == ONE_RUNS_FORGOTTEN;
    assert Final(s3, [DropLock(0)]) == Apply(s3, DropLock(0));
    assert ValidRun(s2, [DropUpstream(0), DropLock(0)]);
    assert ValidRun(s1, [Acquire(0), DropUpstream(0), DropLock(0)]);
  }

  lemma SecondStarts()
    ensures var run := [LookUp(1), Acquire(1)];
            && ValidRun(ONE_RUNS_FORGOTTEN, run)
            && var end := Final(ONE_RUNS_FORGOTTEN, run);
               |end.ops| == 2 && end.ops[0].session == end.ops[1].session
               && Running(end.ops[0].pc) && Running(end.ops[1].pc)
  {
    var s1 := Apply(ONE_RUNS_FORGOTTEN, LookUp(1));
    assert s1.ops[0].lock == 0 && s1.ops[1] == Op("s", Queued, 1, 1);
    assert Enabled(s1, Acquire(1));
    assert Final(s1, [Acquire(1)]) == Apply(s1, Acquire(1));
  }

  /** One operation runs, a forget removes its lock, and the next operation of the session starts beside it. */
  lemma ForgetLetsTwoRun()
    ensures exists st, first, second ::
              && Initial(st) && ValidRun(st, first) && ValidRun(Final(st, first), second)
              && var end := Final(Final(st, first), second);
                 |end.ops| == 2 && end.ops[0].session == end.ops[1].session
                 && Running(end.ops[0].pc) && Running(end.ops[1].pc)
  {
    FirstRunsOn();
    SecondStarts();
  }
}
