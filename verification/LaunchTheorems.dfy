/** What the launch protocol promises in every reachable state. */
module LaunchTheorems {
  import opened Wrappers
  import opened AgentRegistry
  import opened LaunchProtocol
  import opened LaunchSafety

  lemma {:induction false} ReachableInv(st: State, run: seq<Action>)
    requires Inv(st) && ValidRun(st, run)
    ensures Inv(Final(st, run))
    decreases |run|
  {
    if run != [] {
      KeepsInv(st, run[0]);
      ReachableInv(Apply(st, run[0]), run[1..]);
    }
  }

  lemma InitialInv(st: State)
    requires Initial(st)
    ensures Inv(st)
  {
    forall o, c ensures !Holds(st, o, c) {
    }
  }

  /** Each live child is in exactly one pair of hands, and nobody holds a dead one. */
  lemma LiveChildHasOneOwner(st: State, run: seq<Action>, child: Child)
    requires Initial(st) && ValidRun(st, run)
    ensures var end := Final(st, run);
            && (child in end.owner <==> exists o :: Holds(end, o, child))
            && (forall o, o' :: Holds(end, o, child) && Holds(end, o', child) ==> o == o')
  {
    InitialInv(st);
    ReachableInv(st, run);
    var end := Final(st, run);
    if child in end.owner {
      assert Holds(end, end.owner[child], child);
    }
  }

  /** With no thread in flight, the live children are exactly those in Running slots, one slot each. */
  lemma QuietRegistryLeaksNothing(st: State, run: seq<Action>)
    requires Initial(st) && ValidRun(st, run) && Quiescent(Final(st, run))
    ensures var end := Final(st, run);
            && (forall c :: c in end.owner <==> Runs(end.registry.slots, c))
            && (forall s :: s in end.registry.slots ==> end.registry.slots[s].Running?)
            && (forall s, s' | s in end.registry.slots && s' in end.registry.slots ::
                  end.registry.slots[s] == end.registry.slots[s'] ==> s == s')
  {
    InitialInv(st);
    ReachableInv(st, run);
    var end := Final(st, run);
    forall c ensures c in end.owner <==> Runs(end.registry.slots, c) {
      if c in end.owner {
        assert Holds(end, end.owner[c], c);
      }
      forall s | s in end.registry.slots && end.registry.slots[s] == Running(c) ensures c in end.owner {
        assert Holds(end, BySlot(s), c);
      }
    }
    forall s | s in end.registry.slots ensures end.registry.slots[s].Running? {
    }
    forall s, s' | s in end.registry.slots && s' in end.registry.slots && end.registry.slots[s] == end.registry.slots[s']
      ensures s == s'
    {
      var c := end.registry.slots[s].child;
      assert Holds(end, BySlot(s), c) && Holds(end, BySlot(s'), c);
    }
  }

  /** A parked launch waits on a reservation whose maker is still inside launch_session. */
  lemma WaiterHasSomeoneToWaitFor(st: State, run: seq<Action>, k: nat)
    requires Initial(st) && ValidRun(st, run)
    requires k < |Final(st, run).launches| && Final(st, run).launches[k].pc.Parked?
    ensures var end, s := Final(st, run), Final(st, run).launches[k].session;
            exists i, id :: i != k && HoldsReservation(end.registry, s, id) && MadeReservation(end, i, s, id)
  {
    InitialInv(st);
    ReachableInv(st, run);
    var end := Final(st, run);
    var s := end.launches[k].session;
    var i, id := end.maker[s], end.registry.slots[s].launchId;
    assert i != k && HoldsReservation(end.registry, s, id) && MadeReservation(end, i, s, id);
  }

  /** However a launch ends, no slot still holds the reservation it made. */
  lemma ExitLeavesNoReservation(st: State, run: seq<Action>, i: nat, s: SessionId)
    requires Initial(st) && ValidRun(st, run)
    requires i < |Final(st, run).launches| && Final(st, run).launches[i].pc.Returned?
    requires s in Final(st, run).registry.slots && Final(st, run).registry.slots[s].Launching?
    ensures s in Final(st, run).maker && Final(st, run).maker[s] != i
  {
    InitialInv(st);
    ReachableInv(st, run);
  }

  /**
   Hand-off under a timeout. Once both ends have stopped, the child went to the caller, or was
   killed by the spawner thread, or never was; a timed-out caller never has it, a caller that
   has it never timed out, and no two launches ever get the same child.
   */
  lemma HandOffIsExclusive(st: State, run: seq<Action>, i: nat)
    requires Initial(st) && ValidRun(st, run)
    requires i < |Final(st, run).launches| && Ended(Final(st, run).launches[i])
    ensures var end, l := Final(st, run), Final(st, run).launches[i];
            && (l.pc.outcome == LaunchTimedOut ==>
                  l.spawner == NothingSpawned || (l.spawner.Killed? && l.spawner.child !in end.owner))
            && (l.spawner.Killed? || l.spawner == NothingSpawned ==> l.pc.outcome == LaunchTimedOut)
            && (l.pc.outcome.Launched? ==> l.spawner == Delivered(Some(l.pc.outcome.child)))
            && (l.spawner.Delivered? && l.spawner.result.Some? && !l.pc.outcome.Launched? ==> l.spawner.result.value !in end.owner)
            && (forall k :: 0 <= k < |end.launches| && k != i && Spawned(l.spawner).Some? ==>
                  Spawned(end.launches[k].spawner) != Spawned(l.spawner))
  {
    InitialInv(st);
    ReachableInv(st, run);
    var l := Final(st, run).launches[i];
    if l.spawner.Killed? {
      assert Disposed(l, l.spawner.child);
    } else if l.spawner.Delivered? && l.spawner.result.Some? && !l.pc.outcome.Launched? {
      assert Disposed(l, l.spawner.result.value);
    }
  }

  /** Fewer than 2^64 reservations were made after the one of launch i, whose number is its ticket. */
  predicate FewSince(st: State, i: nat)
    requires i < |st.launches|
  {
    st.reservations - st.launches[i].ticket <= U64_RANGE
  }

  /**
   clear_launch_reservation and store_launched_child change a slot only while it is the very
   reservation their own launch made, as long as the id counter has not come round to it.
   */
  lemma TouchesOnlyOwnReservation(st: State, run: seq<Action>, a: Action)
    requires Initial(st) && ValidRun(st, run) && Enabled(Final(st, run), a)
    requires a.ClearSlot? || a.StoreChild?
    requires FewSince(Final(st, run), a.i)
    ensures var end, next := Final(st, run), Apply(Final(st, run), a);
            && (next.registry != end.registry <==> OwnReservation(end, a.i))
            && OnlySlotOf(end, next, end.launches[a.i].session)
            && (a.StoreChild? ==> (OwnReservation(end, a.i) <==> next.launches[a.i].pc.Returned?))
  {
    InitialInv(st);
    ReachableInv(st, run);
    var end, i := Final(st, run), a.i;
    HoldsIffOwn(end, i);
    match a
    case ClearSlot(_) => ClearTouchesHeld(end, i);
    case StoreChild(_) => StoreTouchesHeld(end, i);
  }

  /** The slot of its session holds a reservation, and launch i made it. */
  predicate OwnReservation(st: State, i: nat)
    requires i < |st.launches|
  {
    var s := st.launches[i].session;
    s in st.registry.slots && st.registry.slots[s].Launching? && s in st.maker && st.maker[s] == i
  }

  lemma HoldsIffOwn(st: State, i: nat)
    requires Reservations(st) && Tickets(st) && Latest(st)
    requires i < |st.launches| && InFlight(st.launches[i].pc) && FewSince(st, i)
    ensures HoldsReservation(st.registry, st.launches[i].session, st.launches[i].pc.id) <==> OwnReservation(st, i)
  {
    var l := st.launches[i];
    if HoldsReservation(st.registry, l.session, l.pc.id) && st.maker[l.session] != i {
      SameIdFarApart(l.ticket, st.launches[st.maker[l.session]].ticket);
    }
  }

  ghost predicate OnlySlotOf(st: State, next: State, s: SessionId) {
    && (forall s' :: s' != s ==> (s' in next.registry.slots <==> s' in st.registry.slots))
    && (forall s' :: s' != s && s' in st.registry.slots ==> next.registry.slots[s'] == st.registry.slots[s'])
  }

  lemma ClearTouchesHeld(st: State, i: nat)
    requires Enabled(st, ClearSlot(i))
    ensures var next, l := DoClear(st, i), st.launches[i];
            && (next.registry != st.registry <==> HoldsReservation(st.registry, l.session, l.pc.id))
            && OnlySlotOf(st, next, l.session)
  {
    var l := st.launches[i];
    if HoldsReservation(st.registry, l.session, l.pc.id) {
      assert l.session !in DoClear(st, i).registry.slots;
    }
  }

  lemma StoreTouchesHeld(st: State, i: nat)
    requires Enabled(st, StoreChild(i))
    ensures var next, l := DoStore(st, i), st.launches[i];
            && (next.registry != st.registry <==> HoldsReservation(st.registry, l.session, l.pc.id))
            && OnlySlotOf(st, next, l.session)
            && (next.launches[i].pc.Returned? <==> HoldsReservation(st.registry, l.session, l.pc.id))
  {
    var l := st.launches[i];
    if HoldsReservation(st.registry, l.session, l.pc.id) {
      assert DoStore(st, i).registry.slots[l.session] == Running(l.pc.child);
    }
  }

  lemma SameIdFarApart(t: nat, u: nat)
    requires t < u && t % U64_RANGE == u % U64_RANGE
    ensures U64_RANGE <= u - t
  {
    var q, r := t / U64_RANGE, u / U64_RANGE;
    assert t == q * U64_RANGE + t % U64_RANGE && u == r * U64_RANGE + u % U64_RANGE;
  }
}
