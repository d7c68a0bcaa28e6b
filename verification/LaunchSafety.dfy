/**
 What every interleaving of launches, forgets and spawner threads keeps: each live child has
 exactly one owner, no waiter is stranded, a timed-out hand-off never delivers, and a launch
 touches only its own reservation.
 */
module LaunchSafety {
  import opened Wrappers
  import opened AgentRegistry
  import opened LaunchProtocol

  predicate LaunchHolds(pc: LaunchPc, child: Child) {
    match pc
    case Probing(_, c) => c == child
    case Aborting(_, c) => c == child
    case Storing(_, c) => c == child
    case Discarding(c, _) => c == child
    case _ => false
  }

  predicate SpawnerHolds(spawner: SpawnPc, child: Child) {
    spawner == Sending(Some(child)) || spawner == CleaningUp(child)
  }

  /** Who has the child in hand, read off the program counters and slots alone. */
  predicate Holds(st: State, o: Owner, child: Child) {
    match o
    case ByLaunch(i) => i < |st.launches| && LaunchHolds(st.launches[i].pc, child)
    case BySpawner(i) => i < |st.launches| && SpawnerHolds(st.launches[i].spawner, child)
    case BySlot(s) => s in st.registry.slots && st.registry.slots[s] == Running(child)
    case ByForget(j) => j < |st.forgets| && st.forgets[j].pc == Terminating(child)
  }

  ghost predicate Ownership(st: State) {
    && (forall o, c :: Holds(st, o, c) <==> c in st.owner && st.owner[c] == o)
    && (forall c :: c in st.owner ==> c < st.spawned)
  }

  /** Between reserve_launch and the end of launch_session, while the reservation may still be there. */
  predicate InFlight(pc: LaunchPc) {
    pc.Preparing? || pc.Receiving? || pc.TimedOut? || pc.Probing? || pc.Aborting? || pc.Storing? || pc.Clearing?
  }

  predicate MadeReservation(st: State, i: nat, session: SessionId, id: nat) {
    i < |st.launches| && st.launches[i].session == session && InFlight(st.launches[i].pc) && st.launches[i].pc.id == id
  }

  ghost predicate Reservations(st: State) {
    forall s :: s in st.registry.slots && st.registry.slots[s].Launching? ==>
      s in st.maker && MadeReservation(st, st.maker[s], s, st.registry.slots[s].launchId)
  }

  ghost predicate Waiting(st: State) {
    forall i :: 0 <= i < |st.launches| && st.launches[i].pc.Parked? ==>
      st.launches[i].session in st.registry.slots && st.registry.slots[st.launches[i].session].Launching?
  }

  ghost predicate Tickets(st: State) {
    && st.registry.nextLaunchId == st.reservations % U64_RANGE
    && (forall i :: 0 <= i < |st.launches| && InFlight(st.launches[i].pc) ==>
          st.launches[i].ticket < st.reservations && st.launches[i].pc.id == st.launches[i].ticket % U64_RANGE)
    && (forall i, k :: 0 <= i < k < |st.launches| && InFlight(st.launches[i].pc) && InFlight(st.launches[k].pc) ==>
          st.launches[i].ticket != st.launches[k].ticket)
  }

  /** The reservation in a slot is the latest one made for its session among the launches in flight. */
  ghost predicate Latest(st: State) {
    forall s, i |
      && s in st.registry.slots && st.registry.slots[s].Launching? && s in st.maker && st.maker[s] < |st.launches|
      && 0 <= i < |st.launches| && i != st.maker[s] && InFlight(st.launches[i].pc) && st.launches[i].session == s ::
        st.launches[i].ticket < st.launches[st.maker[s]].ticket
  }

  /** The child a launch's spawner thread created, wherever it is now. */
  function Spawned(spawner: SpawnPc): Option<Child> {
    match spawner
    case Sending(result) => result
    case Delivered(result) => result
    case CleaningUp(child) => Some(child)
    case Killed(child) => Some(child)
    case _ => None
  }

  ghost predicate Births(st: State) {
    && (forall i :: 0 <= i < |st.launches| && Spawned(st.launches[i].spawner).Some? ==>
          Spawned(st.launches[i].spawner).value < st.spawned)
    && (forall i, k :: 0 <= i < k < |st.launches| && Spawned(st.launches[i].spawner).Some? ==>
          Spawned(st.launches[i].spawner) != Spawned(st.launches[k].spawner))
  }

  /** How the outcome of a launch and the fate of its spawner thread fit together. */
  predicate OutcomeFits(plan: Plan, outcome: Outcome, spawner: SpawnPc) {
    match outcome
    case Launched(child) => spawner == Delivered(Some(child))
    case NotReady => plan.Agent? && plan.wantsEndpoint && spawner.Delivered? && spawner.result.Some?
    case LaunchCancelled => spawner.Delivered? && spawner.result.Some?
    case LostToRunning => spawner.Delivered? && spawner.result.Some?
    case SpawnFailed => spawner == Delivered(None)
    case LaunchTimedOut => !spawner.NotSpawned? && !spawner.Delivered?
    case StdioReady => plan == Agent(Host, false) && spawner.NotSpawned?
    case _ => spawner.NotSpawned?
  }

  predicate Coupled(l: Launch) {
    match l.pc
    case Receiving(_) => l.spawner.Spawning? || l.spawner.Sending?
    case TimedOut(_) => l.spawner.Spawning? || l.spawner.Sending?
    case Probing(_, child) => l.spawner == Delivered(Some(child))
    case Aborting(_, child) => l.spawner == Delivered(Some(child)) && l.plan.Agent? && l.plan.wantsEndpoint
    case Storing(_, child) => l.spawner == Delivered(Some(child))
    case Discarding(child, outcome) =>
      l.spawner == Delivered(Some(child)) && (outcome == LaunchCancelled || outcome == LostToRunning)
    case Clearing(_, outcome) => OutcomeFits(l.plan, outcome, l.spawner)
    case Returned(outcome) => OutcomeFits(l.plan, outcome, l.spawner)
    case _ => l.spawner.NotSpawned?
  }

  ghost predicate Coupling(st: State) {
    forall i :: 0 <= i < |st.launches| ==> Coupled(st.launches[i])
  }

  /** A child that was terminated by its launch or its spawner thread is not alive. */
  ghost predicate Settled(st: State) {
    forall i :: 0 <= i < |st.launches| ==> SettledLaunch(st, st.launches[i])
  }

  predicate Disposed(l: Launch, c: Child) {
    || l.spawner == Killed(c)
    || (l.spawner == Delivered(Some(c)) && (l.pc.Clearing? || (l.pc.Returned? && !l.pc.outcome.Launched?)))
  }

  ghost predicate SettledLaunch(st: State, l: Launch) {
    forall c :: Disposed(l, c) ==> c !in st.owner
  }

  ghost predicate Inv(st: State) {
    Ownership(st) && Reservations(st) && Waiting(st) && Tickets(st) && Latest(st) && Births(st) && Coupling(st) && Settled(st)
  }

  // ----- what one action can touch

  predicate SameOrWoken(before: Launch, after: Launch) {
    after == before || (before.pc.Parked? && after == before.(pc := Reserving))
  }

  predicate Acts(a: Action, i: nat) {
    !a.ForgetSlot? && !a.KillForgotten? && a.i == i
  }

  lemma LocalMovesOne(st: State, a: Action, k: nat)
    requires !a.ForgetSlot? && !a.KillForgotten? && a.i < |st.launches| && LocalEnabled(st.launches[a.i], a) && k < |st.launches|
    ensures |DoLocal(st, a).launches| == |st.launches|
    ensures k != a.i ==> DoLocal(st, a).launches[k] == st.launches[k]
  {
  }

  lemma ReserveMovesOne(st: State, i: nat, k: nat)
    requires Enabled(st, ReserveSlot(i)) && k < |st.launches|
    ensures |DoReserve(st, i).launches| == |st.launches|
    ensures k != i ==> DoReserve(st, i).launches[k] == st.launches[k]
  {
  }

  lemma StoreMovesOne(st: State, i: nat, k: nat)
    requires Enabled(st, StoreChild(i)) && k < |st.launches|
    ensures |DoStore(st, i).launches| == |st.launches|
    ensures k != i ==> SameOrWoken(st.launches[k], DoStore(st, i).launches[k])
  {
  }

  lemma ClearMovesOne(st: State, i: nat, k: nat)
    requires Enabled(st, ClearSlot(i)) && k < |st.launches|
    ensures |DoClear(st, i).launches| == |st.launches|
    ensures k != i ==> SameOrWoken(st.launches[k], DoClear(st, i).launches[k])
  {
  }

  lemma ForgetMovesNone(st: State, j: nat, k: nat)
    requires j < |st.forgets| && k < |st.launches|
    ensures |DoForget(st, j).launches| == |st.launches|
    ensures SameOrWoken(st.launches[k], DoForget(st, j).launches[k])
  {
  }

  lemma OnlyActorMoves(st: State, a: Action, k: nat)
    requires Enabled(st, a) && k < |st.launches|
    ensures |Apply(st, a).launches| == |st.launches|
    ensures !Acts(a, k) ==> SameOrWoken(st.launches[k], Apply(st, a).launches[k])
  {
    match a
    case ReserveSlot(i) => ReserveMovesOne(st, i, k);
    case ReadMetadata(_) =>
    case StoreChild(i) => StoreMovesOne(st, i, k);
    case ClearSlot(i) => ClearMovesOne(st, i, k);
    case ForgetSlot(j) => ForgetMovesNone(st, j, k);
    case KillForgotten(_) =>
    case _ => LocalMovesOne(st, a, k);
  }

  lemma LaunchCount(st: State, a: Action)
    requires Enabled(st, a)
    ensures |Apply(st, a).launches| == |st.launches|
  {
  }

  lemma LocalStepCoupled(l: Launch, a: Action, newborn: Child)
    requires LocalEnabled(l, a) && Coupled(l)
    ensures Coupled(LocalStep(l, a, newborn))
    ensures LocalStep(l, a, newborn).session == l.session
    ensures var after := Spawned(LocalStep(l, a, newborn).spawner);
            after == Spawned(l.spawner) || (after == Some(newborn) && a.Spawn? && a.ok)
  {
  }

  /** The acting launch keeps its session, and its two counters stay coupled. */
  lemma ActorCoupled(st: State, a: Action, i: nat)
    requires Enabled(st, a) && Acts(a, i) && Coupled(st.launches[i])
    ensures i < |Apply(st, a).launches|
    ensures Coupled(Apply(st, a).launches[i])
    ensures Apply(st, a).launches[i].session == st.launches[i].session
    ensures var after := Spawned(Apply(st, a).launches[i].spawner);
            after == Spawned(st.launches[i].spawner)
            || (after == Some(st.spawned) && Apply(st, a).spawned == st.spawned + 1)
  {
    if LocalEnabled(st.launches[i], a) {
      LocalStepCoupled(st.launches[i], a, st.spawned);
    }
  }

  lemma ActorTicket(st: State, a: Action, i: nat)
    requires Enabled(st, a) && Acts(a, i)
    ensures i < |Apply(st, a).launches|
    ensures var before, after := st.launches[i], Apply(st, a).launches[i];
            InFlight(after.pc) ==>
              || (InFlight(before.pc) && after.ticket == before.ticket && after.pc.id == before.pc.id)
              || (after.ticket == st.reservations && after.pc.id == st.registry.nextLaunchId
                  && Apply(st, a).reservations == st.reservations + 1)
  {
  }

  lemma Counters(st: State, a: Action)
    requires Enabled(st, a)
    ensures st.spawned <= Apply(st, a).spawned
    ensures st.reservations <= Apply(st, a).reservations
    ensures st.registry.nextLaunchId == st.reservations % U64_RANGE ==>
              Apply(st, a).registry.nextLaunchId == Apply(st, a).reservations % U64_RANGE
  {
  }

  // ----- slots and their makers

  predicate MovesSlots(a: Action) {
    a.ReserveSlot? || a.StoreChild? || a.ClearSlot? || a.ForgetSlot?
  }

  lemma RegistryStays(st: State, a: Action)
    requires Enabled(st, a) && !MovesSlots(a)
    ensures Apply(st, a).registry == st.registry && Apply(st, a).maker == st.maker
  {
  }

  /** A slot being launched stays as it is, unless everyone parked is woken. */
  ghost predicate KeptOrNotified(st: State, next: State) {
    || (forall k :: 0 <= k < |next.launches| ==> !next.launches[k].pc.Parked?)
    || (forall s :: s in st.registry.slots && st.registry.slots[s].Launching? ==>
          s in next.registry.slots && next.registry.slots[s] == st.registry.slots[s])
  }

  lemma ReserveKeepsSlots(st: State, i: nat)
    requires Enabled(st, ReserveSlot(i))
    ensures KeptOrNotified(st, DoReserve(st, i))
  {
  }

  lemma StoreKeepsOrNotifies(st: State, i: nat)
    requires Enabled(st, StoreChild(i))
    ensures KeptOrNotified(st, DoStore(st, i))
  {
  }

  lemma ClearKeepsOrNotifies(st: State, i: nat)
    requires Enabled(st, ClearSlot(i))
    ensures KeptOrNotified(st, DoClear(st, i))
  {
  }

  lemma ForgetKeepsOrNotifies(st: State, j: nat)
    requires j < |st.forgets|
    ensures KeptOrNotified(st, DoForget(st, j))
  {
  }

  lemma SlotsKeptOrNotified(st: State, a: Action)
    requires Enabled(st, a)
    ensures KeptOrNotified(st, Apply(st, a))
  {
    if MovesSlots(a) {
      match a {
        case ReserveSlot(i) => ReserveKeepsSlots(st, i);
        case StoreChild(i) => StoreKeepsOrNotifies(st, i);
        case ClearSlot(i) => ClearKeepsOrNotifies(st, i);
        case ForgetSlot(j) => ForgetKeepsOrNotifies(st, j);
      }
    } else {
      RegistryStays(st, a);
    }
  }

  /** The reservation in a slot was there before, made by the same launch. */
  ghost predicate OldReservation(st: State, next: State, s: SessionId)
    requires s in next.registry.slots
  {
    && s in st.registry.slots && st.registry.slots[s] == next.registry.slots[s]
    && (s in st.maker ==> s in next.maker && next.maker[s] == st.maker[s])
  }

  lemma ReserveNewSlot(st: State, i: nat, s: SessionId)
    requires Enabled(st, ReserveSlot(i)) && s in DoReserve(st, i).registry.slots
    ensures var next := DoReserve(st, i);
            || OldReservation(st, next, s)
            || (st.launches[i].session == s && s !in st.registry.slots && s in next.maker && next.maker[s] == i
                && next.registry.slots[s] == Launching(st.registry.nextLaunchId))
  {
  }

  lemma StoreNewSlot(st: State, i: nat, s: SessionId)
    requires Enabled(st, StoreChild(i))
    requires s in DoStore(st, i).registry.slots && DoStore(st, i).registry.slots[s].Launching?
    ensures OldReservation(st, DoStore(st, i), s)
  {
  }

  lemma ClearNewSlot(st: State, i: nat, s: SessionId)
    requires Enabled(st, ClearSlot(i)) && s in DoClear(st, i).registry.slots
    ensures OldReservation(st, DoClear(st, i), s)
  {
  }

  lemma ForgetNewSlot(st: State, j: nat, s: SessionId)
    requires j < |st.forgets| && s in DoForget(st, j).registry.slots
    ensures OldReservation(st, DoForget(st, j), s)
  {
  }

  lemma NewSlot(st: State, a: Action, s: SessionId)
    requires Enabled(st, a)
    requires s in Apply(st, a).registry.slots && Apply(st, a).registry.slots[s].Launching?
    ensures var next := Apply(st, a);
            || OldReservation(st, next, s)
            || (a.ReserveSlot? && st.launches[a.i].session == s && s !in st.registry.slots && s in next.maker && next.maker[s] == a.i
                && next.registry.slots[s].launchId == st.registry.nextLaunchId)
  {
    if MovesSlots(a) {
      match a {
        case ReserveSlot(i) => ReserveNewSlot(st, i, s);
        case StoreChild(i) => StoreNewSlot(st, i, s);
        case ClearSlot(i) => ClearNewSlot(st, i, s);
        case ForgetSlot(j) => ForgetNewSlot(st, j, s);
      }
    } else {
      RegistryStays(st, a);
    }
  }

  // ----- ownership

  ghost predicate OwnerIs(st: State, o: Owner, c: Child) {
    c in st.owner && st.owner[c] == o
  }

  lemma LocalStepHolds(l: Launch, a: Action, newborn: Child, owner: map<Child, Owner>, c: Child)
    requires LocalEnabled(l, a) && Coupled(l) && newborn !in owner && (c == newborn ==> Spawned(l.spawner) != Some(c))
    requires SpawnerHolds(l.spawner, c) <==> c in owner && owner[c] == BySpawner(a.i)
    requires LaunchHolds(l.pc, c) <==> c in owner && owner[c] == ByLaunch(a.i)
    ensures var after, now := LocalStep(l, a, newborn), LocalOwner(owner, l, a, newborn);
            && (SpawnerHolds(after.spawner, c) <==> c in now && now[c] == BySpawner(a.i))
            && (LaunchHolds(after.pc, c) <==> c in now && now[c] == ByLaunch(a.i))
  {
  }

  lemma LocalOwnerElsewhere(l: Launch, a: Action, newborn: Child, owner: map<Child, Owner>, o: Owner, c: Child)
    requires LocalEnabled(l, a) && newborn !in owner
    requires o != BySpawner(a.i) && o != ByLaunch(a.i)
    requires forall c :: SpawnerHolds(l.spawner, c) ==> c in owner && owner[c] == BySpawner(a.i)
    requires forall c :: LaunchHolds(l.pc, c) ==> c in owner && owner[c] == ByLaunch(a.i)
    ensures var now := LocalOwner(owner, l, a, newborn);
            (c in now && now[c] == o) <==> (c in owner && owner[c] == o)
  {
    if l.spawner.Sending? && l.spawner.result.Some? {
      assert SpawnerHolds(l.spawner, l.spawner.result.value);
    }
    if l.spawner.CleaningUp? {
      assert SpawnerHolds(l.spawner, l.spawner.child);
    }
    if l.pc.Aborting? || l.pc.Discarding? {
      assert LaunchHolds(l.pc, l.pc.child);
    }
  }

  lemma LocalKeepsOwner(st: State, a: Action, o: Owner, c: Child)
    requires !a.ForgetSlot? && !a.KillForgotten? && a.i < |st.launches| && LocalEnabled(st.launches[a.i], a)
    requires Ownership(st) && Coupled(st.launches[a.i]) && Spawned(st.launches[a.i].spawner) != Some(st.spawned)
    ensures Holds(DoLocal(st, a), o, c) <==> OwnerIs(DoLocal(st, a), o, c)
  {
    var l := st.launches[a.i];
    var me, mine := ByLaunch(a.i), BySpawner(a.i);
    forall d
      ensures SpawnerHolds(l.spawner, d) <==> OwnerIs(st, mine, d)
      ensures LaunchHolds(l.pc, d) <==> OwnerIs(st, me, d)
    {
      assert Holds(st, mine, d) <==> OwnerIs(st, mine, d);
      assert Holds(st, me, d) <==> OwnerIs(st, me, d);
    }
    if o == mine || o == me {
      LocalStepHolds(l, a, st.spawned, st.owner, c);
    } else {
      LocalOwnerElsewhere(l, a, st.spawned, st.owner, o, c);
      assert Holds(DoLocal(st, a), o, c) <==> Holds(st, o, c);
    }
  }

  lemma ReserveKeepsOwner(st: State, i: nat, o: Owner, c: Child)
    requires Ownership(st) && Enabled(st, ReserveSlot(i))
    ensures Holds(DoReserve(st, i), o, c) <==> OwnerIs(DoReserve(st, i), o, c)
  {
    assert Holds(st, o, c) <==> OwnerIs(st, o, c);
  }

  lemma ReadMetadataKeepsOwner(st: State, i: nat, o: Owner, c: Child)
    requires Ownership(st) && Enabled(st, ReadMetadata(i))
    ensures Holds(DoReadMetadata(st, i), o, c) <==> OwnerIs(DoReadMetadata(st, i), o, c)
  {
    assert Holds(st, o, c) <==> OwnerIs(st, o, c);
  }

  lemma ClearKeepsOwner(st: State, i: nat, o: Owner, c: Child)
    requires Ownership(st) && Enabled(st, ClearSlot(i))
    ensures Holds(DoClear(st, i), o, c) <==> OwnerIs(DoClear(st, i), o, c)
  {
    assert Holds(st, o, c) <==> OwnerIs(st, o, c);
  }

  lemma StoreKeepsOwner(st: State, i: nat, o: Owner, c: Child)
    requires Ownership(st) && Enabled(st, StoreChild(i))
    ensures Holds(DoStore(st, i), o, c) <==> OwnerIs(DoStore(st, i), o, c)
  {
    assert Holds(st, o, c) <==> OwnerIs(st, o, c);
    assert Holds(st, ByLaunch(i), st.launches[i].pc.child);
  }

  lemma ForgetKeepsOwner(st: State, a: Action, o: Owner, c: Child)
    requires Ownership(st) && Enabled(st, a) && (a.ForgetSlot? || a.KillForgotten?)
    ensures Holds(Apply(st, a), o, c) <==> OwnerIs(Apply(st, a), o, c)
  {
    assert Holds(st, o, c) <==> OwnerIs(st, o, c);
    var f := st.forgets[a.j];
    if a.KillForgotten? {
      assert Holds(st, ByForget(a.j), f.pc.child);
    } else if f.session in st.registry.slots && st.registry.slots[f.session].Running? {
      assert Holds(st, BySlot(f.session), st.registry.slots[f.session].child);
    }
  }

  // ----- every action keeps the invariant

  lemma KeepsOwner(st: State, a: Action, o: Owner, c: Child)
    requires Ownership(st) && Coupling(st) && Births(st) && Enabled(st, a)
    ensures Holds(Apply(st, a), o, c) <==> OwnerIs(Apply(st, a), o, c)
  {
    if MovesSlots(a) && !a.ForgetSlot? {
      match a {
        case ReserveSlot(i) => ReserveKeepsOwner(st, i, o, c);
        case ClearSlot(i) => ClearKeepsOwner(st, i, o, c);
        case StoreChild(i) => StoreKeepsOwner(st, i, o, c);
      }
    } else if a.ReadMetadata? {
      ReadMetadataKeepsOwner(st, a.i, o, c);
    } else if a.ForgetSlot? || a.KillForgotten? {
      ForgetKeepsOwner(st, a, o, c);
    } else {
      LocalKeepsOwner(st, a, o, c);
    }
  }

  lemma KeepsOwnership(st: State, a: Action)
    requires Ownership(st) && Coupling(st) && Births(st) && Enabled(st, a)
    ensures Ownership(Apply(st, a))
  {
    forall o, c ensures Holds(Apply(st, a), o, c) <==> OwnerIs(Apply(st, a), o, c) {
      KeepsOwner(st, a, o, c);
    }
    OnlySpawnAddsOwner(st, a);
    Counters(st, a);
  }

  lemma KeepsCoupling(st: State, a: Action)
    requires Coupling(st) && Enabled(st, a)
    ensures Coupling(Apply(st, a))
  {
    forall k | 0 <= k < |Apply(st, a).launches| ensures Coupled(Apply(st, a).launches[k]) {
      OnlyActorMoves(st, a, k);
      if Acts(a, k) {
        ActorCoupled(st, a, k);
      }
    }
  }

  lemma KeepsBirths(st: State, a: Action)
    requires Births(st) && Coupling(st) && Enabled(st, a)
    ensures Births(Apply(st, a))
  {
    var next := Apply(st, a);
    Counters(st, a);
    forall k | 0 <= k < |next.launches|
      ensures k < |st.launches|
      ensures var after := Spawned(next.launches[k].spawner);
              after == Spawned(st.launches[k].spawner) || (Acts(a, k) && after == Some(st.spawned) && next.spawned == st.spawned + 1)
    {
      OnlyActorMoves(st, a, k);
      if Acts(a, k) {
        ActorCoupled(st, a, k);
      }
    }
  }

  lemma KeepsTickets(st: State, a: Action)
    requires Tickets(st) && Enabled(st, a)
    ensures Tickets(Apply(st, a))
  {
    var next := Apply(st, a);
    Counters(st, a);
    forall k | 0 <= k < |next.launches| && InFlight(next.launches[k].pc)
      ensures k < |st.launches|
      ensures var before, after := st.launches[k], next.launches[k];
              || (InFlight(before.pc) && after.ticket == before.ticket && after.pc.id == before.pc.id)
              || (Acts(a, k) && after.ticket == st.reservations && after.pc.id == st.registry.nextLaunchId
                  && next.reservations == st.reservations + 1)
    {
      OnlyActorMoves(st, a, k);
      if Acts(a, k) {
        ActorTicket(st, a, k);
      }
    }
  }

  lemma KeepsWaiting(st: State, a: Action)
    requires Waiting(st) && Enabled(st, a)
    ensures Waiting(Apply(st, a))
  {
    var next := Apply(st, a);
    SlotsKeptOrNotified(st, a);
    forall k | 0 <= k < |next.launches| && next.launches[k].pc.Parked?
      ensures next.launches[k].session in next.registry.slots && next.registry.slots[next.launches[k].session].Launching?
    {
      OnlyActorMoves(st, a, k);
    }
  }

  lemma KeepsReservations(st: State, a: Action)
    requires Reservations(st) && Coupling(st) && Enabled(st, a)
    ensures Reservations(Apply(st, a))
  {
    var next := Apply(st, a);
    forall s | s in next.registry.slots && next.registry.slots[s].Launching?
      ensures s in next.maker && MadeReservation(next, next.maker[s], s, next.registry.slots[s].launchId)
    {
      NewSlot(st, a, s);
      if s in st.registry.slots {
        MakerStays(st, a, st.maker[s], s, st.registry.slots[s].launchId);
      }
    }
  }

  /** The launch that made a reservation leaves only by a step that takes the reservation away. */
  lemma MakerStays(st: State, a: Action, i: nat, s: SessionId, id: nat)
    requires Enabled(st, a) && MadeReservation(st, i, s, id) && HoldsReservation(st.registry, s, id)
    requires HoldsReservation(Apply(st, a).registry, s, id)
    ensures MadeReservation(Apply(st, a), i, s, id)
  {
    OnlyActorMoves(st, a, i);
  }

  lemma OldSlotStaysLatest(st: State, a: Action, s: SessionId, i: nat)
    requires Enabled(st, a) && Latest(st) && Coupling(st) && i < |st.launches|
    requires s in Apply(st, a).registry.slots && Apply(st, a).registry.slots[s].Launching?
    requires OldReservation(st, Apply(st, a), s) && s in st.maker && st.maker[s] < |st.launches| && i != st.maker[s]
    requires InFlight(Apply(st, a).launches[i].pc) && Apply(st, a).launches[i].session == s
    requires InFlight(st.launches[st.maker[s]].pc) && InFlight(Apply(st, a).launches[st.maker[s]].pc)
    ensures Apply(st, a).launches[i].ticket < Apply(st, a).launches[st.maker[s]].ticket
  {
    TicketStays(st, a, i);
    TicketStays(st, a, st.maker[s]);
    if !InFlight(st.launches[i].pc) {
      OnlyReserveTakesOff(st, a, i);
    }
  }

  /** A launch comes in flight only by reserving a free slot. */
  lemma OnlyReserveTakesOff(st: State, a: Action, i: nat)
    requires Enabled(st, a) && Acts(a, i) && !InFlight(st.launches[i].pc) && Coupled(st.launches[i])
    requires i < |Apply(st, a).launches| && InFlight(Apply(st, a).launches[i].pc)
    ensures a.ReserveSlot? && st.launches[i].session !in st.registry.slots
  {
  }

  lemma NewSlotIsLatest(st: State, a: Action, s: SessionId, i: nat)
    requires Enabled(st, a) && a.ReserveSlot? && Tickets(st) && Coupling(st) && i < |st.launches| && i != a.i
    requires st.launches[a.i].session == s && s !in st.registry.slots
    requires InFlight(Apply(st, a).launches[i].pc)
    ensures Apply(st, a).launches[i].ticket < Apply(st, a).launches[a.i].ticket
  {
    TicketStays(st, a, i);
  }

  lemma KeepsLatest(st: State, a: Action)
    requires Reservations(st) && Tickets(st) && Latest(st) && Coupling(st) && Enabled(st, a)
    requires Reservations(Apply(st, a))
    ensures Latest(Apply(st, a))
  {
    var next := Apply(st, a);
    forall s, i | s in next.registry.slots && next.registry.slots[s].Launching? && s in next.maker && next.maker[s] < |next.launches|
      && 0 <= i < |next.launches| && i != next.maker[s] && InFlight(next.launches[i].pc) && next.launches[i].session == s
      ensures next.launches[i].ticket < next.launches[next.maker[s]].ticket
    {
      OnlyActorMoves(st, a, next.maker[s]);
      NewSlot(st, a, s);
      if OldReservation(st, next, s) {
        OldSlotStaysLatest(st, a, s, i);
      } else {
        NewSlotIsLatest(st, a, s, i);
      }
    }
  }

  lemma TicketStays(st: State, a: Action, i: nat)
    requires Enabled(st, a) && i < |st.launches| && Coupled(st.launches[i]) && InFlight(Apply(st, a).launches[i].pc)
    ensures var before, after := st.launches[i], Apply(st, a).launches[i];
            && after.session == before.session
            && (if InFlight(before.pc) then after.ticket == before.ticket else Acts(a, i) && after.ticket == st.reservations)
  {
    OnlyActorMoves(st, a, i);
    if Acts(a, i) {
      ActorTicket(st, a, i);
      ActorCoupled(st, a, i);
    }
  }

  lemma OnlySpawnAddsOwner(st: State, a: Action)
    requires Ownership(st) && Enabled(st, a)
    ensures forall c :: c in Apply(st, a).owner ==> c in st.owner || (c == st.spawned && Apply(st, a).spawned == st.spawned + 1)
  {
    if a.HandOff? && st.launches[a.i].spawner.result.Some? {
      assert Holds(st, BySpawner(a.i), st.launches[a.i].spawner.result.value);
    } else if a.StoreChild? {
      assert Holds(st, ByLaunch(a.i), st.launches[a.i].pc.child);
    } else if a.ForgetSlot? {
      var s := st.forgets[a.j].session;
      if s in st.registry.slots && st.registry.slots[s].Running? {
        assert Holds(st, BySlot(s), st.registry.slots[s].child);
      }
    }
  }

  lemma ActorDisposes(st: State, a: Action, i: nat, c: Child)
    requires Enabled(st, a) && Acts(a, i) && Coupled(st.launches[i]) && Disposed(Apply(st, a).launches[i], c)
    ensures Disposed(st.launches[i], c) || c !in Apply(st, a).owner
  {
  }

  lemma DisposedIsSpawned(l: Launch, c: Child)
    requires Disposed(l, c)
    ensures Spawned(l.spawner) == Some(c)
  {
  }

  lemma LaunchStaysSettled(st: State, a: Action, k: nat, c: Child)
    requires Coupling(st) && Births(st) && Enabled(st, a)
    requires k < |st.launches| && k < |Apply(st, a).launches| && SettledLaunch(st, st.launches[k])
    requires forall c :: c in Apply(st, a).owner ==> c in st.owner || (c == st.spawned && Apply(st, a).spawned == st.spawned + 1)
    requires Disposed(Apply(st, a).launches[k], c)
    ensures c !in Apply(st, a).owner
  {
    OnlyActorMoves(st, a, k);
    if Acts(a, k) {
      ActorDisposes(st, a, k, c);
    }
    if Disposed(st.launches[k], c) {
      DisposedIsSpawned(st.launches[k], c);
    }
  }

  lemma KeepsSettled(st: State, a: Action)
    requires Ownership(st) && Coupling(st) && Births(st) && Settled(st) && Enabled(st, a)
    ensures Settled(Apply(st, a))
  {
    OnlySpawnAddsOwner(st, a);
    forall k, c | 0 <= k < |Apply(st, a).launches| && Disposed(Apply(st, a).launches[k], c) ensures c !in Apply(st, a).owner {
      LaunchCount(st, a);
      LaunchStaysSettled(st, a, k, c);
    }
  }

  lemma KeepsInv(st: State, a: Action)
    requires Inv(st) && Enabled(st, a)
    ensures Inv(Apply(st, a))
  {
    KeepsOwnership(st, a);
    KeepsReservations(st, a);
    KeepsWaiting(st, a);
    KeepsTickets(st, a);
    KeepsLatest(st, a);
    KeepsBirths(st, a);
    KeepsCoupling(st, a);
    KeepsSettled(st, a);
  }
}
