/**
 The agent child registry: one slot per session, either reserved by a launch or holding a
 running child. The functions are the critical sections the source runs under the registry
 mutex; the class runs them in place; LaunchProtocol interleaves them.
 */
module AgentRegistry {
  import opened Wrappers

  /** One more than the largest launch id. */
  const U64_RANGE: nat := 0x1_0000_0000_0000_0000

  type SessionId = string

  /** A child process, named by its place in the order of spawns. */
  type Child = nat

  datatype Slot = Launching(launchId: nat) | Running(child: Child)

  datatype Registry = Registry(slots: map<SessionId, Slot>, nextLaunchId: nat)

  datatype ReserveOutcome = Reserved(launchId: nat) | MustWait | AlreadyRunning

  datatype StoreOutcome = Stored | Cancelled | Occupied

  const EMPTY_REGISTRY := Registry(map[], 0)

  function Without(slots: map<SessionId, Slot>, session: SessionId): map<SessionId, Slot> {
    map s | s in slots && s != session :: slots[s]
  }

  predicate HoldsReservation(registry: Registry, session: SessionId, launchId: nat) {
    session in registry.slots && registry.slots[session] == Launching(launchId)
  }

  /** One pass of the loop in reserve_launch. */
  function Reserve(registry: Registry, session: SessionId): (ReserveOutcome, Registry) {
    if session !in registry.slots then
      var id := registry.nextLaunchId;
      (Reserved(id), Registry(registry.slots[session := Launching(id)], (id + 1) % U64_RANGE))
    else if registry.slots[session].Launching? then
      (MustWait, registry)
    else
      (AlreadyRunning, registry)
  }

  /** clear_launch_reservation; the flag says whether waiters are notified. */
  function Clear(registry: Registry, session: SessionId, launchId: nat): (bool, Registry) {
    if HoldsReservation(registry, session, launchId) then
      (true, registry.(slots := Without(registry.slots, session)))
    else
      (false, registry)
  }

  /** store_launched_child; waiters are notified exactly when the child is stored. */
  function Store(registry: Registry, session: SessionId, launchId: nat, child: Child): (StoreOutcome, Registry) {
    if session !in registry.slots then
      (Cancelled, registry)
    else if registry.slots[session] == Launching(launchId) then
      (Stored, registry.(slots := registry.slots[session := Running(child)]))
    else if registry.slots[session].Launching? then
      (Cancelled, registry)
    else
      (Occupied, registry)
  }

  /** The locked part of forget_session; waiters are notified when a slot was there. */
  function Forget(registry: Registry, session: SessionId): (Option<Slot>, Registry) {
    if session in registry.slots then
      (Some(registry.slots[session]), registry.(slots := Without(registry.slots, session)))
    else
      (None, registry)
  }

  /** The registry as the source holds it: fields changed in place under the mutex. */
  class ChildRegistry {
    var slots: map<SessionId, Slot>
    var nextLaunchId: nat
    /** How often the condition variable was notified. */
    var notifications: nat

    constructor ()
      ensures View() == EMPTY_REGISTRY && notifications == 0
    {
      slots, nextLaunchId, notifications := map[], 0, 0;
    }

    function View(): Registry
      reads this
    {
      Registry(slots, nextLaunchId)
    }

    method TryReserve(session: SessionId) returns (outcome: ReserveOutcome)
      modifies this
      ensures (outcome, View()) == Reserve(old(View()), session)
      ensures notifications == old(notifications)
    {
      if session !in slots {
        var launchId := nextLaunchId;
        nextLaunchId := (nextLaunchId + 1) % U64_RANGE;
        slots := slots[session := Launching(launchId)];
        return Reserved(launchId);
      }
      match slots[session]
      case Launching(_) => outcome := MustWait;
      case Running(_) => outcome := AlreadyRunning;
    }

    method ClearLaunchReservation(session: SessionId, launchId: nat)
      modifies this
      ensures View() == Clear(old(View()), session, launchId).1
      ensures notifications == old(notifications) + if Clear(old(View()), session, launchId).0 then 1 else 0
    {
      if session in slots && slots[session] == Launching(launchId) {
        slots := Without(slots, session);
        notifications := notifications + 1;
      }
    }

    method StoreLaunchedChild(session: SessionId, launchId: nat, child: Child) returns (outcome: StoreOutcome)
      modifies this
      ensures (outcome, View()) == Store(old(View()), session, launchId, child)
      ensures notifications == old(notifications) + if outcome == Stored then 1 else 0
    {
      if session !in slots {
        return Cancelled;
      }
      if slots[session] == Launching(launchId) {
        slots := slots[session := Running(child)];
        notifications := notifications + 1;
        return Stored;
      }
      match slots[session]
      case Launching(_) => outcome := Cancelled;
      case Running(_) => outcome := Occupied;
    }

    method ForgetSession(session: SessionId) returns (slot: Option<Slot>)
      modifies this
      ensures (slot, View()) == Forget(old(View()), session)
      ensures notifications == old(notifications) + if slot.Some? then 1 else 0
    {
      slot := None;
      if session in slots {
        slot := Some(slots[session]);
        slots := Without(slots, session);
        notifications := notifications + 1;
      }
    }

    /** Dropping the manager terminates exactly the children in Running slots. */
    method DropAll() returns (terminated: seq<Child>)
      modifies this
      ensures slots == map[]
      ensures forall c :: c in terminated <==> Runs(old(slots), c)
    {
      terminated := [];
      while slots != map[]
        invariant forall c :: Runs(old(slots), c) <==> c in terminated || Runs(slots, c)
        decreases |slots|
      {
        var session :| session in slots;
        var slot := slots[session];
        ghost var before := slots;
        assert slots.Keys == Without(slots, session).Keys + {session};
        slots := Without(slots, session);
        if slot.Running? {
          terminated := terminated + [slot.child];
        }
        forall c ensures Runs(before, c) <==> slot == Running(c) || Runs(slots, c) {
          RunsWithout(before, session, c);
        }
      }
    }
  }

  ghost predicate Runs(slots: map<SessionId, Slot>, c: Child) {
    exists s :: s in slots && slots[s] == Running(c)
  }

  lemma RunsWithout(slots: map<SessionId, Slot>, session: SessionId, c: Child)
    requires session in slots
    ensures Runs(slots, c) <==> slots[session] == Running(c) || Runs(Without(slots, session), c)
  {
    if s :| s in slots && slots[s] == Running(c) {
      assert s == session || (s in Without(slots, session) && Without(slots, session)[s] == Running(c));
    }
  }
}
