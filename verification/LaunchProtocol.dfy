/**
 Any number of threads inside launch_session and forget_session, interleaved one atomic action
 at a time. Each launch brings at most one spawner thread, tied to it by a channel without
 buffer, so the two are kept in one record with a program counter each.
 */
module LaunchProtocol {
  import opened Wrappers
  import opened AgentRegistry

  datatype Mode = Host | Chroot

  /** What the configuration of a launch asks for; an endpoint is wanted when the command has a placeholder. */
  datatype Plan = NoConfig | InvalidConfig | Agent(mode: Mode, wantsEndpoint: bool)

  /** What launch_session returns. */
  datatype Outcome =
    | NoAgent
    | ConfigRejected
    | Attached(running: Child)
    | NotAttached
    | StdioReady
    | Launched(child: Child)
    | PrepareFailed
    | SpawnFailed
    | LaunchTimedOut
    | NotReady
    | LaunchCancelled
    | LostToRunning

  datatype LaunchPc =
    | Checking
    | Reserving
    | Parked
    | ReadingMetadata
    | Preparing(id: nat)
    | Receiving(id: nat)
    | TimedOut(id: nat)
    | Probing(id: nat, child: Child)
    | Aborting(id: nat, child: Child)
    | Storing(id: nat, child: Child)
    | Discarding(child: Child, outcome: Outcome)
    | Clearing(id: nat, outcome: Outcome)
    | Returned(outcome: Outcome)

  datatype SpawnPc =
    | NotSpawned
    | Spawning
    | Sending(result: Option<Child>)
    | Delivered(result: Option<Child>)
    | CleaningUp(child: Child)
    | Killed(child: Child)
    | NothingSpawned

  /** `ticket` records which reservation this launch made; no guard reads it. */
  datatype Launch = Launch(session: SessionId, plan: Plan, pc: LaunchPc, spawner: SpawnPc, ticket: nat)

  datatype ForgetPc = Starting | Terminating(child: Child) | Finished

  datatype Forgetting = Forgetting(session: SessionId, pc: ForgetPc)

  datatype Owner = ByLaunch(launch: nat) | BySpawner(launch: nat) | BySlot(session: SessionId) | ByForget(forgetting: nat)

  /**
   The first three fields are the program's. The others are a record of the run that no guard
   reads: the live children with their owners, the number of children spawned, the launch
   behind the last reservation of each session, and the number of reservations.
   */
  datatype State = State(
    registry: Registry,
    launches: seq<Launch>,
    forgets: seq<Forgetting>,
    owner: map<Child, Owner>,
    spawned: nat,
    maker: map<SessionId, nat>,
    reservations: nat)

  datatype Action =
    | Check(i: nat)
    | ReserveSlot(i: nat)
    | WakeUp(i: nat)
    | ReadMetadata(i: nat)
    | Prepare(i: nat, ok: bool)
    | Spawn(i: nat, ok: bool)
    | HandOff(i: nat)
    | TimeOut(i: nat)
    | DropReceiver(i: nat)
    | SendFails(i: nat)
    | KillUnsent(i: nat)
    | Probe(i: nat, ok: bool)
    | Abort(i: nat)
    | StoreChild(i: nat)
    | Discard(i: nat)
    | ClearSlot(i: nat)
    | ForgetSlot(j: nat)
    | KillForgotten(j: nat)

  predicate Initial(st: State) {
    && st.registry == EMPTY_REGISTRY
    && (forall i :: 0 <= i < |st.launches| ==> st.launches[i].pc == Checking && st.launches[i].spawner == NotSpawned)
    && (forall j :: 0 <= j < |st.forgets| ==> st.forgets[j].pc == Starting)
    && st.owner == map[] && st.spawned == 0 && st.maker == map[] && st.reservations == 0
  }

  /** The receiver is dropped when spawn_with_timeout_using returns. */
  predicate ReceiverAlive(pc: LaunchPc) {
    pc.Receiving? || pc.TimedOut?
  }

  /** Actions of one launch and its spawner thread outside the registry mutex. */
  predicate LocalEnabled(l: Launch, a: Action) {
    match a
    case Check(_) => l.pc.Checking?
    case WakeUp(_) => l.pc.Parked?
    case Prepare(_, _) => l.pc.Preparing?
    case Spawn(_, _) => l.spawner.Spawning?
    case HandOff(_) => l.pc.Receiving? && l.spawner.Sending?
    case TimeOut(_) => l.pc.Receiving?
    case DropReceiver(_) => l.pc.TimedOut?
    case SendFails(_) => l.spawner.Sending? && !ReceiverAlive(l.pc)
    case KillUnsent(_) => l.spawner.CleaningUp?
    case Probe(_, ok) => l.pc.Probing? && (ok || (l.plan.Agent? && l.plan.wantsEndpoint))
    case Abort(_) => l.pc.Aborting?
    case Discard(_) => l.pc.Discarding?
    case _ => false
  }

  /** `newborn` is the child that a successful spawn creates. */
  function LocalStep(l: Launch, a: Action, newborn: Child): Launch
    requires LocalEnabled(l, a)
  {
    match a
    case Check(_) =>
      (match l.plan
       case NoConfig => l.(pc := Returned(NoAgent))
       case InvalidConfig => l.(pc := Returned(ConfigRejected))
       case Agent(_, _) => l.(pc := Reserving))
    case WakeUp(_) => l.(pc := Reserving)
    case Prepare(_, ok) =>
      if !ok then l.(pc := Clearing(l.pc.id, PrepareFailed))
      // A host launch without endpoint needs no process: it hands back stdio metadata.
      else if l.plan == Agent(Host, false) then l.(pc := Clearing(l.pc.id, StdioReady))
      else l.(pc := Receiving(l.pc.id), spawner := Spawning)
    case Spawn(_, ok) => l.(spawner := Sending(if ok then Some(newborn) else None))
    case HandOff(_) =>
      (match l.spawner.result
       case Some(child) => l.(pc := Probing(l.pc.id, child), spawner := Delivered(Some(child)))
       case None => l.(pc := Clearing(l.pc.id, SpawnFailed), spawner := Delivered(None)))
    case TimeOut(_) => l.(pc := TimedOut(l.pc.id))
    case DropReceiver(_) => l.(pc := Clearing(l.pc.id, LaunchTimedOut))
    case SendFails(_) =>
      (match l.spawner.result
       case Some(child) => l.(spawner := CleaningUp(child))
       case None => l.(spawner := NothingSpawned))
    case KillUnsent(_) => l.(spawner := Killed(l.spawner.child))
    case Probe(_, ok) => l.(pc := if ok then Storing(l.pc.id, l.pc.child) else Aborting(l.pc.id, l.pc.child))
    case Abort(_) => l.(pc := Clearing(l.pc.id, NotReady))
    case Discard(_) => l.(pc := Returned(l.pc.outcome))
  }

  function Killing(owner: map<Child, Owner>, child: Child): map<Child, Owner> {
    map c | c in owner && c != child :: owner[c]
  }

  /** A spawn creates a child, a hand-off passes it on, and the three terminations end it. */
  function LocalOwner(owner: map<Child, Owner>, l: Launch, a: Action, newborn: Child): map<Child, Owner>
    requires LocalEnabled(l, a)
  {
    match a
    case Spawn(i, ok) => if ok then owner[newborn := BySpawner(i)] else owner
    case HandOff(i) => if l.spawner.result.Some? then owner[l.spawner.result.value := ByLaunch(i)] else owner
    case KillUnsent(_) => Killing(owner, l.spawner.child)
    case Abort(_) => Killing(owner, l.pc.child)
    case Discard(_) => Killing(owner, l.pc.child)
    case _ => owner
  }

  predicate Enabled(st: State, a: Action) {
    match a
    case ForgetSlot(j) => j < |st.forgets| && st.forgets[j].pc.Starting?
    case KillForgotten(j) => j < |st.forgets| && st.forgets[j].pc.Terminating?
    case ReserveSlot(i) => i < |st.launches| && st.launches[i].pc.Reserving?
    case ReadMetadata(i) => i < |st.launches| && st.launches[i].pc.ReadingMetadata?
    case StoreChild(i) => i < |st.launches| && st.launches[i].pc.Storing?
    case ClearSlot(i) => i < |st.launches| && st.launches[i].pc.Clearing?
    case _ => a.i < |st.launches| && LocalEnabled(st.launches[a.i], a)
  }

  /** notify_all: every parked launch, whatever its session, goes back to the lock. */
  function Notified(launches: seq<Launch>): (woken: seq<Launch>)
    ensures |woken| == |launches|
  {
    seq(|launches|, i requires 0 <= i < |launches| =>
      if launches[i].pc.Parked? then launches[i].(pc := Reserving) else launches[i])
  }

  function At(st: State, i: nat, pc: LaunchPc): State
    requires i < |st.launches|
  {
    st.(launches := st.launches[i := st.launches[i].(pc := pc)])
  }

  function NotifyIf(st: State, notify: bool): (woken: State)
    ensures |woken.launches| == |st.launches|
  {
    if notify then st.(launches := Notified(st.launches)) else st
  }

  function Transfer(st: State, child: Child, to: Owner): State {
    st.(owner := st.owner[child := to])
  }

  function DoLocal(st: State, a: Action): State
    requires !a.ForgetSlot? && !a.KillForgotten? && a.i < |st.launches| && LocalEnabled(st.launches[a.i], a)
  {
    var l := st.launches[a.i];
    st.(launches := st.launches[a.i := LocalStep(l, a, st.spawned)],
        owner := LocalOwner(st.owner, l, a, st.spawned),
        spawned := if a.Spawn? && a.ok then st.spawned + 1 else st.spawned)
  }

  function DoReserve(st: State, i: nat): State
    requires i < |st.launches|
  {
    var l := st.launches[i];
    var (outcome, registry) := Reserve(st.registry, l.session);
    match outcome
    case Reserved(id) =>
      st.(registry := registry,
          launches := st.launches[i := l.(pc := Preparing(id), ticket := st.reservations)],
          maker := st.maker[l.session := i],
          reservations := st.reservations + 1)
    case MustWait => At(st, i, Parked)
    case AlreadyRunning => At(st, i, ReadingMetadata)
  }

  function DoReadMetadata(st: State, i: nat): State
    requires i < |st.launches|
  {
    var l := st.launches[i];
    if l.session in st.registry.slots && st.registry.slots[l.session].Running? then
      At(st, i, Returned(Attached(st.registry.slots[l.session].child)))
    else
      At(st, i, Returned(NotAttached))
  }

  function DoStore(st: State, i: nat): State
    requires i < |st.launches| && st.launches[i].pc.Storing?
  {
    var l := st.launches[i];
    var child := l.pc.child;
    var (outcome, registry) := Store(st.registry, l.session, l.pc.id, child);
    match outcome
    case Stored =>
      At(Transfer(NotifyIf(st.(registry := registry), true), child, BySlot(l.session)), i, Returned(Launched(child)))
    case Cancelled => At(st, i, Discarding(child, LaunchCancelled))
    case Occupied => At(st, i, Discarding(child, LostToRunning))
  }

  function DoClear(st: State, i: nat): State
    requires i < |st.launches| && st.launches[i].pc.Clearing?
  {
    var l := st.launches[i];
    var (notify, registry) := Clear(st.registry, l.session, l.pc.id);
    At(NotifyIf(st.(registry := registry), notify), i, Returned(l.pc.outcome))
  }

  function ForgetAt(st: State, j: nat, pc: ForgetPc): State
    requires j < |st.forgets|
  {
    st.(forgets := st.forgets[j := st.forgets[j].(pc := pc)])
  }

  function DoForget(st: State, j: nat): State
    requires j < |st.forgets|
  {
    var (slot, registry) := Forget(st.registry, st.forgets[j].session);
    var next := NotifyIf(st.(registry := registry), slot.Some?);
    match slot
    case Some(Running(child)) => ForgetAt(Transfer(next, child, ByForget(j)), j, Terminating(child))
    case _ => ForgetAt(next, j, Finished)
  }

  function Apply(st: State, a: Action): State
    requires Enabled(st, a)
  {
    match a
    case ReserveSlot(i) => DoReserve(st, i)
    case ReadMetadata(i) => DoReadMetadata(st, i)
    case StoreChild(i) => DoStore(st, i)
    case ClearSlot(i) => DoClear(st, i)
    case ForgetSlot(j) => DoForget(st, j)
    case KillForgotten(j) =>
      var child := st.forgets[j].pc.child;
      ForgetAt(st, j, Finished).(owner := Killing(st.owner, child))
    case _ => DoLocal(st, a)
  }

  predicate ValidRun(st: State, run: seq<Action>)
    decreases |run|
  {
    run == [] || (Enabled(st, run[0]) && ValidRun(Apply(st, run[0]), run[1..]))
  }

  function Final(st: State, run: seq<Action>): State
    requires ValidRun(st, run)
    decreases |run|
  {
    if run == [] then st else Final(Apply(st, run[0]), run[1..])
  }

  /** Every thread of every launch and forget has ended. */
  predicate Quiescent(st: State) {
    && (forall i :: 0 <= i < |st.launches| ==> Ended(st.launches[i]))
    && (forall j :: 0 <= j < |st.forgets| ==> st.forgets[j].pc.Finished?)
  }

  predicate Ended(l: Launch) {
    l.pc.Returned? && !l.spawner.Spawning? && !l.spawner.Sending? && !l.spawner.CleaningUp?
  }
}
