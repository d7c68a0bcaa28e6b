/**
 Launches always come to an end: in a reachable state that is not quiescent some step other
 than a spurious wake-up is possible, and a run can only be as long as a bound fixed at its
 start.
 */
module LaunchProgress {
  import opened AgentRegistry
  import opened LaunchProtocol
  import opened LaunchSafety
  import opened LaunchTheorems

  // ----- no deadlock

  /** The step a launch that is not parked, or its spawner thread, can take next. */
  function NextOf(l: Launch, i: nat): Action
    requires !Ended(l) && !l.pc.Parked? && Coupled(l)
  {
    match l.pc
    case Checking => Check(i)
    case Reserving => ReserveSlot(i)
    case ReadingMetadata => ReadMetadata(i)
    case Preparing(_) => Prepare(i, true)
    case Receiving(_) => TimeOut(i)
    case TimedOut(_) => DropReceiver(i)
    case Probing(_, _) => Probe(i, true)
    case Aborting(_, _) => Abort(i)
    case Storing(_, _) => StoreChild(i)
    case Discarding(_, _) => Discard(i)
    case Clearing(_, _) => ClearSlot(i)
    case Returned(_) =>
      if l.spawner.Spawning? then Spawn(i, true) else if l.spawner.Sending? then SendFails(i) else KillUnsent(i)
  }

  lemma NextIsEnabled(st: State, i: nat)
    requires i < |st.launches| && !Ended(st.launches[i]) && !st.launches[i].pc.Parked? && Coupled(st.launches[i])
    ensures Enabled(st, NextOf(st.launches[i], i)) && !NextOf(st.launches[i], i).WakeUp?
  {
  }

  /** A parked launch waits for one that is not. */
  lemma MakerIsAwake(st: State, i: nat) returns (k: nat)
    requires Reservations(st) && Waiting(st) && i < |st.launches| && st.launches[i].pc.Parked?
    ensures k < |st.launches| && InFlight(st.launches[k].pc)
  {
    k := st.maker[st.launches[i].session];
  }

  /** Whatever has not ended yet can move on without waiting for a spurious wake-up. */
  lemma NeverStuck(st: State, run: seq<Action>) returns (a: Action)
    requires Initial(st) && ValidRun(st, run) && !Quiescent(Final(st, run))
    ensures Enabled(Final(st, run), a) && !a.WakeUp?
  {
    InitialInv(st);
    ReachableInv(st, run);
    a := SomeoneMoves(Final(st, run));
  }

  lemma SomeoneMoves(st: State) returns (a: Action)
    requires Reservations(st) && Waiting(st) && Coupling(st) && !Quiescent(st)
    ensures Enabled(st, a) && !a.WakeUp?
  {
    if j :| 0 <= j < |st.forgets| && !st.forgets[j].pc.Finished? {
      a := if st.forgets[j].pc.Starting? then ForgetSlot(j) else KillForgotten(j);
    } else {
      var i: nat :| i < |st.launches| && !Ended(st.launches[i]);
      if st.launches[i].pc.Parked? {
        i := MakerIsAwake(st, i);
      }
      NextIsEnabled(st, i);
      a := NextOf(st.launches[i], i);
    }
  }

  // ----- a bound on every run

  function PcWeight(pc: LaunchPc): nat {
    match pc
    case Checking => 10
    case Reserving => 9
    case Parked => 9
    case Preparing(_) => 8
    case Receiving(_) => 4
    case Probing(_, _) => 3
    case TimedOut(_) => 2
    case Storing(_, _) => 2
    case Aborting(_, _) => 2
    case Clearing(_, _) => 1
    case Discarding(_, _) => 1
    case ReadingMetadata => 1
    case Returned(_) => 0
  }

  function SpawnWeight(spawner: SpawnPc): nat {
    match spawner
    case Spawning => 3
    case Sending(_) => 2
    case CleaningUp(_) => 1
    case _ => 0
  }

  function LaunchWeight(l: Launch): nat {
    PcWeight(l.pc) + SpawnWeight(l.spawner)
  }

  function ForgetWeight(f: Forgetting): nat {
    match f.pc
    case Starting => 2
    case Terminating(_) => 1
    case Finished => 0
  }

  function LaunchWork(launches: seq<Launch>): nat {
    if launches == [] then 0 else LaunchWeight(launches[0]) + LaunchWork(launches[1..])
  }

  function ForgetWork(forgets: seq<Forgetting>): nat {
    if forgets == [] then 0 else ForgetWeight(forgets[0]) + ForgetWork(forgets[1..])
  }

  /** How many launches queue for the lock in reserve_launch. */
  function Queued(launches: seq<Launch>): (n: nat)
    ensures n <= |launches|
  {
    if launches == [] then 0 else (if launches[0].pc.Reserving? then 1 else 0) + Queued(launches[1..])
  }

  lemma {:induction false} UpdateWork(launches: seq<Launch>, i: nat, l: Launch)
    requires i < |launches|
    ensures LaunchWork(launches[i := l]) == LaunchWork(launches) - LaunchWeight(launches[i]) + LaunchWeight(l)
    ensures Queued(launches[i := l]) == Queued(launches)
              - (if launches[i].pc.Reserving? then 1 else 0) + (if l.pc.Reserving? then 1 else 0)
  {
    if i == 0 {
      assert launches[i := l][1..] == launches[1..];
    } else {
      assert launches[i := l][1..] == launches[1..][i - 1 := l];
      UpdateWork(launches[1..], i - 1, l);
    }
  }

  lemma {:induction false} UpdateForgetWork(forgets: seq<Forgetting>, j: nat, f: Forgetting)
    requires j < |forgets|
    ensures ForgetWork(forgets[j := f]) == ForgetWork(forgets) - ForgetWeight(forgets[j]) + ForgetWeight(f)
  {
    if j == 0 {
      assert forgets[j := f][1..] == forgets[1..];
    } else {
      assert forgets[j := f][1..] == forgets[1..][j - 1 := f];
      UpdateForgetWork(forgets[1..], j - 1, f);
    }
  }

  lemma {:induction false} NotifyKeepsWork(launches: seq<Launch>)
    ensures LaunchWork(Notified(launches)) == LaunchWork(launches)
  {
    if launches != [] {
      assert Notified(launches)[1..] == Notified(launches[1..]);
      NotifyKeepsWork(launches[1..]);
    }
  }

  function Work(st: State): nat {
    LaunchWork(st.launches) + ForgetWork(st.forgets)
  }

  function Measure(st: State): nat {
    Work(st) * (|st.launches| + 1) + Queued(st.launches)
  }

  lemma LocalStepWorks(l: Launch, a: Action, newborn: Child)
    requires Coupled(l) && LocalEnabled(l, a)
    ensures if a.WakeUp? then LaunchWeight(LocalStep(l, a, newborn)) == LaunchWeight(l) && LocalStep(l, a, newborn).pc.Reserving?
            else LaunchWeight(LocalStep(l, a, newborn)) < LaunchWeight(l)
  {
  }

  /** An action works when its thread gets nearer to its end, or a launch goes from the queue to the waiters. */
  predicate Works(before: State, after: State) {
    || Work(after) < Work(before)
    || (Work(after) == Work(before) && Queued(after.launches) < Queued(before.launches))
  }

  /** One launch moved, and perhaps every waiter was sent back to the queue. */
  lemma MoveWorks(st: State, next: State, i: nat, l: Launch)
    requires i < |st.launches| && next.forgets == st.forgets
    requires next.launches == st.launches[i := l] || next.launches == Notified(st.launches)[i := l]
    requires LaunchWeight(l) < LaunchWeight(st.launches[i])
    ensures Works(st, next)
  {
    NotifyKeepsWork(st.launches);
    UpdateWork(st.launches, i, l);
    UpdateWork(Notified(st.launches), i, l);
  }

  lemma ParkWorks(st: State, i: nat)
    requires i < |st.launches| && st.launches[i].pc.Reserving?
    ensures Works(st, At(st, i, Parked))
  {
    UpdateWork(st.launches, i, st.launches[i].(pc := Parked));
  }

  lemma WakeUpCosts(st: State, i: nat)
    requires i < |st.launches| && st.launches[i].pc.Parked?
    ensures Work(At(st, i, Reserving)) == Work(st)
    ensures Queued(At(st, i, Reserving).launches) == Queued(st.launches) + 1
  {
    UpdateWork(st.launches, i, st.launches[i].(pc := Reserving));
  }

  lemma ForgetWorks(st: State, a: Action)
    requires Enabled(st, a) && (a.ForgetSlot? || a.KillForgotten?)
    ensures Works(st, Apply(st, a))
  {
    NotifyKeepsWork(st.launches);
    UpdateForgetWork(st.forgets, a.j, Apply(st, a).forgets[a.j]);
  }

  lemma LocalWorks(st: State, a: Action)
    requires Coupling(st) && !a.ForgetSlot? && !a.KillForgotten? && !a.WakeUp?
    requires a.i < |st.launches| && LocalEnabled(st.launches[a.i], a)
    ensures Works(st, DoLocal(st, a))
  {
    LocalStepWorks(st.launches[a.i], a, st.spawned);
    MoveWorks(st, DoLocal(st, a), a.i, LocalStep(st.launches[a.i], a, st.spawned));
  }

  lemma ReserveWorks(st: State, i: nat)
    requires i < |st.launches| && st.launches[i].pc.Reserving? && Coupled(st.launches[i])
    ensures Works(st, DoReserve(st, i))
  {
    if Reserve(st.registry, st.launches[i].session).0.MustWait? {
      ParkWorks(st, i);
    } else {
      MoveWorks(st, DoReserve(st, i), i, DoReserve(st, i).launches[i]);
    }
  }

  lemma ReadMetadataWorks(st: State, i: nat)
    requires i < |st.launches| && st.launches[i].pc.ReadingMetadata?
    ensures Works(st, DoReadMetadata(st, i))
  {
    MoveWorks(st, DoReadMetadata(st, i), i, DoReadMetadata(st, i).launches[i]);
  }

  lemma StoreWorks(st: State, i: nat)
    requires i < |st.launches| && st.launches[i].pc.Storing?
    ensures Works(st, DoStore(st, i))
  {
    MoveWorks(st, DoStore(st, i), i, DoStore(st, i).launches[i]);
  }

  lemma ClearWorks(st: State, i: nat)
    requires i < |st.launches| && st.launches[i].pc.Clearing?
    ensures Works(st, DoClear(st, i))
  {
    MoveWorks(st, DoClear(st, i), i, DoClear(st, i).launches[i]);
  }

  lemma StepWorks(st: State, a: Action)
    requires Coupling(st) && Enabled(st, a) && !a.WakeUp?
    ensures Works(st, Apply(st, a))
  {
    match a
    case ForgetSlot(_) => ForgetWorks(st, a);
    case KillForgotten(_) => ForgetWorks(st, a);
    case ReserveSlot(i) => ReserveWorks(st, i);
    case ReadMetadata(i) => ReadMetadataWorks(st, i);
    case StoreChild(i) => StoreWorks(st, i);
    case ClearSlot(i) => ClearWorks(st, i);
    case _ => LocalWorks(st, a);
  }

  lemma LessWorkIsLess(n: nat, w: nat, q: nat, w': nat, q': nat)
    requires q' <= n && (w' < w || (w' == w && q' < q))
    ensures w' * (n + 1) + q' < w * (n + 1) + q
  {
    if w' < w {
      assert w' * (n + 1) <= (w - 1) * (n + 1);
    }
  }

  lemma StepDecreasesMeasure(st: State, a: Action)
    requires Coupling(st) && Enabled(st, a)
    ensures if a.WakeUp? then Measure(Apply(st, a)) == Measure(st) + 1 else Measure(Apply(st, a)) < Measure(st)
  {
    var next := Apply(st, a);
    if a.WakeUp? {
      WakeUpCosts(st, a.i);
      assert next == At(st, a.i, Reserving);
    } else {
      StepWorks(st, a);
      LaunchCount(st, a);
      LessWorkIsLess(|st.launches|, Work(st), Queued(st.launches), Work(next), Queued(next.launches));
    }
  }

  function WakeUps(run: seq<Action>): nat {
    if run == [] then 0 else (if run[0].WakeUp? then 1 else 0) + WakeUps(run[1..])
  }

  lemma {:induction false} RunIsBounded(st: State, run: seq<Action>)
    requires Inv(st) && ValidRun(st, run)
    ensures |run| + Measure(Final(st, run)) <= Measure(st) + 2 * WakeUps(run)
    decreases |run|
  {
    if run != [] {
      KeepsInv(st, run[0]);
      StepDecreasesMeasure(st, run[0]);
      RunIsBounded(Apply(st, run[0]), run[1..]);
    }
  }

  lemma {:induction false} InitialWork(launches: seq<Launch>, forgets: seq<Forgetting>)
    requires forall i :: 0 <= i < |launches| ==> launches[i].pc == Checking && launches[i].spawner == NotSpawned
    requires forall j :: 0 <= j < |forgets| ==> forgets[j].pc == Starting
    ensures LaunchWork(launches) == 10 * |launches| && Queued(launches) == 0
    ensures ForgetWork(forgets) == 2 * |forgets|
    decreases |launches| + |forgets|
  {
    if launches != [] {
      InitialWork(launches[1..], forgets);
    } else if forgets != [] {
      InitialWork(launches, forgets[1..]);
    }
  }

  /** No schedule runs for ever: its length is bounded by the calls made and the spurious wake-ups. */
  lemma EveryRunIsFinite(st: State, run: seq<Action>)
    requires Initial(st) && ValidRun(st, run)
    ensures |run| <= (10 * |st.launches| + 2 * |st.forgets|) * (|st.launches| + 1) + 2 * WakeUps(run)
  {
    InitialInv(st);
    RunIsBounded(st, run);
    InitialMeasure(st);
  }

  lemma InitialMeasure(st: State)
    requires Initial(st)
    ensures Measure(st) == (10 * |st.launches| + 2 * |st.forgets|) * (|st.launches| + 1)
  {
    InitialWork(st.launches, st.forgets);
    assert Work(st) == 10 * |st.launches| + 2 * |st.forgets|;
  }

  /** A run that can only be continued by spurious wake-ups has brought every call to its end, without a leak. */
  lemma MaximalRunsSettle(st: State, run: seq<Action>)
    requires Initial(st) && ValidRun(st, run)
    requires forall a :: Enabled(Final(st, run), a) ==> a.WakeUp?
    ensures Quiescent(Final(st, run))
    ensures forall c :: c in Final(st, run).owner <==> Runs(Final(st, run).registry.slots, c)
  {
    if !Quiescent(Final(st, run)) {
      var a := NeverStuck(st, run);
      assert false;
    }
    QuietRegistryLeaksNothing(st, run);
  }
}
