/**
 Why a launch answers what it answers: each outcome goes with the one event of the run that
 causes it, and a launch loses the slot it reserved only to a forget.
 */
module LaunchOutcomes {
  import opened AgentRegistry
  import opened LaunchProtocol
  import opened LaunchRuns
  import opened LaunchSafety
  import opened LaunchTheorems
  import opened Wrappers

  function Events(run: seq<Action>): set<Action> {
    set a | a in run
  }

  /** The launch will answer, or has answered, this. */
  predicate Answers(pc: LaunchPc, o: Outcome) {
    (pc.Clearing? || pc.Discarding? || pc.Returned?) && pc.outcome == o
  }

  /** The configuration decides before anything else does. */
  predicate PlanFits(events: set<Action>, i: nat, l: Launch) {
    && (Check(i) in events <==> !l.pc.Checking?)
    && (l.pc == Returned(NoAgent) <==> Check(i) in events && l.plan.NoConfig?)
    && (l.pc == Returned(ConfigRejected) <==> Check(i) in events && l.plan.InvalidConfig?)
    && (Answers(l.pc, NoAgent) ==> l.pc.Returned?) && (Answers(l.pc, ConfigRejected) ==> l.pc.Returned?)
  }

  predicate PreparingFits(events: set<Action>, i: nat, l: Launch) {
    && (Prepare(i, false) in events <==> Answers(l.pc, PrepareFailed))
    && (Prepare(i, true) in events && l.plan == Agent(Host, false) <==> Answers(l.pc, StdioReady))
  }

  predicate SpawningFits(events: set<Action>, i: nat, l: Launch) {
    && (Spawn(i, true) in events <==> Spawned(l.spawner).Some?)
    && (Spawn(i, false) in events <==> l.spawner == Sending(None) || l.spawner == Delivered(None) || l.spawner.NothingSpawned?)
    && (HandOff(i) in events <==> l.spawner.Delivered?)
  }

  predicate ReceivingFits(events: set<Action>, i: nat, l: Launch) {
    && (TimeOut(i) in events <==> l.pc.TimedOut? || Answers(l.pc, LaunchTimedOut))
    && (Answers(l.pc, SpawnFailed) <==> l.spawner == Delivered(None))
    && (Probe(i, false) in events <==> l.pc.Aborting? || Answers(l.pc, NotReady))
  }

  predicate Fits(events: set<Action>, i: nat, l: Launch) {
    PlanFits(events, i, l) && PreparingFits(events, i, l) && SpawningFits(events, i, l) && ReceivingFits(events, i, l)
  }

  // ----- a launch's own step

  lemma LocalPlan(events: set<Action>, i: nat, l: Launch, a: Action, newborn: Child)
    requires LocalEnabled(l, a) && a.i == i && Coupled(l) && PlanFits(events, i, l)
    ensures PlanFits(events + {a}, i, LocalStep(l, a, newborn))
  {
  }

  lemma LocalPreparing(events: set<Action>, i: nat, l: Launch, a: Action, newborn: Child)
    requires LocalEnabled(l, a) && a.i == i && Coupled(l) && PreparingFits(events, i, l)
    ensures PreparingFits(events + {a}, i, LocalStep(l, a, newborn))
  {
  }

  lemma LocalSpawning(events: set<Action>, i: nat, l: Launch, a: Action, newborn: Child)
    requires LocalEnabled(l, a) && a.i == i && Coupled(l) && SpawningFits(events, i, l)
    ensures SpawningFits(events + {a}, i, LocalStep(l, a, newborn))
  {
  }

  lemma LocalReceiving(events: set<Action>, i: nat, l: Launch, a: Action, newborn: Child)
    requires LocalEnabled(l, a) && a.i == i && Coupled(l) && ReceivingFits(events, i, l)
    ensures ReceivingFits(events + {a}, i, LocalStep(l, a, newborn))
  {
  }

  /** A step on the registry leaves the spawner alone and answers nothing that a local step does. */
  predicate RegistryMove(before: Launch, after: Launch) {
    && after.plan == before.plan && after.spawner == before.spawner
    && (if before.pc.Clearing? then after.pc == Returned(before.pc.outcome)
        else
          && (before.pc.Reserving? || before.pc.ReadingMetadata? || before.pc.Storing?)
          && (after.pc.Preparing? || after.pc.Parked? || after.pc.ReadingMetadata?
              || ((after.pc.Returned? || after.pc.Discarding?)
                  && (IsAttachment(after.pc.outcome) || after.pc.outcome.Launched?
                      || after.pc.outcome == LaunchCancelled || after.pc.outcome == LostToRunning))))
  }

  lemma ReserveMoves(st: State, i: nat)
    requires Enabled(st, ReserveSlot(i))
    ensures RegistryMove(st.launches[i], DoReserve(st, i).launches[i])
  {
  }

  lemma StoreMoves(st: State, i: nat)
    requires Enabled(st, StoreChild(i))
    ensures RegistryMove(st.launches[i], DoStore(st, i).launches[i])
  {
  }

  lemma ClearMoves(st: State, i: nat)
    requires Enabled(st, ClearSlot(i))
    ensures RegistryMove(st.launches[i], DoClear(st, i).launches[i])
  {
  }

  lemma ReadMoves(st: State, i: nat)
    requires Enabled(st, ReadMetadata(i))
    ensures RegistryMove(st.launches[i], DoReadMetadata(st, i).launches[i])
  {
  }

  predicate OnRegistry(a: Action) {
    a.ReserveSlot? || a.ReadMetadata? || a.StoreChild? || a.ClearSlot?
  }

  lemma RegistryMoves(st: State, a: Action)
    requires Enabled(st, a) && OnRegistry(a)
    ensures a.i < |Apply(st, a).launches| && RegistryMove(st.launches[a.i], Apply(st, a).launches[a.i])
  {
    match a
    case ReserveSlot(i) => ReserveMoves(st, i);
    case ReadMetadata(i) => ReadMoves(st, i);
    case StoreChild(i) => StoreMoves(st, i);
    case ClearSlot(i) => ClearMoves(st, i);
  }

  lemma RegistryMoveFits(events: set<Action>, i: nat, before: Launch, after: Launch, a: Action)
    requires OnRegistry(a) && RegistryMove(before, after) && Coupled(before) && Fits(events, i, before)
    ensures Fits(events + {a}, i, after)
  {
  }

  /** Somebody else's step says nothing of launch i. */
  lemma OthersFit(events: set<Action>, i: nat, before: Launch, after: Launch, a: Action)
    requires !Acts(a, i) && SameOrWoken(before, after) && Fits(events, i, before)
    ensures Fits(events + {a}, i, after)
  {
  }

  lemma StepFits(st: State, a: Action, i: nat, events: set<Action>)
    requires Enabled(st, a) && i < |st.launches| && Coupled(st.launches[i]) && Fits(events, i, st.launches[i])
    ensures i < |Apply(st, a).launches| && Fits(events + {a}, i, Apply(st, a).launches[i])
  {
    LaunchCount(st, a);
    OnlyActorMoves(st, a, i);
    var l := st.launches[i];
    if !Acts(a, i) {
      OthersFit(events, i, l, Apply(st, a).launches[i], a);
    } else if OnRegistry(a) {
      RegistryMoves(st, a);
      RegistryMoveFits(events, i, l, Apply(st, a).launches[i], a);
    } else {
      LocalPlan(events, i, l, a, st.spawned);
      LocalPreparing(events, i, l, a, st.spawned);
      LocalSpawning(events, i, l, a, st.spawned);
      LocalReceiving(events, i, l, a, st.spawned);
      ActsLocally(st, a, i);
    }
  }

  lemma ActsLocally(st: State, a: Action, i: nat)
    requires Enabled(st, a) && Acts(a, i) && !OnRegistry(a)
    ensures i < |Apply(st, a).launches| && Apply(st, a).launches[i] == LocalStep(st.launches[i], a, st.spawned)
  {
  }

  lemma AlwaysCoupled(st: State, run: seq<Action>, i: nat)
    requires Initial(st) && ValidRun(st, run) && i < |Final(st, run).launches|
    ensures Coupled(Final(st, run).launches[i])
  {
    InitialInv(st);
    ReachableInv(st, run);
  }

  lemma AlwaysFitting(st: State, run: seq<Action>)
    requires Initial(st) && ValidRun(st, run)
    ensures Reservations(Final(st, run)) && Tickets(Final(st, run)) && Latest(Final(st, run))
  {
    InitialInv(st);
    ReachableInv(st, run);
  }

  /** In every run each launch answers for what happened to it. */
  lemma {:induction false} EventsExplainAnswers(st: State, run: seq<Action>, i: nat)
    requires Initial(st) && ValidRun(st, run) && i < |Final(st, run).launches|
    ensures Fits(Events(run), i, Final(st, run).launches[i])
    decreases |run|
  {
    if run != [] {
      var n := |run| - 1;
      LastStep(st, run);
      LaunchCount(Final(st, run[..n]), run[n]);
      EventsExplainAnswers(st, run[..n], i);
      AlwaysCoupled(st, run[..n], i);
      StepFits(Final(st, run[..n]), run[n], i, Events(run[..n]));
      assert run == run[..n] + [run[n]];
      assert Events(run) == Events(run[..n]) + {run[n]};
    }
  }

  /**
   A launch that has returned failed to prepare, timed out or was not ready exactly if that happened in
   the run; it failed to spawn exactly if it was handed a failed spawn; it has no agent or is rejected
   exactly by its configuration.
   */
  lemma AnswerHasItsCause(st: State, run: seq<Action>, i: nat)
    requires Initial(st) && ValidRun(st, run)
    requires i < |Final(st, run).launches| && Final(st, run).launches[i].pc.Returned?
    ensures var o, plan := Final(st, run).launches[i].pc.outcome, Final(st, run).launches[i].plan;
            && (o == NoAgent <==> plan.NoConfig?)
            && (o == ConfigRejected <==> plan.InvalidConfig?)
            && (o == PrepareFailed <==> Prepare(i, false) in run)
            && (o == StdioReady <==> Prepare(i, true) in run && plan == Agent(Host, false))
            && (o == SpawnFailed <==> Spawn(i, false) in run && HandOff(i) in run)
            && (o == LaunchTimedOut <==> TimeOut(i) in run)
            && (o == NotReady <==> Probe(i, false) in run)
            && (o.Launched? ==> Spawn(i, true) in run && HandOff(i) in run)
  {
    EventsExplainAnswers(st, run, i);
    AlwaysCoupled(st, run, i);
  }

  // ----- losing a reservation

  lemma ReserveKeepsOwn(st: State, k: nat, i: nat)
    requires Enabled(st, ReserveSlot(k)) && i < |st.launches| && OwnReservation(st, i) && !st.launches[i].pc.Reserving?
    ensures i < |DoReserve(st, k).launches| && OwnReservation(DoReserve(st, k), i)
  {
  }

  /** Another launch's clear or store passes the slot by while ids are not reused. */
  lemma OtherPassesBy(st: State, k: nat, i: nat)
    requires Reservations(st) && Tickets(st) && Latest(st) && st.reservations <= U64_RANGE
    requires k < |st.launches| && i < |st.launches| && k != i && OwnReservation(st, i) && InFlight(st.launches[k].pc)
    requires st.launches[k].session == st.launches[i].session
    ensures !HoldsReservation(st.registry, st.launches[k].session, st.launches[k].pc.id)
  {
    HoldsIffOwn(st, k);
  }

  lemma SessionsStay(st: State, a: Action, i: nat)
    requires Enabled(st, a) && i < |st.launches| && Coupled(st.launches[i])
    ensures i < |Apply(st, a).launches| && Apply(st, a).launches[i].session == st.launches[i].session
  {
    LaunchCount(st, a);
    OnlyActorMoves(st, a, i);
    if Acts(a, i) {
      ActorCoupled(st, a, i);
    }
  }

  lemma ForgetOfOther(st: State, j: nat, i: nat)
    requires Enabled(st, ForgetSlot(j)) && i < |st.launches| && OwnReservation(st, i)
    requires st.forgets[j].session != st.launches[i].session
    ensures i < |DoForget(st, j).launches| && OwnReservation(DoForget(st, j), i)
  {
  }

  lemma ClearOfOther(st: State, k: nat, i: nat)
    requires Enabled(st, ClearSlot(k)) && i < |st.launches| && OwnReservation(st, i)
    requires st.launches[k].session == st.launches[i].session ==>
               !HoldsReservation(st.registry, st.launches[k].session, st.launches[k].pc.id)
    requires k != i
    ensures i < |DoClear(st, k).launches| && OwnReservation(DoClear(st, k), i)
  {
  }

  lemma StoreOfOther(st: State, k: nat, i: nat)
    requires Enabled(st, StoreChild(k)) && i < |st.launches| && OwnReservation(st, i)
    requires st.launches[k].session == st.launches[i].session ==>
               !HoldsReservation(st.registry, st.launches[k].session, st.launches[k].pc.id)
    requires k != i
    ensures i < |DoStore(st, k).launches| && OwnReservation(DoStore(st, k), i)
  {
  }

  lemma ClearKeepsOther(st: State, k: nat, i: nat)
    requires Enabled(st, ClearSlot(k)) && Reservations(st) && Tickets(st) && Latest(st) && st.reservations <= U64_RANGE
    requires i < |st.launches| && OwnReservation(st, i) && k != i
    ensures i < |DoClear(st, k).launches| && OwnReservation(DoClear(st, k), i)
  {
    if st.launches[k].session == st.launches[i].session {
      OtherPassesBy(st, k, i);
    }
    ClearOfOther(st, k, i);
  }

  lemma StoreKeepsOther(st: State, k: nat, i: nat)
    requires Enabled(st, StoreChild(k)) && Reservations(st) && Tickets(st) && Latest(st) && st.reservations <= U64_RANGE
    requires i < |st.launches| && OwnReservation(st, i) && k != i
    ensures i < |DoStore(st, k).launches| && OwnReservation(DoStore(st, k), i)
  {
    if st.launches[k].session == st.launches[i].session {
      OtherPassesBy(st, k, i);
    }
    StoreOfOther(st, k, i);
  }

  lemma OwnStays(st: State, a: Action, i: nat)
    requires Enabled(st, a) && Reservations(st) && Tickets(st) && Latest(st) && st.reservations <= U64_RANGE
    requires i < |st.launches| && OwnReservation(st, i) && InFlight(st.launches[i].pc) && Coupled(st.launches[i])
    requires !ForgetsSession(st, a, st.launches[i].session) && a != ClearSlot(i) && a != StoreChild(i)
    ensures i < |Apply(st, a).launches| && OwnReservation(Apply(st, a), i)
  {
    if MovesSlots(a) {
      match a {
        case ReserveSlot(k) => ReserveKeepsOwn(st, k, i);
        case ClearSlot(k) => ClearKeepsOther(st, k, i);
        case StoreChild(k) => StoreKeepsOther(st, k, i);
        case ForgetSlot(j) => ForgetOfOther(st, j, i);
      }
    } else {
      SessionsStay(st, a, i);
      RegistryStays(st, a);
    }
  }

  /** At place r the launch reserved the slot, and it is still its own unless a forget came since. */
  ghost predicate ReservedAt(st: State, run: seq<Action>, i: nat, r: nat) {
    && r < |run| && run[r] == ReserveSlot(i) && ValidRun(st, run) && i < |Final(st, run).launches|
    && (OwnReservation(Final(st, run), i) || ForgottenSince(st, run, r, Final(st, run).launches[i].session))
  }

  lemma TakeOff(st: State, i: nat)
    requires Enabled(st, ReserveSlot(i)) && InFlight(DoReserve(st, i).launches[i].pc)
    ensures OwnReservation(DoReserve(st, i), i)
  {
  }

  lemma ReservationsOnlyGrow(st: State, run: seq<Action>)
    requires ValidRun(st, run) && run != []
    ensures ValidRun(st, run[..|run| - 1]) && Final(st, run[..|run| - 1]).reservations <= Final(st, run).reservations
  {
    LastStep(st, run);
    Counters(Final(st, run[..|run| - 1]), run[|run| - 1]);
  }

  lemma ReservedStays(st: State, run: seq<Action>, i: nat, r: nat)
    requires Initial(st) && ValidRun(st, run) && run != [] && Final(st, run).reservations <= U64_RANGE
    requires ReservedAt(st, run[..|run| - 1], i, r) && InFlight(Final(st, run[..|run| - 1]).launches[i].pc)
    requires run[|run| - 1] != ClearSlot(i) && run[|run| - 1] != StoreChild(i)
    ensures ReservedAt(st, run, i, r)
  {
    var n := |run| - 1;
    LastStep(st, run);
    AlwaysFitting(st, run[..n]);
    AlwaysCoupled(st, run[..n], i);
    ReservationsOnlyGrow(st, run);
    var last := Final(st, run[..n]);
    SessionsStay(last, run[n], i);
    var s := last.launches[i].session;
    if ForgottenSince(st, run[..n], r, s) {
      StillForgotten(st, run, n, r, s);
    } else {
      KeepsForgetSessions(st, run[..n]);
      if ForgetsSession(last, run[n], s) {
        assert ForgetsSession(st, run[n], s);
      } else {
        OwnStays(last, run[n], i);
      }
    }
  }

  lemma {:induction false} InFlightReserved(st: State, run: seq<Action>, i: nat) returns (r: nat)
    requires Initial(st) && ValidRun(st, run) && Final(st, run).reservations <= U64_RANGE
    requires i < |Final(st, run).launches| && InFlight(Final(st, run).launches[i].pc)
    ensures ReservedAt(st, run, i, r)
    decreases |run|
  {
    var n := |run| - 1;
    LastStep(st, run);
    ReservationsOnlyGrow(st, run);
    var last := Final(st, run[..n]);
    LaunchCount(last, run[n]);
    AlwaysCoupled(st, run[..n], i);
    OnlyActorMoves(last, run[n], i);
    if InFlight(last.launches[i].pc) {
      EndsFlight(last, run[n], i);
      r := InFlightReserved(st, run[..n], i);
      ReservedStays(st, run, i, r);
    } else {
      OnlyReserveTakesOff(last, run[n], i);
      r := n;
      TakeOff(last, i);
    }
  }

  lemma EndsFlight(st: State, a: Action, i: nat)
    requires Enabled(st, a) && i < |st.launches| && InFlight(st.launches[i].pc)
    requires i < |Apply(st, a).launches| && InFlight(Apply(st, a).launches[i].pc)
    ensures a != ClearSlot(i) && a != StoreChild(i)
  {
  }

  predicate LostPlace(pc: LaunchPc) {
    Answers(pc, LaunchCancelled) || Answers(pc, LostToRunning)
  }

  lemma OnlyStoreLoses(st: State, a: Action, i: nat)
    requires Enabled(st, a) && i < |st.launches| && i < |Apply(st, a).launches|
    requires LostPlace(Apply(st, a).launches[i].pc) && !LostPlace(st.launches[i].pc)
    ensures a == StoreChild(i) && Apply(st, a) == DoStore(st, i)
    ensures !HoldsReservation(st.registry, st.launches[i].session, st.launches[i].pc.id)
  {
    OnlyActorMoves(st, a, i);
  }

  /** Storing answers that the place is lost to a running child exactly if one runs in the slot then. */
  lemma StoreTellsWhy(st: State, i: nat)
    requires Enabled(st, StoreChild(i)) && Coupled(st.launches[i])
    ensures i < |DoStore(st, i).launches|
    ensures Answers(DoStore(st, i).launches[i].pc, LostToRunning) <==> exists c :: SlotRuns(st, st.launches[i].session, c)
  {
    var s := st.launches[i].session;
    if s in st.registry.slots && st.registry.slots[s].Running? {
      assert SlotRuns(st, s, st.registry.slots[s].child);
    }
  }

  /** A launch is told that it lost to a running child exactly if, when it came to store its own, one ran for its session. */
  lemma {:induction false} ToldWhyItLost(st: State, run: seq<Action>, i: nat) returns (m: nat)
    requires Initial(st) && ValidRun(st, run)
    requires i < |Final(st, run).launches| && LostPlace(Final(st, run).launches[i].pc)
    ensures m < |run| && run[m] == StoreChild(i) && ValidRun(st, run[..m])
    ensures Answers(Final(st, run).launches[i].pc, LostToRunning) <==>
              exists c :: SlotRuns(Final(st, run[..m]), Final(st, run).launches[i].session, c)
    decreases |run|
  {
    var n := |run| - 1;
    LastStep(st, run);
    var last := Final(st, run[..n]);
    LaunchCount(last, run[n]);
    AlwaysCoupled(st, run[..n], i);
    SessionsStay(last, run[n], i);
    if LostPlace(last.launches[i].pc) {
      m := ToldWhyItLost(st, run[..n], i);
      assert run[..n][..m] == run[..m];
      AnswerStays(last, run[n], i);
    } else {
      OnlyStoreLoses(last, run[n], i);
      m := n;
      StoreTellsWhy(last, i);
    }
  }

  lemma AnswerStays(st: State, a: Action, i: nat)
    requires Enabled(st, a) && i < |st.launches| && i < |Apply(st, a).launches| && LostPlace(st.launches[i].pc)
    ensures Answers(Apply(st, a).launches[i].pc, LostToRunning) <==> Answers(st.launches[i].pc, LostToRunning)
  {
    OnlyActorMoves(st, a, i);
  }

  /** With at most 2^64 reservations in all, a launch whose child is not stored lost its reservation to a forget of its session. */
  lemma {:induction false} LosesOnlyToForget(st: State, run: seq<Action>, i: nat) returns (r: nat, m: nat)
    requires Initial(st) && ValidRun(st, run) && Final(st, run).reservations <= U64_RANGE
    requires i < |Final(st, run).launches| && LostPlace(Final(st, run).launches[i].pc)
    ensures r < m < |run| && run[r] == ReserveSlot(i) && run[m] == StoreChild(i)
    ensures ForgottenSince(st, run[..m], r, Final(st, run).launches[i].session)
    decreases |run|
  {
    var n := |run| - 1;
    LastStep(st, run);
    ReservationsOnlyGrow(st, run);
    var last := Final(st, run[..n]);
    LaunchCount(last, run[n]);
    AlwaysCoupled(st, run[..n], i);
    SessionsStay(last, run[n], i);
    if LostPlace(last.launches[i].pc) {
      r, m := LosesOnlyToForget(st, run[..n], i);
      assert run[..n][..m] == run[..m];
    } else {
      OnlyStoreLoses(last, run[n], i);
      m := n;
      r := InFlightReserved(st, run[..n], i);
      AlwaysFitting(st, run[..n]);
      HoldsIffOwn(last, i);
    }
  }
}
