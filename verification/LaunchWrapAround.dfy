/**
 The bound in TouchesOnlyOwnReservation is sharp: one reservation more, and the wrapped id
 counter lets a forgotten launch clear a reservation that another launch has made since.
 */
module LaunchWrapAround {
  import opened AgentRegistry
  import opened LaunchProtocol

  const SESSION: SessionId := "s"
  const FRESH := Launch(SESSION, Agent(Host, true), Checking, NotSpawned, 0)
  const FORGOTTEN := Launch(SESSION, Agent(Host, true), Preparing(0), NotSpawned, 0)

  function Start(): State {
    State(EMPTY_REGISTRY, seq(U64_RANGE + 1, _ => FRESH), [Forgetting(SESSION, Starting)], map[], 0, map[], 0)
  }

  lemma {:induction false} Extend(st: State, run: seq<Action>, a: Action)
    requires ValidRun(st, run) && Enabled(Final(st, run), a)
    ensures ValidRun(st, run + [a]) && Final(st, run + [a]) == Apply(Final(st, run), a)
    decreases |run|
  {
    if run == [] {
      assert (run + [a])[1..] == [];
    } else {
      assert (run + [a])[1..] == run[1..] + [a];
      Extend(Apply(st, run[0]), run[1..], a);
    }
  }

  /** k reservations were made, all gone; launch 0 still believes in the first of them. */
  ghost predicate Spun(st: State, k: nat) {
    && 1 <= k && |st.launches| == U64_RANGE + 1
    && st.registry == Registry(map[], k % U64_RANGE) && st.reservations == k
    && st.launches[0] == FORGOTTEN
    && (forall j :: k <= j < |st.launches| ==> st.launches[j] == FRESH)
  }

  lemma Orphan() returns (run: seq<Action>)
    ensures ValidRun(Start(), run) && Spun(Final(Start(), run), 1)
  {
    run := [];
    Extend(Start(), run, Check(0));
    run := run + [Check(0)];
    Extend(Start(), run, ReserveSlot(0));
    run := run + [ReserveSlot(0)];
    Extend(Start(), run, ForgetSlot(0));
    run := run + [ForgetSlot(0)];
    assert Final(Start(), run).registry.slots == map[];
  }

  /** As Spun, but launch k has just made reservation number k. */
  ghost predicate Reserved(st: State, k: nat) {
    && 1 <= k < |st.launches| == U64_RANGE + 1
    && st.registry == Registry(map[SESSION := Launching(k % U64_RANGE)], (k + 1) % U64_RANGE) && st.reservations == k + 1
    && st.launches[0] == FORGOTTEN
    && st.launches[k].session == SESSION && st.launches[k].plan == FRESH.plan && st.launches[k].pc == Preparing(k % U64_RANGE)
    && (forall j :: k < j < |st.launches| ==> st.launches[j] == FRESH)
  }

  lemma CheckStep(st: State, k: nat)
    requires Spun(st, k) && k < U64_RANGE
    ensures Enabled(st, Check(k)) && Apply(st, Check(k)) == At(st, k, Reserving)
  {
    assert st.launches[k] == FRESH;
  }

  lemma ReserveStep(st: State, k: nat)
    requires Spun(st, k) && k < U64_RANGE
    ensures var queued := At(st, k, Reserving);
            Enabled(queued, ReserveSlot(k)) && Reserved(Apply(queued, ReserveSlot(k)), k)
  {
    assert At(st, k, Reserving).launches[k] == FRESH.(pc := Reserving);
    assert Apply(At(st, k, Reserving), ReserveSlot(k)) == DoReserve(At(st, k, Reserving), k);
  }

  lemma ReserveAgain(run: seq<Action>, k: nat) returns (longer: seq<Action>)
    requires ValidRun(Start(), run) && Spun(Final(Start(), run), k) && k < U64_RANGE
    ensures ValidRun(Start(), longer) && Reserved(Final(Start(), longer), k)
  {
    CheckStep(Final(Start(), run), k);
    ReserveStep(Final(Start(), run), k);
    Extend(Start(), run, Check(k));
    Extend(Start(), run + [Check(k)], ReserveSlot(k));
    longer := run + [Check(k)] + [ReserveSlot(k)];
  }

  /** A launch that fails to prepare makes a reservation and gives it back. */
  lemma SpinOnce(run: seq<Action>, k: nat) returns (longer: seq<Action>)
    requires ValidRun(Start(), run) && Spun(Final(Start(), run), k) && k < U64_RANGE
    ensures ValidRun(Start(), longer) && Spun(Final(Start(), longer), k + 1)
  {
    longer := ReserveAgain(run, k);
    Extend(Start(), longer, Prepare(k, false));
    longer := longer + [Prepare(k, false)];
    Extend(Start(), longer, ClearSlot(k));
    longer := longer + [ClearSlot(k)];
    assert Final(Start(), longer).registry.slots == map[];
  }

  lemma {:induction false} SpinTo(k: nat) returns (run: seq<Action>)
    requires 1 <= k <= U64_RANGE
    ensures ValidRun(Start(), run) && Spun(Final(Start(), run), k)
  {
    if k == 1 {
      run := Orphan();
    } else {
      run := SpinTo(k - 1);
      run := SpinOnce(run, k - 1);
    }
  }

  lemma ForgottenLaunchDisturbsALaterOne() returns (run: seq<Action>)
    ensures Initial(Start()) && ValidRun(Start(), run)
    ensures var end := Final(Start(), run);
            && |end.launches| > 0 && end.reservations - end.launches[0].ticket == U64_RANGE + 1
            && Enabled(end, ClearSlot(0))
            && SESSION in end.registry.slots && end.registry.slots[SESSION].Launching?
            && SESSION in end.maker && end.maker[SESSION] != 0
            && SESSION !in Apply(end, ClearSlot(0)).registry.slots
  {
    run := SpinTo(U64_RANGE);
    Extend(Start(), run, Check(U64_RANGE));
    run := run + [Check(U64_RANGE)];
    Extend(Start(), run, ReserveSlot(U64_RANGE));
    run := run + [ReserveSlot(U64_RANGE)];
    Extend(Start(), run, Prepare(0, false));
    run := run + [Prepare(0, false)];
  }
}
