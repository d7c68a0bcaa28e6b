/**
 What a launch answers, told of the run: it attaches to the running child that it found, fails for
 what happened to it, and loses its place only to a forget. What a forget removes is gone.
 */
module LaunchRuns {
  import opened AgentRegistry
  import opened LaunchProtocol
  import opened LaunchSafety
  import opened LaunchTheorems

  lemma {:induction false} RunSplits(st: State, first: seq<Action>, second: seq<Action>)
    requires ValidRun(st, first + second)
    ensures ValidRun(st, first) && ValidRun(Final(st, first), second)
    ensures Final(st, first + second) == Final(Final(st, first), second)
    decreases |first|
  {
    if first == [] {
      assert first + second == second;
    } else {
      assert (first + second)[0] == first[0] && (first + second)[1..] == first[1..] + second;
      RunSplits(Apply(st, first[0]), first[1..], second);
    }
  }

  lemma OneStep(st: State, a: Action)
    requires ValidRun(st, [a])
    ensures Enabled(st, a) && Final(st, [a]) == Apply(st, a)
  {
    assert [a][1..] == [];
  }

  lemma LastStep(st: State, run: seq<Action>)
    requires ValidRun(st, run) && run != []
    ensures var n := |run| - 1;
            && ValidRun(st, run[..n]) && Enabled(Final(st, run[..n]), run[n])
            && Final(st, run) == Apply(Final(st, run[..n]), run[n])
  {
    var n := |run| - 1;
    assert run == run[..n] + [run[n]];
    RunSplits(st, run[..n], [run[n]]);
    OneStep(Final(st, run[..n]), run[n]);
  }

  lemma PrefixIsRun(st: State, run: seq<Action>, n: nat)
    requires ValidRun(st, run) && n <= |run|
    ensures ValidRun(st, run[..n])
  {
    assert run == run[..n] + run[n..];
    RunSplits(st, run[..n], run[n..]);
  }

  // ----- who forgets

  lemma StepKeepsSessions(st: State, a: Action)
    requires Enabled(st, a)
    ensures |Apply(st, a).forgets| == |st.forgets|
    ensures forall j :: 0 <= j < |st.forgets| ==> Apply(st, a).forgets[j].session == st.forgets[j].session
  {
  }

  lemma {:induction false} KeepsForgetSessions(st: State, run: seq<Action>)
    requires ValidRun(st, run)
    ensures |Final(st, run).forgets| == |st.forgets|
    ensures forall j :: 0 <= j < |st.forgets| ==> Final(st, run).forgets[j].session == st.forgets[j].session
    decreases |run|
  {
    if run != [] {
      StepKeepsSessions(st, run[0]);
      KeepsForgetSessions(Apply(st, run[0]), run[1..]);
    }
  }

  predicate ForgetsSession(st: State, a: Action, s: SessionId) {
    a.ForgetSlot? && a.j < |st.forgets| && st.forgets[a.j].session == s
  }

  /** A forget of the session comes after place `from` in the run. */
  ghost predicate ForgottenSince(st: State, run: seq<Action>, from: nat, s: SessionId) {
    exists f :: from < f < |run| && ForgetsSession(st, run[f], s)
  }

  lemma StillForgotten(st: State, run: seq<Action>, n: nat, from: nat, s: SessionId)
    requires n <= |run| && ForgottenSince(st, run[..n], from, s)
    ensures ForgottenSince(st, run, from, s)
  {
    var f :| from < f < n && ForgetsSession(st, run[..n][f], s);
    assert ForgetsSession(st, run[f], s);
  }

  predicate SlotRuns(st: State, s: SessionId, c: Child) {
    s in st.registry.slots && st.registry.slots[s] == Running(c)
  }

  lemma StoreKeepsRunning(st: State, i: nat, s: SessionId, c: Child)
    requires Enabled(st, StoreChild(i)) && SlotRuns(st, s, c)
    ensures SlotRuns(DoStore(st, i), s, c)
  {
  }

  lemma ClearKeepsRunning(st: State, i: nat, s: SessionId, c: Child)
    requires Enabled(st, ClearSlot(i)) && SlotRuns(st, s, c)
    ensures SlotRuns(DoClear(st, i), s, c)
  {
  }

  /** Only a forget of its session takes a running child out of its slot. */
  lemma RunningStays(st: State, a: Action, s: SessionId, c: Child)
    requires Enabled(st, a) && SlotRuns(st, s, c) && !ForgetsSession(st, a, s)
    ensures SlotRuns(Apply(st, a), s, c)
  {
    if MovesSlots(a) {
      match a {
        case ReserveSlot(i) => assert SlotRuns(DoReserve(st, i), s, c);
        case StoreChild(i) => StoreKeepsRunning(st, i, s, c);
        case ClearSlot(i) => ClearKeepsRunning(st, i, s, c);
        case ForgetSlot(j) => assert SlotRuns(DoForget(st, j), s, c);
      }
    } else {
      RegistryStays(st, a);
    }
  }

  // ----- a launch that finds a running child

  /** At place r the launch found this child running for its session, and since then the child kept its slot or was forgotten. */
  ghost predicate FoundRunning(st: State, run: seq<Action>, i: nat, r: nat, s: SessionId, c: Child) {
    && r < |run| && run[r] == ReserveSlot(i) && ValidRun(st, run[..r]) && SlotRuns(Final(st, run[..r]), s, c)
    && (forall k :: r < k < |run| ==> run[k] != ReserveSlot(i))
    && ValidRun(st, run) && (SlotRuns(Final(st, run), s, c) || ForgottenSince(st, run, r, s))
  }

  lemma OnlyReserveLeadsToReading(st: State, a: Action, i: nat)
    requires Enabled(st, a) && i < |st.launches| && i < |Apply(st, a).launches| && Apply(st, a).launches[i].pc.ReadingMetadata?
    ensures Apply(st, a).launches[i].session == st.launches[i].session
    ensures (st.launches[i].pc.ReadingMetadata? && a != ReserveSlot(i))
            || (a == ReserveSlot(i) && exists c :: SlotRuns(st, st.launches[i].session, c) && SlotRuns(Apply(st, a), st.launches[i].session, c))
  {
    OnlyActorMoves(st, a, i);
    if a == ReserveSlot(i) {
      var c := st.registry.slots[st.launches[i].session].child;
      assert SlotRuns(st, st.launches[i].session, c) && SlotRuns(Apply(st, a), st.launches[i].session, c);
    }
  }

  lemma FoundStays(st: State, run: seq<Action>, i: nat, r: nat, s: SessionId, c: Child)
    requires run != [] && ValidRun(st, run) && FoundRunning(st, run[..|run| - 1], i, r, s, c) && run[|run| - 1] != ReserveSlot(i)
    ensures FoundRunning(st, run, i, r, s, c)
  {
    var n := |run| - 1;
    LastStep(st, run);
    assert run[..n][..r] == run[..r];
    forall k | r < k < |run| ensures run[k] != ReserveSlot(i) {
      assert k < n ==> run[..n][k] == run[k];
    }
    if ForgottenSince(st, run[..n], r, s) {
      StillForgotten(st, run, n, r, s);
    } else {
      KeepsForgetSessions(st, run[..n]);
      if ForgetsSession(Final(st, run[..n]), run[n], s) {
        assert ForgetsSession(st, run[n], s);
      } else {
        RunningStays(Final(st, run[..n]), run[n], s, c);
      }
    }
  }

  lemma {:induction false} ReaderFoundRunning(st: State, run: seq<Action>, i: nat) returns (r: nat, c: Child)
    requires Initial(st) && ValidRun(st, run)
    requires i < |Final(st, run).launches| && Final(st, run).launches[i].pc.ReadingMetadata?
    ensures FoundRunning(st, run, i, r, Final(st, run).launches[i].session, c)
    decreases |run|
  {
    var n := |run| - 1;
    LastStep(st, run);
    var last := Final(st, run[..n]);
    LaunchCount(last, run[n]);
    OnlyReserveLeadsToReading(last, run[n], i);
    var s := last.launches[i].session;
    if run[n] == ReserveSlot(i) {
      r := n;
      c :| SlotRuns(last, s, c) && SlotRuns(Final(st, run), s, c);
    } else {
      r, c := ReaderFoundRunning(st, run[..n], i);
      FoundStays(st, run, i, r, s, c);
    }
  }

  predicate IsAttachment(o: Outcome) {
    o.Attached? || o.NotAttached?
  }

  lemma OnlyReadAttaches(st: State, a: Action, i: nat)
    requires Enabled(st, a) && i < |st.launches| && i < |Apply(st, a).launches|
    requires Apply(st, a).launches[i].pc.Returned? && IsAttachment(Apply(st, a).launches[i].pc.outcome)
    ensures Apply(st, a).launches[i].session == st.launches[i].session
    ensures st.launches[i].pc == Apply(st, a).launches[i].pc || (a == ReadMetadata(i) && st.launches[i].pc.ReadingMetadata?)
            || st.launches[i].pc.Clearing? || st.launches[i].pc.Discarding?
  {
    OnlyActorMoves(st, a, i);
  }

  lemma ReadAnswers(st: State, i: nat, s: SessionId)
    requires Enabled(st, ReadMetadata(i)) && st.launches[i].session == s
    ensures forall c :: SlotRuns(st, s, c) <==> DoReadMetadata(st, i).launches[i].pc == Returned(Attached(c))
  {
  }

  /** Launch i read the metadata at place m, and what it answered then is the outcome. */
  ghost predicate AnsweredAt(st: State, run: seq<Action>, i: nat, m: nat, o: Outcome) {
    && m < |run| && run[m] == ReadMetadata(i) && ValidRun(st, run[..m])
    && Enabled(Final(st, run[..m]), ReadMetadata(i))
    && DoReadMetadata(Final(st, run[..m]), i).launches[i].pc == Returned(o)
  }

  lemma StepAttachesNobodyElse(st: State, a: Action, i: nat)
    requires Enabled(st, a) && i < |st.launches| && i < |Apply(st, a).launches|
    requires st.launches[i].pc.Clearing? || st.launches[i].pc.Discarding? ==> !IsAttachment(st.launches[i].pc.outcome)
    ensures var pc := Apply(st, a).launches[i].pc; pc.Clearing? || pc.Discarding? ==> !IsAttachment(pc.outcome)
  {
    OnlyActorMoves(st, a, i);
  }

  lemma {:induction false} NoAttachmentAfterLaunch(st: State, run: seq<Action>, i: nat)
    requires Initial(st) && ValidRun(st, run) && i < |Final(st, run).launches|
    ensures var pc := Final(st, run).launches[i].pc; pc.Clearing? || pc.Discarding? ==> !IsAttachment(pc.outcome)
    decreases |run|
  {
    if run != [] {
      var n := |run| - 1;
      LastStep(st, run);
      LaunchCount(Final(st, run[..n]), run[n]);
      NoAttachmentAfterLaunch(st, run[..n], i);
      StepAttachesNobodyElse(Final(st, run[..n]), run[n], i);
    }
  }

  lemma {:induction false} FindAnswer(st: State, run: seq<Action>, i: nat) returns (m: nat)
    requires Initial(st) && ValidRun(st, run) && i < |Final(st, run).launches|
    requires Final(st, run).launches[i].pc.Returned? && IsAttachment(Final(st, run).launches[i].pc.outcome)
    ensures AnsweredAt(st, run, i, m, Final(st, run).launches[i].pc.outcome)
    ensures i < |Final(st, run[..m]).launches| && Final(st, run[..m]).launches[i].pc.ReadingMetadata?
    ensures Final(st, run[..m]).launches[i].session == Final(st, run).launches[i].session
    decreases |run|
  {
    var n := |run| - 1;
    LastStep(st, run);
    var last := Final(st, run[..n]);
    LaunchCount(last, run[n]);
    OnlyReadAttaches(last, run[n], i);
    NoAttachmentAfterLaunch(st, run[..n], i);
    if last.launches[i].pc == Final(st, run).launches[i].pc {
      m := FindAnswer(st, run[..n], i);
      assert run[..n][..m] == run[..m];
    } else {
      m := n;
      ClearedIsNoAttachment(last, run[n], i);
    }
  }

  lemma ClearedIsNoAttachment(st: State, a: Action, i: nat)
    requires Enabled(st, a) && i < |st.launches| && i < |Apply(st, a).launches|
    requires st.launches[i].pc.Clearing? || st.launches[i].pc.Discarding? ==> !IsAttachment(st.launches[i].pc.outcome)
    requires Apply(st, a).launches[i].pc.Returned? && IsAttachment(Apply(st, a).launches[i].pc.outcome)
    requires st.launches[i].pc != Apply(st, a).launches[i].pc
    ensures a == ReadMetadata(i) && Apply(st, a) == DoReadMetadata(st, i)
  {
    OnlyActorMoves(st, a, i);
  }

  /**
   A launch that finds its session running attaches to the child it found, unless a forget of the
   session comes between: it is refused only then.
   */
  lemma AttachesUnlessForgotten(st: State, run: seq<Action>, i: nat) returns (r: nat, m: nat, found: Child)
    requires Initial(st) && ValidRun(st, run) && i < |Final(st, run).launches|
    requires Final(st, run).launches[i].pc.Returned? && IsAttachment(Final(st, run).launches[i].pc.outcome)
    ensures var s, o := Final(st, run).launches[i].session, Final(st, run).launches[i].pc.outcome;
            && r < m < |run| && run[r] == ReserveSlot(i) && run[m] == ReadMetadata(i)
            && (forall k :: r < k < m ==> run[k] != ReserveSlot(i))
            && ValidRun(st, run[..r]) && SlotRuns(Final(st, run[..r]), s, found)
            && (o == Attached(found) || ForgottenSince(st, run[..m], r, s))
  {
    m := FindAnswer(st, run, i);
    PrefixIsRun(st, run, m);
    r, found := ReaderFoundRunning(st, run[..m], i);
    var s := Final(st, run).launches[i].session;
    assert run[..m][..r] == run[..r] && run[..m][r] == run[r];
    forall k | r < k < m ensures run[k] != ReserveSlot(i) {
      assert run[..m][k] == run[k];
    }
    ReadAnswers(Final(st, run[..m]), i, s);
  }

  // ----- running children come from launches

  ghost predicate LaunchedFor(st: State, s: SessionId, c: Child) {
    exists j :: 0 <= j < |st.launches| && st.launches[j].session == s && st.launches[j].pc == Returned(Launched(c))
  }

  lemma ReturnedStays(st: State, a: Action, j: nat)
    requires Enabled(st, a) && j < |st.launches| && st.launches[j].pc.Returned?
    ensures j < |Apply(st, a).launches|
    ensures Apply(st, a).launches[j].pc == st.launches[j].pc && Apply(st, a).launches[j].session == st.launches[j].session
  {
    OnlyActorMoves(st, a, j);
  }

  lemma LaunchedStays(st: State, a: Action, s: SessionId, c: Child)
    requires Enabled(st, a) && LaunchedFor(st, s, c)
    ensures LaunchedFor(Apply(st, a), s, c)
  {
    var j :| 0 <= j < |st.launches| && st.launches[j].session == s && st.launches[j].pc == Returned(Launched(c));
    ReturnedStays(st, a, j);
    assert Apply(st, a).launches[j].pc == Returned(Launched(c));
  }

  lemma StoreRuns(st: State, i: nat, s: SessionId, c: Child)
    requires Enabled(st, StoreChild(i)) && SlotRuns(DoStore(st, i), s, c)
    ensures SlotRuns(st, s, c) || LaunchedFor(DoStore(st, i), s, c)
  {
    if !SlotRuns(st, s, c) {
      assert DoStore(st, i).launches[i].session == s && DoStore(st, i).launches[i].pc == Returned(Launched(c));
    }
  }

  lemma ClearRuns(st: State, i: nat, s: SessionId, c: Child)
    requires Enabled(st, ClearSlot(i)) && SlotRuns(DoClear(st, i), s, c)
    ensures SlotRuns(st, s, c)
  {
  }

  lemma NewlyRunning(st: State, a: Action, s: SessionId, c: Child)
    requires Enabled(st, a) && SlotRuns(Apply(st, a), s, c)
    ensures SlotRuns(st, s, c) || LaunchedFor(Apply(st, a), s, c)
  {
    if MovesSlots(a) {
      match a {
        case ReserveSlot(i) => assert SlotRuns(DoReserve(st, i), s, c);
        case StoreChild(i) => StoreRuns(st, i, s, c);
        case ClearSlot(i) => ClearRuns(st, i, s, c);
        case ForgetSlot(j) => assert SlotRuns(DoForget(st, j), s, c);
      }
    } else {
      RegistryStays(st, a);
    }
  }

  /** A child that runs in a slot was launched for that session by a launch that has returned it. */
  lemma {:induction false} RunningWasLaunched(st: State, run: seq<Action>, s: SessionId, c: Child)
    requires Initial(st) && ValidRun(st, run) && SlotRuns(Final(st, run), s, c)
    ensures LaunchedFor(Final(st, run), s, c)
    decreases |run|
  {
    var n := |run| - 1;
    if run != [] {
      LastStep(st, run);
      NewlyRunning(Final(st, run[..n]), run[n], s, c);
      if SlotRuns(Final(st, run[..n]), s, c) {
        RunningWasLaunched(st, run[..n], s, c);
        LaunchedStays(Final(st, run[..n]), run[n], s, c);
      }
    }
  }

  /** A launch attaches to a child only after another launch of its session had returned that child. */
  lemma AttachedAfterLaunched(st: State, run: seq<Action>, i: nat, c: Child) returns (m: nat, j: nat)
    requires Initial(st) && ValidRun(st, run)
    requires i < |Final(st, run).launches| && Final(st, run).launches[i].pc == Returned(Attached(c))
    ensures m < |run| && run[m] == ReadMetadata(i) && ValidRun(st, run[..m])
    ensures var earlier := Final(st, run[..m]);
            && j < |earlier.launches| && j != i && earlier.launches[j].pc == Returned(Launched(c))
            && earlier.launches[j].session == Final(st, run).launches[i].session
  {
    m := FindAnswer(st, run, i);
    PrefixIsRun(st, run, m);
    var before, s := Final(st, run[..m]), Final(st, run).launches[i].session;
    ReadAnswers(before, i, s);
    RunningWasLaunched(st, run[..m], s, c);
    j :| 0 <= j < |before.launches| && before.launches[j].session == s && before.launches[j].pc == Returned(Launched(c));
  }

  // ----- what a forget does

  /** A forget empties its session's slot and leaves the others; a child it took is in its hands. */
  lemma ForgetEmptiesSlot(st: State, j: nat)
    requires Enabled(st, ForgetSlot(j))
    ensures var next, s := Apply(st, ForgetSlot(j)), st.forgets[j].session;
            && s !in next.registry.slots
            && (forall t :: t != s ==> (t in next.registry.slots <==> t in st.registry.slots))
            && (forall t :: t != s && t in st.registry.slots ==> next.registry.slots[t] == st.registry.slots[t])
            && (forall c :: SlotRuns(st, s, c) ==> next.forgets[j].pc == Terminating(c))
  {
  }

  lemma TakenUntilKilled(st: State, a: Action, j: nat, c: Child)
    requires Enabled(st, a) && j < |st.forgets| && st.forgets[j].pc == Terminating(c)
    ensures j < |Apply(st, a).forgets|
    ensures Apply(st, a).forgets[j].pc == Terminating(c) || (Apply(st, a).forgets[j].pc.Finished? && c !in Apply(st, a).owner)
  {
  }

  lemma DeadStaysDead(st: State, a: Action, c: Child)
    requires Enabled(st, a) && Ownership(st) && c !in st.owner && c < st.spawned
    ensures c !in Apply(st, a).owner && c < Apply(st, a).spawned
  {
    OnlySpawnAddsOwner(st, a);
    Counters(st, a);
  }

  lemma FinishedStays(st: State, a: Action, j: nat)
    requires Enabled(st, a) && j < |st.forgets| && st.forgets[j].pc.Finished?
    ensures j < |Apply(st, a).forgets| && Apply(st, a).forgets[j].pc.Finished?
  {
  }

  ghost predicate InItsHandsOrDead(st: State, j: nat, c: Child) {
    && j < |st.forgets| && c < st.spawned
    && (st.forgets[j].pc == Terminating(c) || (st.forgets[j].pc.Finished? && c !in st.owner))
  }

  lemma StepKeepsTaken(st: State, a: Action, j: nat, c: Child)
    requires Enabled(st, a) && Ownership(st) && InItsHandsOrDead(st, j, c)
    ensures InItsHandsOrDead(Apply(st, a), j, c)
  {
    Counters(st, a);
    if st.forgets[j].pc.Finished? {
      FinishedStays(st, a, j);
      DeadStaysDead(st, a, c);
    } else {
      TakenUntilKilled(st, a, j, c);
    }
  }

  lemma {:induction false} KeepsTaken(st: State, run: seq<Action>, j: nat, c: Child)
    requires Inv(st) && ValidRun(st, run) && InItsHandsOrDead(st, j, c)
    ensures InItsHandsOrDead(Final(st, run), j, c)
    decreases |run|
  {
    if run != [] {
      StepKeepsTaken(st, run[0], j, c);
      KeepsInv(st, run[0]);
      KeepsTaken(Apply(st, run[0]), run[1..], j, c);
    }
  }

  /** Once a forget has finished, the child it found running is dead, and stays so. */
  lemma ForgottenChildDies(st: State, before: seq<Action>, j: nat, since: seq<Action>, c: Child)
    requires Initial(st) && ValidRun(st, before + ([ForgetSlot(j)] + since)) && ValidRun(st, before)
    requires Enabled(Final(st, before), ForgetSlot(j)) && SlotRuns(Final(st, before), Final(st, before).forgets[j].session, c)
    requires j < |Final(st, before + ([ForgetSlot(j)] + since)).forgets|
    requires Final(st, before + ([ForgetSlot(j)] + since)).forgets[j].pc.Finished?
    ensures c !in Final(st, before + ([ForgetSlot(j)] + since)).owner
  {
    InitialInv(st);
    ReachableInv(st, before);
    var here := Final(st, before);
    RunSplits(st, before, [ForgetSlot(j)] + since);
    RunSplits(here, [ForgetSlot(j)], since);
    OneStep(here, ForgetSlot(j));
    var next := Apply(here, ForgetSlot(j));
    assert Holds(here, BySlot(here.forgets[j].session), c);
    ForgetEmptiesSlot(here, j);
    Counters(here, ForgetSlot(j));
    KeepsInv(here, ForgetSlot(j));
    KeepsTaken(next, since, j, c);
  }
}
