/**
 Cancelling a mock prompt. A cancel bumps an atomic counter and then sends the new generation
 into a watch channel; prompts subscribe, read the generation and later wait for a different
 one. Sends can land out of order, and a send that finds no receiver is dropped.
 */
module CancelGenerations {
  const U64_RANGE: nat := 0x1_0000_0000_0000_0000

  /** `ticket` numbers the bumps; the generation sent is the ticket modulo 2^64. */
  datatype CancelPc =
    | Calling
    | Bumped(ticket: nat)
    | Sending(ticket: nat)
    | Returned(ticket: nat, sent: bool)

  datatype Ending = Immediately | TimerFired | ChangeSeen

  /** `seen` is the channel version a receiver counts as seen: the one at its subscription. */
  datatype PromptPc =
    | Entering
    | Subscribed(seen: nat)
    | Holding(seen: nat, generation: nat)
    | Waiting(seen: nat, generation: nat)
    | Answered(cancelled: bool, ending: Ending)
    | Left

  /** What had happened when a prompt read its generation and when it answered; no guard reads it. */
  datatype Record = Record(version: nat, ticket: nat, bumps: nat, answeredAt: nat)

  datatype Prompt = Prompt(pc: PromptPc, record: Record)

  /** `version` counts the sends that landed; `lastSent` records the ticket of the latest. */
  datatype State = State(bumps: nat, value: nat, version: nat, cancels: seq<CancelPc>, prompts: seq<Prompt>, lastSent: nat)

  datatype Action =
    | Bump(c: nat)
    | CheckReceivers(c: nat)
    | Send(c: nat)
    | Subscribe(p: nat)
    | ReadGeneration(p: nat)
    | StartWait(p: nat)
    | Timer(p: nat)
    | Notice(p: nat)
    | Leave(p: nat)

  predicate Initial(st: State) {
    && st.bumps == 0 && st.value == 0 && st.version == 0 && st.lastSent == 0
    && (forall c :: 0 <= c < |st.cancels| ==> st.cancels[c] == Calling)
    && (forall p :: 0 <= p < |st.prompts| ==> st.prompts[p].pc == Entering)
  }

  /** A receiver lives from subscribe_cancel to the end of the prompt. */
  predicate Alive(pc: PromptPc) {
    !pc.Entering? && !pc.Left?
  }

  ghost predicate HasReceiver(st: State) {
    exists p :: 0 <= p < |st.prompts| && Alive(st.prompts[p].pc)
  }

  predicate CancelEnabled(st: State, a: Action) {
    match a
    case Bump(c) => c < |st.cancels| && st.cancels[c].Calling?
    case CheckReceivers(c) => c < |st.cancels| && st.cancels[c].Bumped?
    case Send(c) => c < |st.cancels| && st.cancels[c].Sending?
    case _ => false
  }

  predicate PromptEnabled(st: State, a: Action) {
    match a
    case Subscribe(p) => p < |st.prompts| && st.prompts[p].pc.Entering?
    case ReadGeneration(p) => p < |st.prompts| && st.prompts[p].pc.Subscribed?
    case StartWait(p) => p < |st.prompts| && st.prompts[p].pc.Holding?
    case Timer(p) => p < |st.prompts| && st.prompts[p].pc.Waiting?
    case Notice(p) => p < |st.prompts| && st.prompts[p].pc.Waiting? && st.version != st.prompts[p].pc.seen
    // A prompt may also leave early, when its permission request is refused.
    case Leave(p) => p < |st.prompts| && (st.prompts[p].pc.Holding? || st.prompts[p].pc.Answered?)
    case _ => false
  }

  predicate Enabled(st: State, a: Action) {
    CancelEnabled(st, a) || PromptEnabled(st, a)
  }

  function NextPrompt(st: State, a: Action): Prompt
    requires PromptEnabled(st, a)
  {
    var prompt := st.prompts[a.p];
    match a
    case Subscribe(_) => prompt.(pc := Subscribed(st.version))
    case ReadGeneration(_) =>
      Prompt(Holding(prompt.pc.seen, st.value), Record(st.version, st.lastSent, st.bumps, 0))
    case StartWait(_) =>
      if st.value != prompt.pc.generation then Answer(prompt, true, Immediately, st.version)
      else prompt.(pc := Waiting(prompt.pc.seen, prompt.pc.generation))
    case Timer(_) => Answer(prompt, false, TimerFired, st.version)
    case Notice(_) => Answer(prompt, st.value != prompt.pc.generation, ChangeSeen, st.version)
    case Leave(_) => prompt.(pc := Left)
  }

  function Answer(prompt: Prompt, cancelled: bool, ending: Ending, version: nat): Prompt {
    prompt.(pc := Answered(cancelled, ending), record := prompt.record.(answeredAt := version))
  }

  ghost function Apply(st: State, a: Action): State
    requires Enabled(st, a)
  {
    match a
    case Bump(c) => st.(bumps := st.bumps + 1, cancels := st.cancels[c := Bumped(st.bumps + 1)])
    case CheckReceivers(c) =>
      var t := st.cancels[c].ticket;
      st.(cancels := st.cancels[c := if HasReceiver(st) then Sending(t) else Returned(t, false)])
    case Send(c) =>
      var t := st.cancels[c].ticket;
      st.(value := t % U64_RANGE, version := st.version + 1, lastSent := t, cancels := st.cancels[c := Returned(t, true)])
    case _ => st.(prompts := st.prompts[a.p := NextPrompt(st, a)])
  }

  ghost predicate ValidRun(st: State, run: seq<Action>)
    decreases |run|
  {
    run == [] || (Enabled(st, run[0]) && ValidRun(Apply(st, run[0]), run[1..]))
  }

  ghost function Final(st: State, run: seq<Action>): State
    requires ValidRun(st, run)
    decreases |run|
  {
    if run == [] then st else Final(Apply(st, run[0]), run[1..])
  }

  // ----- what every step keeps

  predicate HasRead(pc: PromptPc) {
    pc.Holding? || pc.Waiting? || pc.Answered?
  }

  predicate InFlight(pc: CancelPc) {
    pc.Bumped? || pc.Sending?
  }

  /** No two cancels have the same ticket, and the last one sent is no longer in flight. */
  ghost predicate TicketsInv(st: State) {
    && st.value == st.lastSent % U64_RANGE && st.lastSent <= st.bumps
    && (forall c :: 0 <= c < |st.cancels| && !st.cancels[c].Calling? ==> 1 <= st.cancels[c].ticket <= st.bumps)
    && (forall c, d :: 0 <= c < d < |st.cancels| && !st.cancels[c].Calling? && !st.cancels[d].Calling? ==>
          st.cancels[c].ticket != st.cancels[d].ticket)
    && (forall c :: 0 <= c < |st.cancels| && InFlight(st.cancels[c]) ==> st.cancels[c].ticket != st.lastSent)
  }

  /** The generation a prompt read is never sent again. */
  ghost predicate ReadInv(st: State, prompt: Prompt) {
    HasRead(prompt.pc) ==>
      var r := prompt.record;
      && r.ticket <= r.bumps <= st.bumps && r.version <= st.version
      && (prompt.pc.Holding? || prompt.pc.Waiting? ==> prompt.pc.generation == r.ticket % U64_RANGE)
      && (st.lastSent != r.ticket <==> st.version > r.version)
      && (forall c :: 0 <= c < |st.cancels| && InFlight(st.cancels[c]) ==> st.cancels[c].ticket != r.ticket)
  }

  /** A cancel bumped after the read has been sent by the time it returns. */
  ghost predicate LandedInv(st: State, prompt: Prompt) {
    HasRead(prompt.pc) ==>
      forall c :: 0 <= c < |st.cancels| && st.cancels[c].Returned? && st.cancels[c].ticket > prompt.record.bumps ==>
        st.version > prompt.record.version
  }

  /** With fewer than 2^64 bumps an answer tells whether a send had landed since the read. */
  ghost predicate AnswerInv(st: State, prompt: Prompt) {
    prompt.pc.Answered? && st.bumps < U64_RANGE ==>
      var r := prompt.record;
      && r.version <= r.answeredAt <= st.version
      && (prompt.pc.ending != TimerFired ==> (prompt.pc.cancelled <==> r.answeredAt > r.version))
      && (prompt.pc.ending == TimerFired ==> !prompt.pc.cancelled)
  }

  /** A waiter has not seen any send that landed after its read. */
  ghost predicate SeenInv(prompt: Prompt) {
    prompt.pc.Holding? || prompt.pc.Waiting? ==> prompt.pc.seen <= prompt.record.version
  }

  ghost predicate PromptInv(st: State, prompt: Prompt) {
    && ReadInv(st, prompt) && LandedInv(st, prompt) && AnswerInv(st, prompt) && SeenInv(prompt)
    && (prompt.pc.Subscribed? ==> prompt.pc.seen <= st.version)
  }

  ghost predicate Inv(st: State) {
    TicketsInv(st) && forall p :: 0 <= p < |st.prompts| ==> PromptInv(st, st.prompts[p])
  }

  lemma KeepsTickets(st: State, a: Action)
    requires Enabled(st, a) && TicketsInv(st)
    ensures TicketsInv(Apply(st, a))
  {
  }

  /** A cancel's step, seen by a prompt. */
  lemma CancelStep(st: State, a: Action, p: nat)
    requires CancelEnabled(st, a) && TicketsInv(st) && p < |st.prompts| && PromptInv(st, st.prompts[p])
    ensures PromptInv(Apply(st, a), st.prompts[p])
  {
    if HasRead(st.prompts[p].pc) && a.CheckReceivers? {
      assert HasReceiver(st);
    }
  }

  lemma PromptStep(st: State, a: Action)
    requires PromptEnabled(st, a) && TicketsInv(st) && PromptInv(st, st.prompts[a.p])
    ensures PromptInv(Apply(st, a), NextPrompt(st, a))
  {
  }

  lemma KeepsInv(st: State, a: Action)
    requires Enabled(st, a) && Inv(st)
    ensures Inv(Apply(st, a))
  {
    KeepsTickets(st, a);
    var next := Apply(st, a);
    forall p | 0 <= p < |next.prompts| ensures PromptInv(next, next.prompts[p]) {
      if CancelEnabled(st, a) {
        CancelStep(st, a, p);
      } else {
        PromptStep(st, a);
      }
    }
  }

  lemma {:induction false} Reachable(st: State, run: seq<Action>)
    requires Inv(st) && ValidRun(st, run)
    ensures Inv(Final(st, run))
    decreases |run|
  {
    if run != [] {
      KeepsInv(st, run[0]);
      Reachable(Apply(st, run[0]), run[1..]);
    }
  }

  // ----- the promises

  /** Once a prompt has read a generation, the watched value differs from it from the next send on, for ever. */
  lemma ValueDiffersIffSentSince(st: State, run: seq<Action>, p: nat)
    requires Initial(st) && ValidRun(st, run) && Final(st, run).bumps < U64_RANGE
    requires p < |Final(st, run).prompts| && (Final(st, run).prompts[p].pc.Holding? || Final(st, run).prompts[p].pc.Waiting?)
    ensures var end, prompt := Final(st, run), Final(st, run).prompts[p];
            end.value != prompt.pc.generation <==> end.version > prompt.record.version
  {
    Reachable(st, run);
    assert PromptInv(Final(st, run), Final(st, run).prompts[p]);
  }

  /** A cancel that started after the read and returned before the wait begins makes the wait answer true at once. */
  lemma EarlyCancelIsNotMissed(st: State, run: seq<Action>, p: nat, c: nat)
    requires Initial(st) && ValidRun(st, run) && Final(st, run).bumps < U64_RANGE
    requires Enabled(Final(st, run), StartWait(p)) && c < |Final(st, run).cancels| && Final(st, run).cancels[c].Returned?
    requires Final(st, run).cancels[c].ticket > Final(st, run).prompts[p].record.bumps
    ensures Apply(Final(st, run), StartWait(p)).prompts[p].pc == Answered(true, Immediately)
  {
    Reachable(st, run);
    assert PromptInv(Final(st, run), Final(st, run).prompts[p]);
    ValueDiffersIffSentSince(st, run, p);
  }

  /** A send that lands during the wait can be noticed, and noticing it answers true. */
  lemma LateCancelIsNoticed(st: State, run: seq<Action>, p: nat)
    requires Initial(st) && ValidRun(st, run) && Final(st, run).bumps < U64_RANGE
    requires p < |Final(st, run).prompts| && Final(st, run).prompts[p].pc.Waiting?
    requires Final(st, run).version > Final(st, run).prompts[p].record.version
    ensures Enabled(Final(st, run), Notice(p))
    ensures Apply(Final(st, run), Notice(p)).prompts[p].pc == Answered(true, ChangeSeen)
  {
    Reachable(st, run);
    assert PromptInv(Final(st, run), Final(st, run).prompts[p]);
    ValueDiffersIffSentSince(st, run, p);
  }

  /** The wait answers true only if some send landed after the read. */
  lemma TrueOnlyAfterCancel(st: State, run: seq<Action>, p: nat)
    requires Initial(st) && ValidRun(st, run) && Final(st, run).bumps < U64_RANGE
    requires p < |Final(st, run).prompts| && Final(st, run).prompts[p].pc.Answered?
    ensures var pc, r := Final(st, run).prompts[p].pc, Final(st, run).prompts[p].record;
            && (pc.cancelled ==> r.answeredAt > r.version)
            && (pc.ending != TimerFired && r.answeredAt > r.version ==> pc.cancelled)
  {
    Reachable(st, run);
    assert PromptInv(Final(st, run), Final(st, run).prompts[p]);
  }

  /**
   The wait can also end early without a cancel: exactly when some send landed between the
   subscription and the read, for then the version already differs from the one counted as seen.
   */
  lemma UncancelledWaitEndsEarlyIff(st: State, run: seq<Action>, p: nat)
    requires Initial(st) && ValidRun(st, run) && Final(st, run).bumps < U64_RANGE
    requires p < |Final(st, run).prompts| && Final(st, run).prompts[p].pc.Waiting?
    requires Final(st, run).version == Final(st, run).prompts[p].record.version
    ensures var end, prompt := Final(st, run), Final(st, run).prompts[p];
            && (Enabled(end, Notice(p)) <==> prompt.pc.seen < prompt.record.version)
            && (Enabled(end, Notice(p)) ==> Apply(end, Notice(p)).prompts[p].pc == Answered(false, ChangeSeen))
  {
    Reachable(st, run);
    assert PromptInv(Final(st, run), Final(st, run).prompts[p]);
    ValueDiffersIffSentSince(st, run, p);
  }

  const ONE_EACH := State(0, 0, 0, [Calling], [Prompt(Entering, Record(0, 0, 0, 0))], 0)

  /** One prompt and one cancel suffice: the cancel's send falls between subscribe and borrow. */
  lemma WaitEndsEarlyWithoutCancel()
    ensures var run := [Subscribe(0), Bump(0), CheckReceivers(0), Send(0), ReadGeneration(0), StartWait(0), Notice(0)];
            && Initial(ONE_EACH) && ValidRun(ONE_EACH, run)
            && Final(ONE_EACH, run).prompts[0].pc == Answered(false, ChangeSeen)
  {
    var s1 := Apply(ONE_EACH, Subscribe(0));
    var s2 := Apply(s1, Bump(0));
    assert HasReceiver(s2) by {
      assert Alive(s2.prompts[0].pc);
    }
    var s3 := Apply(s2, CheckReceivers(0));
    var s4 := Apply(s3, Send(0));
    var s5 := Apply(s4, ReadGeneration(0));
    var s6 := Apply(s5, StartWait(0));
    assert Final(s6, [Notice(0)]) == Apply(s6, Notice(0));
    assert ValidRun(s5, [StartWait(0), Notice(0)]);
    assert ValidRun(s4, [ReadGeneration(0), StartWait(0), Notice(0)]);
    assert ValidRun(s3, [Send(0), ReadGeneration(0), StartWait(0), Notice(0)]);
    assert ValidRun(s2, [CheckReceivers(0), Send(0), ReadGeneration(0), StartWait(0), Notice(0)]);
    assert ValidRun(s1, [Bump(0), CheckReceivers(0), Send(0), ReadGeneration(0), StartWait(0), Notice(0)]);
  }
}
