/**
 The promises about cancelling, told of the run itself: which sends fall between a prompt's
 subscription, its reading of the generation and the end of its wait.
 */
module CancelRuns {
  import opened CancelGenerations

  function Sends(run: seq<Action>): nat {
    if run == [] then 0 else (if run[0].Send? then 1 else 0) + Sends(run[1..])
  }

  lemma {:induction false} VersionCountsSends(st: State, run: seq<Action>)
    requires ValidRun(st, run)
    ensures Final(st, run).version == st.version + Sends(run)
    decreases |run|
  {
    if run != [] {
      VersionCountsSends(Apply(st, run[0]), run[1..]);
    }
  }

  lemma {:induction false} RunSplits(st: State, first: seq<Action>, second: seq<Action>)
    requires ValidRun(st, first + second)
    ensures ValidRun(st, first) && ValidRun(Final(st, first), second)
    ensures Final(st, first + second) == Final(Final(st, first), second)
    decreases |first|
  {
    if first == [] {
      assert first + second == second;
    } else {
      assert (first + second)[0] == first[0] && (first + second)[1..] == first[1..] + second;
      RunSplits(Apply(st, first[0]), first[1..], second);
    }
  }

  lemma OneStep(st: State, a: Action)
    requires ValidRun(st, [a])
    ensures Enabled(st, a) && Final(st, [a]) == Apply(st, a)
  {
    assert [a][1..] == [];
  }

  // ----- what a prompt keeps while it waits

  predicate IsHolder(pc: PromptPc) {
    pc.Holding? || pc.Waiting?
  }

  lemma StepKeepsSubscription(st: State, a: Action, p: nat)
    requires Enabled(st, a) && p < |st.prompts| && !st.prompts[p].pc.Entering?
    ensures p < |Apply(st, a).prompts| && !Apply(st, a).prompts[p].pc.Entering?
    ensures var before, after := st.prompts[p].pc, Apply(st, a).prompts[p].pc;
            after.Subscribed? || IsHolder(after) ==> (before.Subscribed? || IsHolder(before)) && after.seen == before.seen
  {
  }

  lemma {:induction false} KeepsSubscription(st: State, run: seq<Action>, p: nat)
    requires ValidRun(st, run) && p < |st.prompts| && !st.prompts[p].pc.Entering?
    ensures p < |Final(st, run).prompts| && !Final(st, run).prompts[p].pc.Entering?
    ensures var before, after := st.prompts[p].pc, Final(st, run).prompts[p].pc;
            after.Subscribed? || IsHolder(after) ==> (before.Subscribed? || IsHolder(before)) && after.seen == before.seen
    decreases |run|
  {
    if run != [] {
      StepKeepsSubscription(st, run[0], p);
      KeepsSubscription(Apply(st, run[0]), run[1..], p);
    }
  }

  lemma StepKeepsReading(st: State, a: Action, p: nat)
    requires Enabled(st, a) && p < |st.prompts| && HasRead(st.prompts[p].pc)
    ensures p < |Apply(st, a).prompts|
    ensures var before, after := st.prompts[p], Apply(st, a).prompts[p];
            && (HasRead(after.pc) || after.pc.Left?)
            && (IsHolder(after.pc) ==> IsHolder(before.pc) && after.record == before.record && after.pc.generation == before.pc.generation)
  {
  }

  lemma LeftStays(st: State, a: Action, p: nat)
    requires Enabled(st, a) && p < |st.prompts| && st.prompts[p].pc.Left?
    ensures p < |Apply(st, a).prompts| && Apply(st, a).prompts[p].pc.Left?
  {
  }

  lemma {:induction false} KeepsReading(st: State, run: seq<Action>, p: nat)
    requires ValidRun(st, run) && p < |st.prompts| && (HasRead(st.prompts[p].pc) || st.prompts[p].pc.Left?)
    ensures p < |Final(st, run).prompts|
    ensures IsHolder(Final(st, run).prompts[p].pc) ==>
              && IsHolder(st.prompts[p].pc) && Final(st, run).prompts[p].record == st.prompts[p].record
              && Final(st, run).prompts[p].pc.generation == st.prompts[p].pc.generation
    decreases |run|
  {
    if run != [] {
      if st.prompts[p].pc.Left? {
        LeftStays(st, run[0], p);
      } else {
        StepKeepsReading(st, run[0], p);
      }
      KeepsReading(Apply(st, run[0]), run[1..], p);
    }
  }

  // ----- the course of a prompt

  /** The prompt subscribes after `before`, reads the generation after `between`, and then `since` happens. */
  function Course(before: seq<Action>, between: seq<Action>, since: seq<Action>, p: nat): seq<Action> {
    before + ([Subscribe(p)] + (between + ([ReadGeneration(p)] + since)))
  }

  lemma AtSubscription(st: State, before: seq<Action>, rest: seq<Action>, p: nat) returns (after: State)
    requires ValidRun(st, before + ([Subscribe(p)] + rest))
    ensures ValidRun(after, rest) && Final(after, rest) == Final(st, before + ([Subscribe(p)] + rest))
    ensures p < |after.prompts| && after.prompts[p].pc == Subscribed(Seen(st, before))
    ensures after.version == st.version + Sends(before)
  {
    RunSplits(st, before, [Subscribe(p)] + rest);
    VersionCountsSends(st, before);
    var here := Final(st, before);
    RunSplits(here, [Subscribe(p)], rest);
    OneStep(here, Subscribe(p));
    after := Apply(here, Subscribe(p));
  }

  /** A receiver counts as seen whatever was sent before it was there. */
  function Seen(st: State, before: seq<Action>): nat {
    st.version + Sends(before)
  }

  lemma AtReading(st: State, between: seq<Action>, since: seq<Action>, p: nat) returns (after: State)
    requires ValidRun(st, between + ([ReadGeneration(p)] + since)) && p < |st.prompts| && st.prompts[p].pc.Subscribed?
    ensures ValidRun(after, since) && Final(after, since) == Final(st, between + ([ReadGeneration(p)] + since))
    ensures p < |after.prompts| && after.prompts[p].pc == Holding(st.prompts[p].pc.seen, after.value)
    ensures after.prompts[p].record.version == after.version == st.version + Sends(between)
  {
    RunSplits(st, between, [ReadGeneration(p)] + since);
    VersionCountsSends(st, between);
    KeepsSubscription(st, between, p);
    var here := Final(st, between);
    RunSplits(here, [ReadGeneration(p)], since);
    OneStep(here, ReadGeneration(p));
    after := Apply(here, ReadGeneration(p));
  }

  /** What the end of a course says of the sends in it. */
  lemma EndOfCourse(st: State, before: seq<Action>, between: seq<Action>, since: seq<Action>, p: nat)
    requires ValidRun(st, Course(before, between, since, p))
    requires p < |Final(st, Course(before, between, since, p)).prompts|
    requires IsHolder(Final(st, Course(before, between, since, p)).prompts[p].pc)
    ensures var end := Final(st, Course(before, between, since, p));
            var prompt := end.prompts[p];
            && prompt.pc.seen == st.version + Sends(before)
            && prompt.record.version == prompt.pc.seen + Sends(between)
            && end.version == prompt.record.version + Sends(since)
  {
    var subscribed := AtSubscription(st, before, between + ([ReadGeneration(p)] + since), p);
    var read := AtReading(subscribed, between, since, p);
    KeepsSubscription(read, since, p);
    KeepsReading(read, since, p);
    VersionCountsSends(read, since);
  }

  // ----- the promises

  /** The wait answers true at once exactly if something was sent since the reading; else it goes on. */
  lemma WaitStartsIffNothingSent(st: State, before: seq<Action>, between: seq<Action>, since: seq<Action>, p: nat)
    requires Initial(st) && ValidRun(st, Course(before, between, since, p))
    requires Final(st, Course(before, between, since, p)).bumps < U64_RANGE
    requires Enabled(Final(st, Course(before, between, since, p)), StartWait(p))
    ensures var pc := Apply(Final(st, Course(before, between, since, p)), StartWait(p)).prompts[p].pc;
            if Sends(since) > 0 then pc == Answered(true, Immediately) else pc.Waiting?
  {
    EndOfCourse(st, before, between, since, p);
    ValueDiffersIffSentSince(st, Course(before, between, since, p), p);
  }

  /**
   A waiting prompt can be woken before its timer exactly if something was sent since its subscription,
   and then it answers true exactly if something was sent since its reading.
   */
  lemma WokenIffSentSinceSubscription(st: State, before: seq<Action>, between: seq<Action>, since: seq<Action>, p: nat)
    requires Initial(st) && ValidRun(st, Course(before, between, since, p))
    requires Final(st, Course(before, between, since, p)).bumps < U64_RANGE
    requires p < |Final(st, Course(before, between, since, p)).prompts|
    requires Final(st, Course(before, between, since, p)).prompts[p].pc.Waiting?
    ensures var end := Final(st, Course(before, between, since, p));
            && (Enabled(end, Notice(p)) <==> Sends(between) + Sends(since) > 0)
            && (Enabled(end, Notice(p)) ==> Apply(end, Notice(p)).prompts[p].pc == Answered(Sends(since) > 0, ChangeSeen))
  {
    EndOfCourse(st, before, between, since, p);
    ValueDiffersIffSentSince(st, Course(before, between, since, p), p);
  }

  /** With nothing sent since its reading, a wait can end before its timer exactly if something was sent between subscription and reading. */
  lemma EndsEarlyIffSentBetween(st: State, before: seq<Action>, between: seq<Action>, since: seq<Action>, p: nat)
    requires Initial(st) && ValidRun(st, Course(before, between, since, p)) && Sends(since) == 0
    requires Final(st, Course(before, between, since, p)).bumps < U64_RANGE
    requires p < |Final(st, Course(before, between, since, p)).prompts|
    requires Final(st, Course(before, between, since, p)).prompts[p].pc.Waiting?
    ensures var end := Final(st, Course(before, between, since, p));
            && (Enabled(end, Notice(p)) <==> Sends(between) > 0)
            && (Enabled(end, Notice(p)) ==> Apply(end, Notice(p)).prompts[p].pc == Answered(false, ChangeSeen))
  {
    WokenIffSentSinceSubscription(st, before, between, since, p);
  }

  // ----- every waiting prompt has such a course

  lemma LastStep(st: State, run: seq<Action>)
    requires ValidRun(st, run) && run != []
    ensures var n := |run| - 1;
            && ValidRun(st, run[..n]) && Enabled(Final(st, run[..n]), run[n])
            && Final(st, run) == Apply(Final(st, run[..n]), run[n])
  {
    var n := |run| - 1;
    assert run == run[..n] + [run[n]];
    RunSplits(st, run[..n], [run[n]]);
    OneStep(Final(st, run[..n]), run[n]);
  }

  lemma {:induction false} FindSubscription(st: State, run: seq<Action>, p: nat) returns (before: seq<Action>, between: seq<Action>)
    requires Initial(st) && ValidRun(st, run)
    requires p < |Final(st, run).prompts| && Final(st, run).prompts[p].pc.Subscribed?
    ensures run == before + ([Subscribe(p)] + between)
    decreases |run|
  {
    var n := |run| - 1;
    LastStep(st, run);
    if run[n] == Subscribe(p) {
      before, between := run[..n], [];
    } else {
      before, between := FindSubscription(st, run[..n], p);
      between := between + [run[n]];
    }
  }

  lemma {:induction false} FindCourse(st: State, run: seq<Action>, p: nat)
    returns (before: seq<Action>, between: seq<Action>, since: seq<Action>)
    requires Initial(st) && ValidRun(st, run)
    requires p < |Final(st, run).prompts| && IsHolder(Final(st, run).prompts[p].pc)
    ensures run == Course(before, between, since, p)
    decreases |run|
  {
    var n := |run| - 1;
    LastStep(st, run);
    if run[n] == ReadGeneration(p) {
      before, between := FindSubscription(st, run[..n], p);
      since := [];
      assert run == run[..n] + [run[n]];
    } else {
      before, between, since := FindCourse(st, run[..n], p);
      assert run == run[..n] + [run[n]];
      since := since + [run[n]];
    }
  }
}
