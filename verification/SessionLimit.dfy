/**
 The limit on closed sessions under concurrency: closing a session starts a prune, and while
 sessions are closed, deleted and restored as active no more than the limit are left in the end.
 */
module SessionLimit {
  import opened SessionStore
  import opened SessionProtocol
  import SessionCap

  /** Ids a delete has marked and will still remove. */
  ghost predicate Doomed(st: State, id: string) {
    exists i :: 0 <= i < |st.ops| && WillRemove(st.ops[i].pc, id)
  }

  predicate WillRemove(pc: Pc, id: string) {
    match pc
    case Marking(_, marked) => id in marked
    case Removing(ids, pruning) => !pruning && id in ids
    case _ => false
  }

  ghost function Closed(st: State): set<string>
    requires Names(st, st.sessions)
  {
    set k | k in st.sessions && !st.handles[st.sessions[k]].active
  }

  /** Some caller asks to restore this session as a closed one. */
  ghost predicate RestoresClosed(st: State, id: string) {
    exists i :: 0 <= i < |st.ops| && st.ops[i].request.Restore? && st.ops[i].request.id == id && st.ops[i].request.closedAt.Some?
  }

  /** Closed sessions that only a pruner can take away and no restore can bring. */
  ghost function Lasting(st: State): set<string>
    requires Names(st, st.sessions)
  {
    set k | k in Closed(st) && !Doomed(st, k) && !RestoresClosed(st, k)
  }

  /** This operation will see to it that at most `closedLimit` of them are left. */
  ghost predicate WillPrune(st: State, pc: Pc)
    requires References(st)
  {
    match pc
    case Pruning => true
    case Reading(todo, seen, _) =>
      forall k :: k in Lasting(st) ==> k in seen || (k in todo && todo[k] == st.sessions[k])
    case Removing(ids, pruning) => pruning && |Lasting(st) - ids.Keys| <= st.closedLimit
    case _ => false
  }

  ghost predicate Limited(st: State)
    requires References(st)
  {
    |Lasting(st)| <= st.closedLimit || exists i :: 0 <= i < |st.ops| && WillPrune(st, st.ops[i].pc)
  }

  ghost predicate LimitInv(st: State) {
    References(st) && Limited(st)
  }

  lemma RestoresClosedStays(st: State, a: Action, k: string)
    requires Enabled(st, a)
    ensures RestoresClosed(Apply(st, a), k) <==> RestoresClosed(st, k)
  {
    OthersStay(st, a, a.i);
    if i :| 0 <= i < |st.ops| && st.ops[i].request.Restore? && st.ops[i].request.id == k && st.ops[i].request.closedAt.Some? {
      OthersStay(st, a, i);
      assert Apply(st, a).ops[i].request == st.ops[i].request;
    }
    if i :| 0 <= i < |st.ops| && Apply(st, a).ops[i].request.Restore? && Apply(st, a).ops[i].request.id == k
            && Apply(st, a).ops[i].request.closedAt.Some? {
      OthersStay(st, a, i);
      assert Apply(st, a).ops[i].request == st.ops[i].request;
    }
  }

  /** What is marked stays marked until it is gone. */
  lemma DoomedStep(st: State, a: Action, k: string)
    requires Enabled(st, a) && Doomed(st, k)
    ensures Doomed(Apply(st, a), k) || k !in Apply(st, a).sessions
  {
    var next := Apply(st, a);
    var i :| 0 <= i < |st.ops| && WillRemove(st.ops[i].pc, k);
    OthersStay(st, a, i);
    assert WillRemove(next.ops[i].pc, k) || (a.Remove? && a.i == i);
  }

  lemma MarkTouchesOne(st: State, a: Action, k: string)
    requires Enabled(st, a) && a.Mark? && References(st) && k in st.sessions
    ensures k == a.key ==> Doomed(Apply(st, a), k)
    ensures k != a.key ==> Apply(st, a).handles[st.sessions[k]] == st.handles[st.sessions[k]]
  {
    assert PcNames(st, st.ops[a.i].pc);
    if k == a.key {
      assert WillRemove(Apply(st, a).ops[a.i].pc, k);
    }
  }

  /** A restore brings a session that is active, or one that some caller restores as closed. */
  lemma RestoreStep(st: State, i: nat, k: string)
    requires Enabled(st, RestoreNow(i)) && References(st) && References(DoRestore(st, i))
    requires k in Closed(DoRestore(st, i)) && !RestoresClosed(st, k)
    ensures k in Closed(st) && DoRestore(st, i).sessions[k] == st.sessions[k]
  {
  }

  /** Otherwise a session that is there and closed was there before, and closed or just now closed or marked. */
  lemma ClosedStep(st: State, a: Action, k: string)
    requires Enabled(st, a) && References(st) && !a.RestoreNow?
    requires References(Apply(st, a)) && k in Closed(Apply(st, a))
    ensures k in st.sessions && Apply(st, a).sessions[k] == st.sessions[k]
    ensures k in Closed(st) || Doomed(Apply(st, a), k) || (a.CloseHandle? && Apply(st, a).ops[a.i].pc.Pruning?)
  {
    if a.Mark? {
      MarkTouchesOne(st, a, k);
    }
  }

  /** Only closing a handle makes the lasting closed sessions more, and then a prune follows. */
  lemma LastingStep(st: State, a: Action, k: string)
    requires Enabled(st, a) && References(st)
    requires References(Apply(st, a)) && k in Lasting(Apply(st, a))
    ensures k in Lasting(st) || (a.CloseHandle? && Apply(st, a).ops[a.i].pc.Pruning?)
    ensures k in st.sessions && Apply(st, a).sessions[k] == st.sessions[k]
  {
    RestoresClosedStays(st, a, k);
    if a.RestoreNow? {
      RestoreStep(st, a.i, k);
    } else {
      ClosedStep(st, a, k);
    }
    if Doomed(st, k) {
      DoomedStep(st, a, k);
    }
  }

  /** Lasting shrinks, unless this action starts a prune. */
  lemma LastingShrinks(st: State, a: Action)
    requires Enabled(st, a) && References(st) && References(Apply(st, a))
    requires !(a.CloseHandle? && Apply(st, a).ops[a.i].pc.Pruning?)
    ensures Lasting(Apply(st, a)) <= Lasting(st)
    ensures forall k :: k in Lasting(Apply(st, a)) ==> Apply(st, a).sessions[k] == st.sessions[k]
    ensures |Lasting(Apply(st, a))| <= |Lasting(st)|
  {
    forall k | k in Lasting(Apply(st, a))
      ensures k in Lasting(st) && Apply(st, a).sessions[k] == st.sessions[k]
    {
      LastingStep(st, a, k);
    }
    SessionCap.SubsetCount(Lasting(Apply(st, a)), Lasting(st));
  }

  lemma OtherStillPrunes(st: State, next: State, pc: Pc)
    requires References(st) && References(next) && WillPrune(st, pc) && next.closedLimit == st.closedLimit
    requires Lasting(next) <= Lasting(st)
    requires forall k :: k in Lasting(next) ==> next.sessions[k] == st.sessions[k]
    ensures WillPrune(next, pc)
  {
    if pc.Removing? {
      SessionCap.SubsetCount(Lasting(next) - pc.ids.Keys, Lasting(st) - pc.ids.Keys);
    }
  }

  lemma ReadGoesOn(st: State, i: nat, key: string)
    requires Enabled(st, Read(i, key)) && References(st) && WillPrune(st, st.ops[i].pc) && References(DoRead(st, i, key))
    requires Lasting(DoRead(st, i, key)) <= Lasting(st)
    ensures WillPrune(DoRead(st, i, key), DoRead(st, i, key).ops[i].pc)
  {
  }

  lemma AllSeen(st: State, pc: Pc)
    requires References(st) && WillPrune(st, pc) && pc.Reading? && pc.todo == map[]
    ensures Lasting(st) <= pc.seen.Keys
  {
  }

  lemma ChooseGoesOn(st: State, i: nat, stale: set<string>, left: set<string>)
    requires i < |st.ops| && st.ops[i].pc.Reading? && st.ops[i].pc.seen.Keys == st.ops[i].pc.from.Keys
    requires left <= st.ops[i].pc.seen.Keys && Prunes(st.ops[i].pc.seen, st.closedLimit, stale)
    ensures var pc := DoChoose(st, i, stale).ops[i].pc;
            |left| <= st.closedLimit || (pc.Removing? && pc.pruning && |left - pc.ids.Keys| <= st.closedLimit)
  {
    var pc := st.ops[i].pc;
    PrunedLeavesLimit(left, pc.seen, st.closedLimit, stale);
    ChosenIds(pc.from, stale);
  }

  lemma ChosenIds(from: map<string, nat>, stale: set<string>)
    requires stale <= from.Keys
    ensures (map k | k in from && k in stale :: from[k]).Keys == stale
  {
  }

  lemma PrunedLeavesLimit(lasting: set<string>, seen: map<string, Time>, limit: nat, stale: set<string>)
    requires lasting <= seen.Keys && Prunes(seen, limit, stale)
    ensures |lasting - stale| <= limit
    ensures |seen| <= limit ==> |lasting| <= limit
  {
    assert |seen| == |seen.Keys|;
    SessionCap.SubsetCount(lasting, seen.Keys);
    SessionCap.SubsetCount(lasting - stale, seen.Keys - stale);
  }

  lemma RemoveEnds(st: State, i: nat)
    requires Enabled(st, Remove(i)) && References(st) && WillPrune(st, st.ops[i].pc) && References(DoRemove(st, i))
    requires Lasting(DoRemove(st, i)) <= Lasting(st)
    ensures |Lasting(DoRemove(st, i))| <= st.closedLimit
  {
    SessionCap.SubsetCount(Lasting(DoRemove(st, i)), Lasting(st) - st.ops[i].pc.ids.Keys);
  }

  /** The operation that was going to prune takes its next step. */
  lemma PrunerGoesOn(st: State, a: Action, next: State)
    requires Enabled(st, a) && next == Apply(st, a)
    requires References(st) && References(next) && a.i < |next.ops|
    requires WillPrune(st, st.ops[a.i].pc) && Lasting(next) <= Lasting(st)
    ensures |Lasting(next)| <= st.closedLimit || WillPrune(next, next.ops[a.i].pc)
  {
    match st.ops[a.i].pc
    case Pruning => SnapshotCoversAll(st, a.i);
    case Reading(_, _, _) =>
      if a.Read? {
        ReadGoesOn(st, a.i, a.key);
      } else {
        ChooseIsEnough(st, a.i, a.stale);
      }
    case Removing(_, _) => RemoveEnds(st, a.i);
  }

  lemma ChooseIsEnough(st: State, i: nat, stale: set<string>)
    requires Enabled(st, Choose(i, stale)) && References(st) && WillPrune(st, st.ops[i].pc) && References(DoChoose(st, i, stale))
    requires Lasting(DoChoose(st, i, stale)) <= Lasting(st)
    ensures var next := DoChoose(st, i, stale);
            |Lasting(next)| <= st.closedLimit || WillPrune(next, next.ops[i].pc)
  {
    var next, left := DoChoose(st, i, stale), Lasting(DoChoose(st, i, stale));
    assert left <= st.ops[i].pc.seen.Keys by {
      AllSeen(st, st.ops[i].pc);
    }
    assert st.ops[i].pc.seen.Keys == st.ops[i].pc.from.Keys by {
      assert PcNames(st, st.ops[i].pc);
    }
    ChooseGoesOn(st, i, stale, left);
    if |left| > st.closedLimit {
      RemovingPrunes(next, next.ops[i].pc);
    }
  }

  lemma RemovingPrunes(st: State, pc: Pc)
    requires References(st) && pc.Removing? && pc.pruning && |Lasting(st) - pc.ids.Keys| <= st.closedLimit
    ensures WillPrune(st, pc)
  {
  }

  lemma SnapshotCoversAll(st: State, i: nat)
    requires Enabled(st, SnapshotClosed(i)) && References(st) && References(Apply(st, SnapshotClosed(i)))
    ensures WillPrune(Apply(st, SnapshotClosed(i)), Apply(st, SnapshotClosed(i)).ops[i].pc)
  {
  }

  lemma KeepsLimited(st: State, a: Action)
    requires Enabled(st, a) && LimitInv(st) && References(Apply(st, a))
    ensures Limited(Apply(st, a))
  {
    var next := Apply(st, a);
    SessionCap.CapFixed(st, a);
    if a.CloseHandle? && next.ops[a.i].pc.Pruning? {
      assert WillPrune(next, next.ops[a.i].pc);
    } else {
      LastingShrinks(st, a);
      if |Lasting(st)| > st.closedLimit {
        var i :| 0 <= i < |st.ops| && WillPrune(st, st.ops[i].pc);
        OthersStay(st, a, i);
        if i == a.i {
          PrunerGoesOn(st, a, next);
        } else {
          OtherStillPrunes(st, next, st.ops[i].pc);
        }
        assert |Lasting(next)| <= next.closedLimit || WillPrune(next, next.ops[i].pc);
      }
    }
  }

  lemma {:induction false} LimitReachable(st: State, run: seq<Action>)
    requires LimitInv(st) && ValidRun(st, run)
    ensures LimitInv(Final(st, run)) && Final(st, run).closedLimit == st.closedLimit
    ensures forall k :: RestoresClosed(Final(st, run), k) <==> RestoresClosed(st, k)
    decreases |run|
  {
    if run != [] {
      KeepsReferences(st, run[0]);
      KeepsLimited(st, run[0]);
      SessionCap.CapFixed(st, run[0]);
      LimitReachable(Apply(st, run[0]), run[1..]);
      forall k ensures RestoresClosed(Apply(st, run[0]), k) <==> RestoresClosed(st, k) {
        RestoresClosedStays(st, run[0], k);
      }
    }
  }

  lemma InitialLimitInv(st: State)
    requires Initial(st)
    ensures LimitInv(st)
  {
    assert Lasting(st) == {};
  }

  ghost function ClosedNotRestored(start: State, st: State): set<string>
    requires Names(st, st.sessions)
  {
    set k | k in Closed(st) && !RestoresClosed(start, k)
  }

  /**
   In every run, once all operations have ended, at most `closedLimit` closed sessions are left, not
   counting those that some caller restored as closed.
   */
  lemma ClosedSessionsStayWithinLimit(st: State, run: seq<Action>)
    requires Initial(st) && ValidRun(st, run)
    requires forall i :: 0 <= i < |Final(st, run).ops| ==> Final(st, run).ops[i].pc.Ended?
    ensures Names(Final(st, run), Final(st, run).sessions)
    ensures |ClosedNotRestored(st, Final(st, run))| <= st.closedLimit
  {
    InitialLimitInv(st);
    LimitReachable(st, run);
    assert Lasting(Final(st, run)) == ClosedNotRestored(st, Final(st, run));
  }

  /** When no caller restores a closed session, that is all closed sessions, active restores or not. */
  lemma LimitHoldsWithoutClosedRestores(st: State, run: seq<Action>)
    requires Initial(st) && ValidRun(st, run)
    requires forall i :: 0 <= i < |Final(st, run).ops| ==> Final(st, run).ops[i].pc.Ended?
    requires forall i :: 0 <= i < |st.ops| && st.ops[i].request.Restore? ==> st.ops[i].request.closedAt.None?
    ensures Names(Final(st, run), Final(st, run).sessions)
    ensures |Closed(Final(st, run))| <= st.closedLimit
  {
    ClosedSessionsStayWithinLimit(st, run);
    assert ClosedNotRestored(st, Final(st, run)) == Closed(Final(st, run));
  }
}
