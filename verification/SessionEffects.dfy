/**
 What the operations on the store do and whom they touch, under concurrency: each step changes
 the map and the handles in one way only, and what was closed or removed stays so.
 */
module SessionEffects {
  import SessionCap
  import opened SessionProtocol
  import opened SessionStore
  import opened SessionTraces
  import opened Wrappers

  // ----- entries of the map

  lemma EntriesAfterFind(st: State, i: nat)
    requires Enabled(st, Find(i))
    ensures DoFind(st, i).sessions == st.sessions && DoFind(st, i).handles == st.handles
  {
  }

  /** An entry comes with a creation or with a restore of an id that was not there, and brings what was asked for. */
  lemma EntriesComeBy(st: State, a: Action, k: string)
    requires Enabled(st, a) && k in Apply(st, a).sessions
    requires !(k in st.sessions && Apply(st, a).sessions[k] == st.sessions[k])
    ensures var next, n := Apply(st, a), |st.handles|;
            && next.sessions[k] == n && |next.handles| == n + 1
            && (|| (a.Insert? && a.id == k && next.handles[n].id == k && next.handles[n].active && next.handles[n].closedAt == None
                    && next.handles[n].created
                    && (st.ops[a.i].request.Create? ==> next.handles[n].owner == st.ops[a.i].request.owner))
                || (a.RestoreNow? && k !in st.sessions && st.ops[a.i].request.Restore? && st.ops[a.i].request.id == k
                    && next.handles[n] == Handle(k, st.ops[a.i].request.owner, st.ops[a.i].request.closedAt.None?,
                                                 st.ops[a.i].request.closedAt, false)))
  {
    if a.Find? {
      EntriesAfterFind(st, a.i);
    }
  }

  /** An entry goes only by a removal that lists its id, and every removal takes all ids it lists. */
  lemma EntriesGoBy(st: State, a: Action, k: string)
    requires Enabled(st, a) && k in st.sessions
    ensures k !in Apply(st, a).sessions <==> a.Remove? && k in st.ops[a.i].pc.ids
  {
    if a.Find? {
      EntriesAfterFind(st, a.i);
    }
  }

  /** A creation and a restore leave the id in the store. */
  lemma CreatedAndRestoredAreThere(st: State, a: Action)
    requires Enabled(st, a)
    ensures a.Insert? ==> a.id in Apply(st, a).sessions
    ensures a.RestoreNow? ==> st.ops[a.i].request.id in Apply(st, a).sessions
  {
  }

  // ----- handles

  /** A handle changes only by being closed or marked, and then it is inactive with its first closing time. */
  lemma HandlesChangeBy(st: State, a: Action, h: nat)
    requires Enabled(st, a) && h < |st.handles|
    ensures h < |Apply(st, a).handles|
    ensures var before, after := st.handles[h], Apply(st, a).handles[h];
            after != before ==>
              || (a.CloseHandle? && st.ops[a.i].pc.handle == h && before.active
                  && after == before.(active := false, closedAt := Some(a.now)))
              || (a.Mark? && st.ops[a.i].pc.todo[a.key] == h
                  && after == before.(active := false, closedAt := if before.closedAt.None? then Some(a.now) else before.closedAt))
  {
    if a.Find? {
      EntriesAfterFind(st, a.i);
    }
  }

  /** Closing an active handle closes it now, and a prune follows; marking closes whatever it finds. */
  lemma ClosingCloses(st: State, a: Action)
    requires Enabled(st, a) && (a.CloseHandle? || a.Mark?)
    ensures var h := if a.CloseHandle? then st.ops[a.i].pc.handle else st.ops[a.i].pc.todo[a.key];
            && h < |Apply(st, a).handles| && !Apply(st, a).handles[h].active
            && (a.CloseHandle? && st.handles[h].active ==>
                  Apply(st, a).handles[h].closedAt == Some(a.now) && Apply(st, a).ops[a.i].pc == Pruning)
  {
  }

  /** Closed once, a handle stays closed with the time it was closed at. */
  lemma ClosedStays(st: State, a: Action, h: nat)
    requires Enabled(st, a) && h < |st.handles| && !st.handles[h].active && st.handles[h].closedAt.Some?
    ensures h < |Apply(st, a).handles| && Apply(st, a).handles[h] == st.handles[h]
  {
    HandlesChangeBy(st, a, h);
  }

  lemma {:induction false} ClosedForGood(st: State, run: seq<Action>, h: nat)
    requires ValidRun(st, run) && h < |st.handles| && !st.handles[h].active && st.handles[h].closedAt.Some?
    ensures h < |Final(st, run).handles| && Final(st, run).handles[h] == st.handles[h]
    decreases |run|
  {
    if run != [] {
      ClosedStays(st, run[0], h);
      ClosedForGood(Apply(st, run[0]), run[1..], h);
    }
  }

  // ----- what was removed does not come back

  ghost predicate GoneOrNewer(st: State, k: string, n: nat) {
    n <= |st.handles| && (k in st.sessions ==> n <= st.sessions[k])
  }

  lemma StepKeepsGone(st: State, a: Action, k: string, n: nat)
    requires Enabled(st, a) && GoneOrNewer(st, k, n)
    ensures GoneOrNewer(Apply(st, a), k, n)
  {
    HandlesStep(st, a);
    SessionsMove(st, a);
  }

  lemma {:induction false} KeepsGone(st: State, run: seq<Action>, k: string, n: nat)
    requires ValidRun(st, run) && GoneOrNewer(st, k, n)
    ensures GoneOrNewer(Final(st, run), k, n)
    decreases |run|
  {
    if run != [] {
      StepKeepsGone(st, run[0], k, n);
      KeepsGone(Apply(st, run[0]), run[1..], k, n);
    }
  }

  /** After a removal its ids lead to no handle that was there before it, ever again. */
  lemma RemovedForGood(st: State, i: nat, since: seq<Action>, k: string)
    requires Enabled(st, Remove(i)) && k in st.ops[i].pc.ids && ValidRun(Apply(st, Remove(i)), since)
    ensures var end := Final(Apply(st, Remove(i)), since); k in end.sessions ==> |st.handles| <= end.sessions[k]
  {
    KeepsGone(Apply(st, Remove(i)), since, k, |st.handles|);
  }

  // ----- whom an operation touches

  predicate MayTouch(request: Request, owner: string) {
    match request
    case Close(o, _) => o == owner
    case Delete(o, _) => o == owner
    case Discard(o, _) => o == owner
    case DeleteOwners(owners) => owner in owners
    case _ => false
  }

  ghost predicate AllTouchable(st: State, request: Request, m: map<string, nat>) {
    forall k :: k in m ==> m[k] < |st.handles| && MayTouch(request, st.handles[m[k]].owner)
  }

  ghost predicate TouchesOwn(st: State, op: Op) {
    match op.pc
    case Closing(h) => h < |st.handles| && MayTouch(op.request, st.handles[h].owner)
    case Marking(todo, marked) => AllTouchable(st, op.request, todo) && AllTouchable(st, op.request, marked)
    case Removing(ids, pruning) => !pruning ==> AllTouchable(st, op.request, ids)
    case _ => true
  }

  lemma TouchableStays(st: State, next: State, request: Request, m: map<string, nat>)
    requires HandlesOnlyClose(st, next) && AllTouchable(st, request, m)
    ensures AllTouchable(next, request, m)
  {
  }

  lemma TouchesOwnStays(st: State, next: State, op: Op)
    requires HandlesOnlyClose(st, next) && TouchesOwn(st, op)
    ensures TouchesOwn(next, op)
  {
    match op.pc
    case Marking(todo, marked) =>
      TouchableStays(st, next, op.request, todo);
      TouchableStays(st, next, op.request, marked);
    case Removing(ids, pruning) => if !pruning { TouchableStays(st, next, op.request, ids); }
    case _ =>
  }

  lemma FoundIsOwn(st: State, i: nat)
    requires Enabled(st, Find(i))
    ensures TouchesOwn(st, DoFind(st, i).ops[i])
  {
  }

  lemma MarkedIsOwn(st: State, i: nat, key: string, now: Time)
    requires Enabled(st, Mark(i, key, now)) && TouchesOwn(st, st.ops[i])
    ensures TouchesOwn(st, DoMark(st, i, key, now).ops[i])
  {
  }

  lemma OthersAreOwn(st: State, a: Action)
    requires Enabled(st, a) && !a.Find? && !a.Mark? && TouchesOwn(st, st.ops[a.i])
    ensures TouchesOwn(st, Apply(st, a).ops[a.i])
  {
  }

  lemma KeepsTouchesOwn(st: State, a: Action, k: nat)
    requires Enabled(st, a) && k < |st.ops| && TouchesOwn(st, st.ops[k])
    ensures k < |Apply(st, a).ops| && TouchesOwn(Apply(st, a), Apply(st, a).ops[k])
  {
    HandlesStep(st, a);
    OthersStay(st, a, k);
    if k == a.i {
      match a
      case Find(i) => FoundIsOwn(st, i);
      case Mark(i, key, now) => MarkedIsOwn(st, i, key, now);
      case _ => OthersAreOwn(st, a);
    }
    TouchesOwnStays(st, Apply(st, a), Apply(st, a).ops[k]);
  }

  lemma {:induction false} AlwaysTouchesOwn(st: State, run: seq<Action>, k: nat)
    requires ValidRun(st, run) && k < |st.ops| && TouchesOwn(st, st.ops[k])
    ensures k < |Final(st, run).ops| && TouchesOwn(Final(st, run), Final(st, run).ops[k])
    decreases |run|
  {
    if run != [] {
      KeepsTouchesOwn(st, run[0], k);
      AlwaysTouchesOwn(Apply(st, run[0]), run[1..], k);
    }
  }

  lemma {:induction false} SameRequest(st: State, run: seq<Action>, k: nat)
    requires ValidRun(st, run) && k < |st.ops|
    ensures |Final(st, run).ops| == |st.ops| && Final(st, run).ops[k].request == st.ops[k].request
    decreases |run|
  {
    if run != [] {
      OthersStay(st, run[0], k);
      SameRequest(Apply(st, run[0]), run[1..], k);
    }
  }

  /** In every run a handle changes only at the request of its own owner, or of one who deletes that owner's sessions. */
  lemma OnlyOwnersClose(st: State, run: seq<Action>, a: Action, h: nat)
    requires Initial(st) && ValidRun(st, run) && Enabled(Final(st, run), a) && h < |Final(st, run).handles|
    requires h < |Apply(Final(st, run), a).handles| && Apply(Final(st, run), a).handles[h] != Final(st, run).handles[h]
    ensures a.i < |st.ops| && MayTouch(st.ops[a.i].request, Final(st, run).handles[h].owner)
  {
    var end := Final(st, run);
    HandlesChangeBy(end, a, h);
    SameCount(st, run);
    SameRequest(st, run, a.i);
    AlwaysTouchesOwn(st, run, a.i);
  }

  lemma {:induction false} SameCount(st: State, run: seq<Action>)
    requires ValidRun(st, run)
    ensures |Final(st, run).ops| == |st.ops|
    decreases |run|
  {
    if run != [] {
      OthersStay(st, run[0], run[0].i);
      SameCount(Apply(st, run[0]), run[1..]);
    }
  }

  /** Apart from pruning, an operation removes only ids under which it found a session of its own owner. */
  lemma OnlyOwnersRemove(st: State, run: seq<Action>, i: nat, k: string)
    requires Initial(st) && ValidRun(st, run) && Enabled(Final(st, run), Remove(i))
    requires !Final(st, run).ops[i].pc.pruning && k in Final(st, run).ops[i].pc.ids
    ensures var end := Final(st, run);
            && i < |st.ops| && end.ops[i].pc.ids[k] < |end.handles|
            && MayTouch(st.ops[i].request, end.handles[end.ops[i].pc.ids[k]].owner)
  {
    SameCount(st, run);
    SameRequest(st, run, i);
    AlwaysTouchesOwn(st, run, i);
  }

  // ----- what a prune chooses

  ghost predicate SeenTimes(st: State, pc: Pc) {
    pc.Reading? ==>
      forall k :: k in pc.from ==>
        k in pc.seen && pc.from[k] < |st.handles| && !st.handles[pc.from[k]].active && st.handles[pc.from[k]].closedAt == Some(pc.seen[k])
  }

  lemma SeenStays(st: State, a: Action, pc: Pc)
    requires Enabled(st, a) && SeenTimes(st, pc)
    ensures SeenTimes(Apply(st, a), pc)
  {
    if pc.Reading? {
      forall k | k in pc.from ensures pc.from[k] < |Apply(st, a).handles| && Apply(st, a).handles[pc.from[k]] == st.handles[pc.from[k]] {
        ClosedStays(st, a, pc.from[k]);
      }
    }
  }

  lemma ReadSees(st: State, i: nat, key: string)
    requires Enabled(st, Read(i, key)) && SeenTimes(st, st.ops[i].pc)
    requires forall h :: 0 <= h < |st.handles| ==> (st.handles[h].active <==> st.handles[h].closedAt.None?)
    ensures SeenTimes(st, DoRead(st, i, key).ops[i].pc)
  {
  }

  lemma OnlyReadSees(st: State, a: Action)
    requires Enabled(st, a) && !a.Read? && SeenTimes(st, st.ops[a.i].pc)
    ensures SeenTimes(st, Apply(st, a).ops[a.i].pc)
  {
    if a.Find? {
      FindReadsNothing(st, a.i);
    }
  }

  lemma FindReadsNothing(st: State, i: nat)
    requires Enabled(st, Find(i))
    ensures !DoFind(st, i).ops[i].pc.Reading?
  {
  }

  lemma KeepsSeen(st: State, a: Action, k: nat)
    requires Enabled(st, a) && References(st) && k < |st.ops| && SeenTimes(st, st.ops[k].pc)
    ensures k < |Apply(st, a).ops| && SeenTimes(Apply(st, a), Apply(st, a).ops[k].pc)
  {
    OthersStay(st, a, k);
    if k == a.i {
      if a.Read? {
        ReadSees(st, k, a.key);
      } else {
        OnlyReadSees(st, a);
      }
    }
    SeenStays(st, a, Apply(st, a).ops[k].pc);
  }

  lemma {:induction false} AlwaysSeen(st: State, run: seq<Action>, k: nat)
    requires References(st) && ValidRun(st, run) && k < |st.ops| && SeenTimes(st, st.ops[k].pc)
    ensures k < |Final(st, run).ops| && SeenTimes(Final(st, run), Final(st, run).ops[k].pc)
    decreases |run|
  {
    if run != [] {
      KeepsSeen(st, run[0], k);
      KeepsReferences(st, run[0]);
      AlwaysSeen(Apply(st, run[0]), run[1..], k);
    }
  }

  /**
   Of the closed sessions it read, a prune keeps as many as the limit and removes the others, none of
   which was closed later than one it keeps; with no more than the limit it removes nothing.
   */
  lemma PruneKeepsLatest(st: State, run: seq<Action>, i: nat, stale: set<string>)
    requires Initial(st) && ValidRun(st, run) && Enabled(Final(st, run), Choose(i, stale))
    ensures var end := Final(st, run);
            var from, pc := end.ops[i].pc.from, Apply(end, Choose(i, stale)).ops[i].pc;
            && (|from| <= end.closedLimit ==> pc.Ended?)
            && (|from| > end.closedLimit ==>
                  && pc.Removing? && pc.pruning && pc.ids.Keys <= from.Keys && |from.Keys - pc.ids.Keys| == end.closedLimit
                  && forall r, k :: r in pc.ids && k in from && k !in pc.ids ==> ClosedNotLater(end, from[r], from[k]))
  {
    SameCount(st, run);
    AlwaysSeen(st, run, i);
    var end := Final(st, run);
    ReachableReferences(st, run);
    assert PcNames(end, end.ops[i].pc);
    ChoiceKeepsLatest(end, i, stale);
  }

  ghost predicate ClosedNotLater(st: State, g: nat, h: nat) {
    && g < |st.handles| && h < |st.handles| && st.handles[g].closedAt.Some? && st.handles[h].closedAt.Some?
    && st.handles[g].closedAt.value <= st.handles[h].closedAt.value
  }

  lemma {:induction false} ReachableReferences(st: State, run: seq<Action>)
    requires References(st) && ValidRun(st, run)
    ensures References(Final(st, run))
    decreases |run|
  {
    if run != [] {
      KeepsReferences(st, run[0]);
      ReachableReferences(Apply(st, run[0]), run[1..]);
    }
  }

  lemma ChoiceKeepsLatest(st: State, i: nat, stale: set<string>)
    requires Enabled(st, Choose(i, stale)) && SeenTimes(st, st.ops[i].pc) && st.ops[i].pc.seen.Keys == st.ops[i].pc.from.Keys
    ensures var from, pc := st.ops[i].pc.from, DoChoose(st, i, stale).ops[i].pc;
            && (|from| <= st.closedLimit ==> pc.Ended?)
            && (|from| > st.closedLimit ==>
                  && pc.Removing? && pc.pruning && pc.ids.Keys <= from.Keys && |from.Keys - pc.ids.Keys| == st.closedLimit
                  && forall r, k :: r in pc.ids && k in from && k !in pc.ids ==> ClosedNotLater(st, from[r], from[k]))
  {
    var from, seen, pc := st.ops[i].pc.from, st.ops[i].pc.seen, DoChoose(st, i, stale).ops[i].pc;
    assert |from| == |from.Keys| && |seen| == |seen.Keys|;
    if |from| > st.closedLimit {
      assert pc.ids.Keys == stale;
    }
  }

  // ----- whom a creation counts

  /** At place c of the run the creation looked at this session and found it active and its owner's. */
  ghost predicate CountedActive(st: State, run: seq<Action>, i: nat, k: string, c: nat) {
    && c < |run| && run[c] == Count(i, k) && ValidRun(st, run[..c]) && Enabled(Final(st, run[..c]), run[c])
    && var here := Final(st, run[..c]);
       var h := here.handles[here.ops[i].pc.todo[k]];
       && h.active && here.ops[i].request.Create? && h.owner == here.ops[i].request.owner
  }

  lemma CountedLater(st: State, run: seq<Action>, n: nat, i: nat, k: string, c: nat)
    requires n <= |run| && CountedActive(st, run[..n], i, k, c)
    ensures CountedActive(st, run, i, k, c)
  {
    assert run[..n][..c] == run[..c];
  }

  lemma OnlyCountCounts(st: State, a: Action, i: nat)
    requires Enabled(st, a) && i < |st.ops| && i < |Apply(st, a).ops| && Apply(st, a).ops[i].pc.Counting?
    ensures st.ops[i].pc.Counting? || Apply(st, a).ops[i].pc.counted == {}
    ensures st.ops[i].pc.Counting? ==>
              forall k :: k in Apply(st, a).ops[i].pc.counted && k !in st.ops[i].pc.counted ==>
                && a == Count(i, k) && st.handles[st.ops[i].pc.todo[k]].active && st.ops[i].request.Create?
                && st.handles[st.ops[i].pc.todo[k]].owner == st.ops[i].request.owner
  {
    OthersStay(st, a, i);
    if i == a.i && a.Find? {
      FindCountsNothing(st, i);
    }
  }

  lemma FindCountsNothing(st: State, i: nat)
    requires Enabled(st, Find(i))
    ensures !DoFind(st, i).ops[i].pc.Counting?
  {
  }

  lemma {:induction false} CountedWasActive(st: State, run: seq<Action>, i: nat, k: string) returns (c: nat)
    requires Initial(st) && ValidRun(st, run)
    requires i < |Final(st, run).ops| && Final(st, run).ops[i].pc.Counting? && k in Final(st, run).ops[i].pc.counted
    ensures CountedActive(st, run, i, k, c)
    decreases |run|
  {
    var n := |run| - 1;
    LastStep(st, run);
    var last := Final(st, run[..n]);
    OthersStay(last, run[n], run[n].i);
    OnlyCountCounts(last, run[n], i);
    if k in last.ops[i].pc.counted {
      c := CountedWasActive(st, run[..n], i, k);
      CountedLater(st, run, n, i, k, c);
    } else {
      c := n;
    }
  }

  /** A creation is refused exactly if it counted as many active sessions of its owner as the cap allows. */
  lemma RefusedIffCountedCap(st: State, run: seq<Action>, i: nat)
    requires Initial(st) && ValidRun(st, run) && Enabled(Final(st, run), Decide(i))
    ensures i < |Final(st, run).ops| && Final(st, run).ops[i].pc.Counting?
    ensures Final(st, run).ops[i].request.Create? ==>
              (Apply(Final(st, run), Decide(i)).ops[i].pc.Ended? <==> |Final(st, run).ops[i].pc.counted| >= st.cap)
  {
    forall o ensures |SessionCap.ActiveMade(st, o)| <= st.cap {
      assert SessionCap.ActiveMade(st, o) == {};
    }
    SessionCap.CapReachable(st, run);
    assert SessionCap.CountCovers(Final(st, run), Final(st, run).ops[i]);
  }

  // ----- what an operation goes through

  /** The look-up refuses an id that is absent or another owner's, and else goes on with the handle it found. */
  lemma FindGoesOnIff(st: State, i: nat)
    requires Enabled(st, Find(i)) && !st.ops[i].request.DeleteOwners?
    ensures var request, pc := st.ops[i].request, Apply(st, Find(i)).ops[i].pc;
            var found := request.id in st.sessions && st.handles[st.sessions[request.id]].owner == request.owner;
            && (!found ==> pc.Ended?)
            && (found && request.Close? ==> pc == Closing(st.sessions[request.id]))
            && (found && request.Delete? ==> pc == Marking(map[request.id := st.sessions[request.id]], map[]))
            && (found && request.Discard? ==> pc == Removing(map[request.id := st.sessions[request.id]], false))
  {
  }

  /** Deleting for owners goes on with exactly their sessions, if any owner is named. */
  lemma FindsAllOfOwners(st: State, i: nat)
    requires Enabled(st, Find(i)) && st.ops[i].request.DeleteOwners?
    ensures var owners, pc := st.ops[i].request.owners, Apply(st, Find(i)).ops[i].pc;
            if owners == {} then pc.Ended?
            else
              && pc.Marking? && pc.marked == map[]
              && (forall k :: k in pc.todo <==> k in st.sessions && st.handles[st.sessions[k]].owner in owners)
              && (forall k :: k in pc.todo ==> pc.todo[k] == st.sessions[k])
  {
  }

  /** Each request has its own stages; only a close prunes, and it removes nothing else. */
  predicate StageFits(op: Op) {
    match op.request
    case Create(_) => op.pc.Start? || op.pc.Locked? || op.pc.Counting? || op.pc.Inserting? || op.pc.Ended?
    case Restore(_, _, _) => op.pc.Start? || op.pc.Ended?
    case Close(_, _) =>
      op.pc.Start? || op.pc.Closing? || op.pc.Pruning? || op.pc.Reading? || (op.pc.Removing? && op.pc.pruning) || op.pc.Ended?
    case Discard(_, _) => op.pc.Start? || (op.pc.Removing? && !op.pc.pruning) || op.pc.Ended?
    case _ => op.pc.Start? || op.pc.Marking? || (op.pc.Removing? && !op.pc.pruning) || op.pc.Ended?
  }

  lemma FindFits(st: State, i: nat)
    requires Enabled(st, Find(i))
    ensures StageFits(DoFind(st, i).ops[i])
  {
  }

  lemma StepKeepsStage(st: State, a: Action, k: nat)
    requires Enabled(st, a) && k < |st.ops| && StageFits(st.ops[k])
    ensures k < |Apply(st, a).ops| && StageFits(Apply(st, a).ops[k])
  {
    OthersStay(st, a, k);
    if k == a.i && a.Find? {
      FindFits(st, k);
    }
  }

  lemma {:induction false} StagesFit(st: State, run: seq<Action>, k: nat)
    requires ValidRun(st, run) && k < |st.ops| && StageFits(st.ops[k])
    ensures k < |Final(st, run).ops| && StageFits(Final(st, run).ops[k])
    decreases |run|
  {
    if run != [] {
      StepKeepsStage(st, run[0], k);
      StagesFit(Apply(st, run[0]), run[1..], k);
    }
  }
}
