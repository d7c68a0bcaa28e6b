/** Operations on backend sessions and forgets always come to an end. */
module SessionProgress {
  import opened SessionLocks

  // ----- no deadlock

  predicate ByOp(a: Action, o: nat) {
    !a.DropUpstream? && !a.DropLock? && a.o == o
  }

  /** Operation o has a step to take other than failing. */
  ghost predicate CanGoOn(st: State, o: nat) {
    exists a :: Enabled(st, a) && ByOp(a, o) && !a.Fail?
  }

  /** What an operation that is neither queued nor ended does next. */
  function NextOf(pc: OpPc, o: nat): Action
    requires !pc.Queued? && !pc.Ended?
  {
    match pc
    case LookingUp => LookUp(o)
    case ReadingCache => ReadCache(o)
    case Loading(_) => Load(o, true)
    case Deciding(_, _) => Decide(o)
    case Creating => Create(o, "")
    case Inserting(_) => Insert(o)
    case Using(_) => Finish(o)
  }

  /** An operation that has not ended can go on itself, or is queued behind one that holds its lock and can. */
  lemma GoesOnOrWaits(st: State, o: nat)
    requires o < |st.ops| && !st.ops[o].pc.Ended?
    ensures CanGoOn(st, o) ||
              (st.ops[o].pc.Queued? && exists j: nat ::
                 j < |st.ops| && Running(st.ops[j].pc) && st.ops[j].lock == st.ops[o].lock && CanGoOn(st, j))
  {
    var op := st.ops[o];
    if !op.pc.Queued? {
      assert Enabled(st, NextOf(op.pc, o));
    } else if LockFree(st, op.lock) {
      assert Enabled(st, Acquire(o));
    } else {
      var j :| 0 <= j < |st.ops| && Running(st.ops[j].pc) && st.ops[j].lock == op.lock;
      assert Enabled(st, NextOf(st.ops[j].pc, j));
      assert CanGoOn(st, j);
    }
  }

  // ----- a bound on every run

  function OpWeight(op: Op): nat {
    match op.pc
    case LookingUp => 8
    case Queued => 7
    case ReadingCache => 6
    case Loading(_) => 5
    case Deciding(_, _) => 4
    case Creating => 3
    case Inserting(_) => 2
    case Using(_) => 1
    case Ended => 0
  }

  function ForgetWeight(f: Forget): nat {
    match f.pc
    case DroppingUpstream => 2
    case DroppingLock => 1
    case Forgotten => 0
  }

  function OpWork(ops: seq<Op>): nat {
    if ops == [] then 0 else OpWeight(ops[0]) + OpWork(ops[1..])
  }

  function ForgetWork(forgets: seq<Forget>): nat {
    if forgets == [] then 0 else ForgetWeight(forgets[0]) + ForgetWork(forgets[1..])
  }

  function Work(st: State): nat {
    OpWork(st.ops) + ForgetWork(st.forgets)
  }

  lemma {:induction false} UpdateOpWork(ops: seq<Op>, i: nat, op: Op)
    requires i < |ops|
    ensures OpWork(ops[i := op]) == OpWork(ops) - OpWeight(ops[i]) + OpWeight(op)
  {
    if i == 0 {
      assert ops[i := op][1..] == ops[1..];
    } else {
      assert ops[i := op][1..] == ops[1..][i - 1 := op];
      UpdateOpWork(ops[1..], i - 1, op);
    }
  }

  lemma {:induction false} UpdateForgetWork(forgets: seq<Forget>, i: nat, f: Forget)
    requires i < |forgets|
    ensures ForgetWork(forgets[i := f]) == ForgetWork(forgets) - ForgetWeight(forgets[i]) + ForgetWeight(f)
  {
    if i == 0 {
      assert forgets[i := f][1..] == forgets[1..];
    } else {
      assert forgets[i := f][1..] == forgets[1..][i - 1 := f];
      UpdateForgetWork(forgets[1..], i - 1, f);
    }
  }

  /** A step changes its own operation only, and brings it nearer to its end. */
  lemma OpMoves(st: State, a: Action)
    requires Enabled(st, a) && !a.DropUpstream? && !a.DropLock?
    ensures var next := Apply(st, a);
            && |next.ops| == |st.ops| && next.ops == st.ops[a.o := next.ops[a.o]] && next.forgets == st.forgets
            && OpWeight(next.ops[a.o]) < OpWeight(st.ops[a.o])
  {
  }

  lemma StepDecreasesWork(st: State, a: Action)
    requires Enabled(st, a)
    ensures Work(Apply(st, a)) < Work(st)
  {
    var next := Apply(st, a);
    if a.DropUpstream? || a.DropLock? {
      UpdateForgetWork(st.forgets, a.f, next.forgets[a.f]);
    } else {
      OpMoves(st, a);
      UpdateOpWork(st.ops, a.o, next.ops[a.o]);
    }
  }

  lemma {:induction false} RunIsBounded(st: State, run: seq<Action>)
    requires ValidRun(st, run)
    ensures |run| + Work(Final(st, run)) <= Work(st)
    decreases |run|
  {
    if run != [] {
      StepDecreasesWork(st, run[0]);
      RunIsBounded(Apply(st, run[0]), run[1..]);
    }
  }

  lemma {:induction false} InitialWork(ops: seq<Op>, forgets: seq<Forget>)
    requires forall i :: 0 <= i < |ops| ==> ops[i].pc == LookingUp
    requires forall f :: 0 <= f < |forgets| ==> forgets[f].pc == DroppingUpstream
    ensures OpWork(ops) == 8 * |ops| && ForgetWork(forgets) == 2 * |forgets|
    decreases |ops| + |forgets|
  {
    if ops != [] {
      InitialWork(ops[1..], forgets);
    } else if forgets != [] {
      InitialWork(ops, forgets[1..]);
    }
  }

  /** No schedule runs for ever. */
  lemma EveryRunIsFinite(st: State, run: seq<Action>)
    requires Initial(st) && ValidRun(st, run)
    ensures |run| <= 8 * |st.ops| + 2 * |st.forgets|
  {
    RunIsBounded(st, run);
    InitialWork(st.ops, st.forgets);
  }

  /** A state without a next step has ended every operation and every forget. */
  lemma MaximalRunsEnd(st: State)
    requires forall a :: !Enabled(st, a)
    ensures forall i :: 0 <= i < |st.ops| ==> st.ops[i].pc.Ended?
    ensures forall f :: 0 <= f < |st.forgets| ==> st.forgets[f].pc.Forgotten?
  {
    forall i | 0 <= i < |st.ops| ensures st.ops[i].pc.Ended? {
      if !st.ops[i].pc.Ended? {
        GoesOnOrWaits(st, i);
        assert false;
      }
    }
    forall f | 0 <= f < |st.forgets| ensures st.forgets[f].pc.Forgotten? {
      assert !Enabled(st, DropUpstream(f)) && !Enabled(st, DropLock(f));
    }
  }
}
