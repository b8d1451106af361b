/** Calls on one session of adapter.rs racing its retirement, as small steps of
    any number of threads under sequential consistency. A schedule picks which
    thread moves next, so a statement about every schedule is one about every
    interleaving. */
module SessionThreads {
  import opened Basics

  type Thread = nat

  /** Where a thread stands in `Session::answer` or in a close or abandon. */
  datatype Pc =
    | Idle        // no call of its own, or one that has returned
    | Found       // holds the session, before the first read of `retired`
    | Waiting     // read `retired` as false, before the engine lock
    | Locked      // holds the engine lock, before reading `retired` again
    | Checked     // read `retired` as false under the lock
    | Invoking    // inside the engine
    | Removed     // took the session out of the table, before storing `retired`
    | Stored      // stored `retired`, before trying the engine lock
    | Releasing   // holds the engine lock to drop the engine

  datatype State = State(
    inTable: bool, retired: bool, engine: bool, lock: Option<Thread>,
    pcs: map<Thread, Pc>,
    invoked: seq<Thread>,    // calls that entered the engine, in order
    answered: seq<Thread>)   // calls that came back from it, in order

  const OPENED := State(true, false, true, None, map[], [], [])

  datatype Move = Call | Retire | Advance

  function PcOf(s: State, t: Thread): Pc {
    if t in s.pcs then s.pcs[t] else Idle
  }

  /** Where a thread's move takes it. A move it cannot make, such as taking a held
      lock, leaves it where it is. */
  function Next(s: State, pc: Pc, move: Move): Pc {
    match (pc, move)
    case (Idle, Call) => if s.inTable then Found else pc
    case (Idle, Retire) => if s.inTable then Removed else pc
    case (Found, Advance) => if s.retired then Idle else Waiting
    case (Waiting, Advance) => if s.lock.None? then Locked else pc
    case (Locked, Advance) => if s.retired then Idle else Checked
    case (Checked, Advance) => if s.engine then Invoking else Idle
    case (Invoking, Advance) => Idle
    case (Removed, Advance) => Stored
    case (Stored, Advance) => if s.lock.None? then Releasing else Idle
    case (Releasing, Advance) => Idle
    case _ => pc
  }

  /** What a thread does to the session by moving from one place to another. */
  function Effect(s: State, t: Thread, from: Pc, to: Pc): State {
    match (from, to)
    case (Idle, Removed) => s.(inTable := false)
    case (Waiting, Locked) => s.(lock := Some(t))
    case (Locked, Idle) => s.(lock := None)
    case (Checked, Invoking) => s.(invoked := s.invoked + [t])
    case (Checked, Idle) => s.(lock := None)
    case (Invoking, Idle) => s.(lock := None, answered := s.answered + [t])
    case (Removed, Stored) => s.(retired := true)
    case (Stored, Releasing) => s.(lock := Some(t))
    case (Releasing, Idle) => s.(lock := None, engine := false)
    case _ => s
  }

  /** One atomic step. */
  function Step(s: State, t: Thread, move: Move): State {
    var from := PcOf(s, t);
    var to := Next(s, from, move);
    if from == to then s else Effect(s, t, from, to).(pcs := s.pcs[t := to])
  }

  datatype Turn = Turn(thread: Thread, move: Move)

  function Run(s: State, schedule: seq<Turn>): State {
    if schedule == [] then s
    else
      var last := schedule[|schedule| - 1];
      Step(Run(s, schedule[..|schedule| - 1]), last.thread, last.move)
  }

  predicate HoldsLock(pc: Pc) {
    pc == Locked || pc == Checked || pc == Invoking || pc == Releasing
  }

  predicate IsRetiring(pc: Pc) {
    pc == Removed || pc == Stored || pc == Releasing
  }

  /** The call has read `retired` as false under the lock. */
  predicate PastCheck(s: State, t: Thread) {
    PcOf(s, t) == Checked || PcOf(s, t) == Invoking
  }

  /** The engine lock excludes, and a thread past the check has its engine. */
  ghost predicate LockInv(s: State) {
    && (forall t: Thread :: HoldsLock(PcOf(s, t)) <==> s.lock == Some(t))
    && (forall t: Thread :: PastCheck(s, t) ==> s.engine)
    && (!s.engine ==> s.retired)
  }

  /** One thread at most retires the session, from taking it out of the table to
      dropping its engine, and `retired` is stored in between. */
  ghost predicate RetireInv(s: State) {
    && (s.retired ==> !s.inTable)
    && (forall t: Thread :: IsRetiring(PcOf(s, t)) ==> !s.inTable && s.engine)
    && (forall t: Thread, u: Thread :: IsRetiring(PcOf(s, t)) && IsRetiring(PcOf(s, u)) ==> t == u)
    && (forall t: Thread :: IsRetiring(PcOf(s, t)) ==> (s.retired <==> PcOf(s, t) != Removed))
  }

  ghost predicate Inv(s: State) {
    LockInv(s) && RetireInv(s)
  }

  lemma StepMoves(s: State, t: Thread, move: Move)
    ensures var s', from := Step(s, t, move), PcOf(s, t);
            && PcOf(s', t) == Next(s, from, move)
            && s' == Effect(s, t, from, PcOf(s', t)).(pcs := s'.pcs)
    ensures forall u: Thread :: u != t ==> PcOf(Step(s, t, move), u) == PcOf(s, u)
  {
  }

  lemma OthersStay(s: State, t: Thread, move: Move)
    ensures forall u: Thread :: u != t ==> PcOf(Step(s, t, move), u) == PcOf(s, u)
  {
    hide Step;
    StepMoves(s, t, move);
  }

  /** What the moving thread's own step does to the lock. */
  lemma OwnLock(s: State, t: Thread, move: Move)
    requires HoldsLock(PcOf(s, t)) <==> s.lock == Some(t)
    ensures var s' := Step(s, t, move);
            && (HoldsLock(PcOf(s', t)) <==> s'.lock == Some(t))
            && (s'.lock == s.lock || s'.lock == Some(t) || (s.lock == Some(t) && s'.lock == None))
            && (s'.lock != s.lock && s'.lock == Some(t) ==> s.lock == None)
  {
    hide Step, PcOf;
    StepMoves(s, t, move);
  }

  /** What it does to the engine. */
  lemma OwnEngine(s: State, t: Thread, move: Move)
    ensures var s' := Step(s, t, move);
            && (s'.engine == s.engine || (PcOf(s, t) == Releasing && PcOf(s', t) == Idle))
            && (PastCheck(s', t) ==> s'.engine == s.engine && (PastCheck(s, t) || !s.retired))
  {
    hide Step, PcOf;
    StepMoves(s, t, move);
  }

  lemma OneWay(s: State, t: Thread, move: Move)
    ensures var s' := Step(s, t, move);
            (s.retired ==> s'.retired) && (s'.inTable ==> s.inTable)
  {
    hide Step, PcOf;
    StepMoves(s, t, move);
  }

  lemma StepKeepsLockInv(s: State, t: Thread, move: Move)
    requires Inv(s)
    ensures LockInv(Step(s, t, move))
  {
    assert HoldsLock(PcOf(s, t)) <==> s.lock == Some(t);
    OthersStay(s, t, move);
    OwnLock(s, t, move);
    OwnEngine(s, t, move);
    OneWay(s, t, move);
    hide Step, PcOf;
    var s' := Step(s, t, move);
    assert IsRetiring(PcOf(s, t)) ==> (s.retired <==> PcOf(s, t) != Removed);
    forall u: Thread
      ensures HoldsLock(PcOf(s', u)) <==> s'.lock == Some(u)
      ensures PastCheck(s', u) ==> s'.engine
    {
      assert HoldsLock(PcOf(s, u)) <==> s.lock == Some(u);
      assert PastCheck(s, u) ==> s.engine;
    }
  }

  lemma StepKeepsRetireInv(s: State, t: Thread, move: Move)
    requires Inv(s)
    ensures RetireInv(Step(s, t, move))
  {
    hide Step, PcOf;
    StepMoves(s, t, move);
  }

  lemma StepKeepsInv(s: State, t: Thread, move: Move)
    requires Inv(s)
    ensures Inv(Step(s, t, move))
  {
    StepKeepsLockInv(s, t, move);
    StepKeepsRetireInv(s, t, move);
  }

  lemma {:induction false} RunKeepsInv(schedule: seq<Turn>)
    ensures Inv(Run(OPENED, schedule))
  {
    if schedule != [] {
      RunKeepsInv(schedule[..|schedule| - 1]);
      var last := schedule[|schedule| - 1];
      StepKeepsInv(Run(OPENED, schedule[..|schedule| - 1]), last.thread, last.move);
    }
  }

  /** In every interleaving: a thread past the check holds the engine lock, no
      other thread is past it, and the engine it is about to use or is using has
      not been released. */
  lemma OneCallerUnderTheLock(schedule: seq<Turn>, t: Thread)
    requires PastCheck(Run(OPENED, schedule), t)
    ensures var s := Run(OPENED, schedule);
            && s.lock == Some(t) && s.engine
            && forall u: Thread :: PastCheck(s, u) ==> u == t
  {
    RunKeepsInv(schedule);
    var s := Run(OPENED, schedule);
    forall u: Thread | PastCheck(s, u) ensures u == t {
      assert HoldsLock(PcOf(s, u)) && HoldsLock(PcOf(s, t));
    }
  }

  /** Entering the engine takes the second read of `retired` under the lock, and
      only a call inside the engine comes back from it. */
  lemma EntersOnlyPastTheCheck(s: State, t: Thread, move: Move)
    ensures var s' := Step(s, t, move);
            && (s'.invoked == s.invoked || (PcOf(s, t) == Checked && PcOf(s', t) == Invoking && s.engine
                                            && s'.invoked == s.invoked + [t]))
            && (s'.answered == s.answered || (PcOf(s, t) == Invoking && PcOf(s', t) == Idle
                                              && s'.answered == s.answered + [t]))
            && (PcOf(s', t) == Invoking ==> PastCheck(s, t))
            && (PcOf(s', t) == Checked ==> PcOf(s, t) == Checked || (PcOf(s, t) == Locked && !s.retired))
            && (s.retired ==> s'.retired) && (s'.inTable ==> s.inTable)
  {
    hide Step, PcOf;
    StepMoves(s, t, move);
  }

  /** What a retired session's later state may differ by: the call that was past
      the check when `retired` was stored may enter the engine and come back. */
  ghost predicate OnlyStragglers(s: State, s': State) {
    && s'.retired && !s'.inTable
    && (forall t: Thread :: PastCheck(s', t) ==> PastCheck(s, t) && s'.answered == s.answered)
    && (forall t: Thread :: PcOf(s', t) == Checked ==> PcOf(s, t) == Checked && s'.invoked == s.invoked)
    && (s'.invoked == s.invoked
        || exists t: Thread :: PcOf(s, t) == Checked && s'.invoked == s.invoked + [t])
    && (s'.answered == s.answered
        || exists t: Thread :: PastCheck(s, t) && s'.answered == s.answered + [t])
  }

  /** After `retired` is stored, in every interleaving, no call enters or leaves
      the engine but one that was past the check by then, and it only once. */
  lemma {:induction false} AfterRetirement(schedule: seq<Turn>, later: seq<Turn>)
    requires Run(OPENED, schedule).retired
    ensures OnlyStragglers(Run(OPENED, schedule), Run(Run(OPENED, schedule), later))
    ensures Inv(Run(Run(OPENED, schedule), later))
  {
    var s := Run(OPENED, schedule);
    if later == [] {
      RunKeepsInv(schedule);
    } else {
      var front, last := later[..|later| - 1], later[|later| - 1];
      AfterRetirement(schedule, front);
      hide Step, Inv;
      StepKeepsInv(Run(s, front), last.thread, last.move);
      OneMoreStep(s, Run(s, front), last.thread, last.move);
    }
  }

  lemma OneMoreStep(s: State, m: State, t: Thread, move: Move)
    requires Inv(m) && OnlyStragglers(s, m)
    ensures OnlyStragglers(s, Step(m, t, move))
  {
    OthersStay(m, t, move);
    EntersOnlyPastTheCheck(m, t, move);
    hide Step, PcOf, RetireInv, Next, Effect;
    var s' := Step(m, t, move);
    assert HoldsLock(PcOf(m, t)) <==> m.lock == Some(t);
    forall u: Thread | PastCheck(s', u)
      ensures PastCheck(m, u) && s'.answered == m.answered
      ensures PcOf(s', u) == Checked ==> PcOf(m, u) == Checked && s'.invoked == m.invoked
    {
      assert HoldsLock(PcOf(m, u)) <==> m.lock == Some(u);
    }
    assert s'.invoked == m.invoked || (PcOf(s, t) == Checked && s'.invoked == s.invoked + [t]);
    assert s'.answered == m.answered || (PastCheck(s, t) && s'.answered == s.answered + [t]) by {
      assert PcOf(m, t) == Invoking ==> PastCheck(m, t);
    }
  }

  /** Somebody holds the session: the table, or a call or a retirement. */
  ghost predicate Reachable(s: State) {
    s.inTable || exists t: Thread :: PcOf(s, t) != Idle
  }

  /** The engine exists while it has not been dropped and somebody holds the session:
      where a retirement finds it in use, the last holder to let go drops it. */
  ghost predicate EngineExists(s: State) {
    s.engine && Reachable(s)
  }

  lemma StaysReleased(s: State, t: Thread, move: Move)
    requires !EngineExists(s)
    ensures !EngineExists(Step(s, t, move)) && Step(s, t, move).invoked == s.invoked
  {
    if s.engine {
      assert PcOf(s, t) == Idle;
    } else {
      OwnEngine(s, t, move);
      EntersOnlyPastTheCheck(s, t, move);
    }
  }

  /** Whoever released the engine, it stays released, and no call enters it again. */
  lemma {:induction false} ReleasedForGood(s: State, later: seq<Turn>)
    requires !EngineExists(s)
    ensures !EngineExists(Run(s, later)) && Run(s, later).invoked == s.invoked
  {
    hide Step, EngineExists;
    if later != [] {
      var front, last := later[..|later| - 1], later[|later| - 1];
      ReleasedForGood(s, front);
      StaysReleased(Run(s, front), last.thread, last.move);
    }
  }

  /** In every interleaving the engine exists while a call is past the check, and is
      gone once the session is retired and every call and retirement has returned. */
  lemma EngineOutlivesCalls(schedule: seq<Turn>)
    ensures
      var s := Run(OPENED, schedule);
      && (forall t: Thread :: PastCheck(s, t) ==> EngineExists(s))
      && (s.retired && (forall t: Thread :: PcOf(s, t) == Idle) ==> !EngineExists(s))
  {
    RunKeepsInv(schedule);
  }

  // ---- Every call and every retirement comes to its end ----

  predicate InCall(pc: Pc) {
    pc == Found || pc == Waiting || pc == Locked || pc == Checked || pc == Invoking
  }

  /** A call ends without the engine's answer only on a session already retired, and a
      retirement ends with the engine still there only where somebody is using it. */
  lemma ReturnsTellWhy(schedule: seq<Turn>, t: Thread, move: Move)
    ensures
      var s, s' := Run(OPENED, schedule), Step(Run(OPENED, schedule), t, move);
      PcOf(s, t) != Idle && PcOf(s', t) == Idle ==>
        && (InCall(PcOf(s, t)) && PcOf(s, t) != Invoking ==> s.retired && PcOf(s, t) != Checked)
        && (PcOf(s, t) == Invoking ==> s'.answered == s.answered + [t])
        && (IsRetiring(PcOf(s, t)) ==> s'.retired && (s'.engine ==> s'.lock.Some?))
  {
    var s := Run(OPENED, schedule);
    RunKeepsInv(schedule);
    assert PastCheck(s, t) ==> s.engine;
    assert IsRetiring(PcOf(s, t)) ==> (s.retired <==> PcOf(s, t) != Removed);
    hide Run, Step, PcOf, Inv;
    StepMoves(s, t, move);
  }

  /** The logs grow by exactly the thread that enters the engine, and the one that
      comes back from it. */
  lemma LogsAreExact(s: State, t: Thread, move: Move)
    ensures
      var s' := Step(s, t, move);
      var before, after := PcOf(s, t), PcOf(s', t);
      && s'.invoked == (if before != Invoking && after == Invoking then s.invoked + [t] else s.invoked)
      && s'.answered == (if before == Invoking && after != Invoking then s.answered + [t] else s.answered)
  {
    hide Step, PcOf;
    StepMoves(s, t, move);
  }

  /** The steps a thread still has to make, if nobody interferes. */
  function StepsLeft(pc: Pc): nat {
    match pc
    case Idle => 0
    case Found => 5
    case Waiting => 4
    case Locked => 3
    case Checked => 2
    case Invoking => 1
    case Removed => 3
    case Stored => 2
    case Releasing => 1
  }

  /** In every reached state a thread on its way comes nearer its end with each of its
      steps, unless it waits for a lock that another thread holds; and that thread is
      never waiting itself. So somebody can always move, and nobody goes round. */
  lemma NothingSticks(schedule: seq<Turn>, t: Thread)
    requires PcOf(Run(OPENED, schedule), t) != Idle
    ensures
      var s := Run(OPENED, schedule);
      var s' := Step(s, t, Advance);
      if PcOf(s, t) == Waiting && s.lock.Some? then s' == s && s.lock.value != t && HoldsLock(PcOf(s, s.lock.value))
      else StepsLeft(PcOf(s', t)) < StepsLeft(PcOf(s, t))
    ensures forall move, u: Thread :: u != t ==>
      PcOf(Step(Run(OPENED, schedule), u, move), t) == PcOf(Run(OPENED, schedule), t)
  {
    var s := Run(OPENED, schedule);
    RunKeepsInv(schedule);
    forall move, u: Thread | u != t ensures PcOf(Step(s, u, move), t) == PcOf(s, t) {
      StepMoves(s, u, move);
    }
    StepMoves(s, t, Advance);
    if s.lock.Some? {
      assert HoldsLock(PcOf(s, s.lock.value)) <==> s.lock == Some(s.lock.value);
    }
    hide Run, PcOf, Inv;
    assert PcOf(s, t) == Waiting && s.lock.Some? ==> Step(s, t, Advance) == s;
  }

  lemma Moved(s: State, t: Thread, move: Move, to: Pc)
    requires PcOf(s, t) != to == Next(s, PcOf(s, t), move)
    ensures Step(s, t, move) == Effect(s, t, PcOf(s, t), to).(pcs := s.pcs[t := to])
  {
  }

  lemma RunOfParts(s: State, a: seq<Turn>, turn: Turn)
    ensures Run(s, a + [turn]) == Step(Run(s, a), turn.thread, turn.move)
    ensures Run(s, []) == s
  {
    assert (a + [turn])[..|a|] == a;
  }

  /** The way into the lock. */
  lemma CallTakesLock(s: State, t: Thread)
    requires s.inTable && !s.retired && s.lock.None? && PcOf(s, t) == Idle
    ensures
      var go := Turn(t, Advance);
      Run(s, [Turn(t, Call), go, go]) == s.(pcs := s.pcs[t := Locked], lock := Some(t))
  {
    hide Run, Step;
    var call, go := Turn(t, Call), Turn(t, Advance);
    RunOfParts(s, [], call);
    RunOfParts(s, [call], go);
    RunOfParts(s, [call, go], go);
    assert [] + [call] == [call] && [call] + [go] == [call, go] && [call, go] + [go] == [call, go, go];
    var found := s.(pcs := s.pcs[t := Found]);
    Moved(s, t, Call, Found);
    Moved(found, t, Advance, Waiting);
    var waiting := found.(pcs := found.pcs[t := Waiting]);
    Moved(waiting, t, Advance, Locked);
    assert waiting.pcs[t := Locked] == s.pcs[t := Locked];
  }

  /** The way through the engine and out of it. */
  lemma CallUsesEngine(s: State, t: Thread)
    requires !s.retired && s.engine && PcOf(s, t) == Locked
    ensures
      var go := Turn(t, Advance);
      Run(s, [go, go, go]) ==
      s.(pcs := s.pcs[t := Idle], lock := None, invoked := s.invoked + [t], answered := s.answered + [t])
  {
    hide Run, Step;
    var go := Turn(t, Advance);
    RunOfParts(s, [], go);
    RunOfParts(s, [go], go);
    RunOfParts(s, [go, go], go);
    assert [] + [go] == [go] && [go] + [go] == [go, go] && [go, go] + [go] == [go, go, go];
    var checked := s.(pcs := s.pcs[t := Checked]);
    Moved(s, t, Advance, Checked);
    Moved(checked, t, Advance, Invoking);
    var invoking := checked.(pcs := checked.pcs[t := Invoking], invoked := s.invoked + [t]);
    Moved(invoking, t, Advance, Idle);
    assert invoking.pcs[t := Idle] == s.pcs[t := Idle];
  }

  lemma {:induction false} RunConcat(s: State, a: seq<Turn>, b: seq<Turn>)
    ensures Run(s, a + b) == Run(Run(s, a), b)
  {
    hide Step;
    if b == [] {
      assert a + b == a;
    } else {
      var front := b[..|b| - 1];
      RunConcat(s, a, front);
      assert (a + b)[..|a + b| - 1] == a + front;
    }
  }

  lemma UndisturbedCall(s: State, t: Thread)
    requires s.inTable && !s.retired && s.engine && s.lock.None? && PcOf(s, t) == Idle
    ensures
      var go := Turn(t, Advance);
      Run(s, [Turn(t, Call), go, go, go, go, go]) ==
      s.(pcs := s.pcs[t := Idle], invoked := s.invoked + [t], answered := s.answered + [t])
  {
    hide Run, Step;
    var call, go := Turn(t, Call), Turn(t, Advance);
    CallTakesLock(s, t);
    var locked := s.(pcs := s.pcs[t := Locked], lock := Some(t));
    CallUsesEngine(locked, t);
    RunConcat(s, [call, go, go], [go, go, go]);
    assert [call, go, go] + [go, go, go] == [call, go, go, go, go, go];
    assert locked.pcs[t := Idle] == s.pcs[t := Idle];
  }

  /** In every reached state a call finds the session exactly while it is in the
      table, and one that is not interfered with enters the engine once, comes back
      once, and leaves everything else as it was. */
  lemma CallCompletes(schedule: seq<Turn>, t: Thread)
    requires PcOf(Run(OPENED, schedule), t) == Idle
    ensures
      var s, go := Run(OPENED, schedule), Turn(t, Advance);
      && (InCall(PcOf(Step(s, t, Call), t)) <==> s.inTable)
      && (!s.inTable ==> Step(s, t, Call) == s)
      && (s.inTable && s.lock.None? ==>
            Run(s, [Turn(t, Call), go, go, go, go, go]) ==
            s.(pcs := s.pcs[t := Idle], invoked := s.invoked + [t], answered := s.answered + [t]))
  {
    hide Run;
    var s := Run(OPENED, schedule);
    RunKeepsInv(schedule);
    if s.inTable && s.lock.None? {
      UndisturbedCall(s, t);
    }
  }

  lemma StoredDropsEngine(s: State, t: Thread)
    requires PcOf(s, t) == Stored && s.lock.None?
    ensures
      var go := Turn(t, Advance);
      Run(s, [go, go]) == s.(pcs := s.pcs[t := Idle], engine := false)
  {
    hide Run, Step;
    var go := Turn(t, Advance);
    RunOfParts(s, [], go);
    RunOfParts(s, [go], go);
    assert [] + [go] == [go] && [go] + [go] == [go, go];
    Moved(s, t, Advance, Releasing);
    var releasing := s.(pcs := s.pcs[t := Releasing], lock := Some(t));
    Moved(releasing, t, Advance, Idle);
    assert releasing.pcs[t := Idle] == s.pcs[t := Idle];
  }

  lemma UndisturbedRetirement(s: State, t: Thread)
    requires s.inTable && s.lock.None? && PcOf(s, t) == Idle
    ensures
      var go := Turn(t, Advance);
      Run(s, [Turn(t, Retire), go, go, go]) ==
      s.(pcs := s.pcs[t := Idle], inTable := false, retired := true, engine := false)
  {
    hide Run, Step;
    var retire, go := Turn(t, Retire), Turn(t, Advance);
    RunOfParts(s, [], retire);
    RunOfParts(s, [retire], go);
    assert [] + [retire] == [retire] && [retire] + [go] == [retire, go];
    Moved(s, t, Retire, Removed);
    var removed := s.(pcs := s.pcs[t := Removed], inTable := false);
    Moved(removed, t, Advance, Stored);
    var stored := removed.(pcs := removed.pcs[t := Stored], retired := true);
    StoredDropsEngine(stored, t);
    RunConcat(s, [retire, go], [go, go]);
    assert [retire, go] + [go, go] == [retire, go, go, go];
    assert stored.pcs[t := Idle] == s.pcs[t := Idle];
  }

  /** In every reached state a retirement that has stored its flag and finds the lock
      free drops the engine; so does one that is not interfered with from its start. */
  lemma RetirementCompletes(schedule: seq<Turn>, t: Thread)
    requires Run(OPENED, schedule).lock.None?
    ensures
      var s, go := Run(OPENED, schedule), Turn(t, Advance);
      && (PcOf(s, t) == Stored ==> Run(s, [go, go]) == s.(pcs := s.pcs[t := Idle], engine := false))
      && (PcOf(s, t) == Idle && s.inTable ==>
            Run(s, [Turn(t, Retire), go, go, go]) ==
            s.(pcs := s.pcs[t := Idle], inTable := false, retired := true, engine := false))
  {
    hide Run;
    var s := Run(OPENED, schedule);
    if PcOf(s, t) == Stored {
      StoredDropsEngine(s, t);
    } else if PcOf(s, t) == Idle && s.inTable {
      UndisturbedRetirement(s, t);
    }
  }

  /** How many calls a thread has begun. */
  function Begun(schedule: seq<Turn>, t: Thread): nat {
    if schedule == [] then 0
    else
      var front := schedule[..|schedule| - 1];
      Begun(front, t)
      + if PcOf(Run(OPENED, front), t) == Idle && InCall(PcOf(Run(OPENED, schedule), t)) then 1 else 0
  }

  function Times(log: seq<Thread>, t: Thread): nat {
    multiset(log)[t]
  }

  /** In every interleaving: until the session is retired every call begun has been
      answered, unless it is still on its way; and never is a call answered that was
      not begun. */
  lemma {:induction false} EveryCallIsAnswered(schedule: seq<Turn>, t: Thread)
    ensures
      var s := Run(OPENED, schedule);
      var due := Times(s.answered, t) + if InCall(PcOf(s, t)) then 1 else 0;
      due <= Begun(schedule, t) && (!s.retired ==> due == Begun(schedule, t))
  {
    if schedule != [] {
      var front, last := schedule[..|schedule| - 1], schedule[|schedule| - 1];
      EveryCallIsAnswered(front, t);
      var m := Run(OPENED, front);
      ReturnsTellWhy(front, last.thread, last.move);
      LogsAreExact(m, last.thread, last.move);
      OneWay(m, last.thread, last.move);
      OthersStay(m, last.thread, last.move);
      CallsBegin(m, last.thread, last.move);
      hide Step, PcOf;
      assert Run(OPENED, schedule) == Step(m, last.thread, last.move);
    }
  }

  /** A thread comes into a call only from Idle, and leaves it only for Idle. */
  lemma CallsBegin(s: State, t: Thread, move: Move)
    ensures
      var before, after := PcOf(s, t), PcOf(Step(s, t, move), t);
      && (InCall(after) ==> before == Idle || InCall(before))
      && (InCall(before) ==> after == Idle || InCall(after))
      && (after == Invoking && before != Invoking ==> before == Checked)
      && (before == Invoking ==> after == Idle || after == Invoking)
  {
    hide Step, PcOf;
    StepMoves(s, t, move);
  }
}
