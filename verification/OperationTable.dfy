/** The table of cancellable Git operations (android_git.rs), on values. Every call
    on it takes the same lock, so an interleaving of calls is a sequence of them.

    Guards and flags are numbered in the order they were handed out: the `k`-th
    guard holds the `k`-th flag. */
module OperationTable {
  import opened Basics

  const MAX_ACTIVE_OPERATIONS := 8

  /** The flag each active operation is mapped to, the flags handed out so far, and
      the operation of each guard still held. */
  datatype Table = Table(active: map<int, nat>, flags: seq<bool>, guards: map<nat, int>)

  datatype Refusal = OperationConflict | OperationsExhausted

  datatype Call = Begin(operation: int) | Cancel(operation: int) | Drop(guard: nat)

  const EMPTY := Table(map[], [], map[])

  function BeginRefusal(t: Table, operation: int): Option<Refusal> {
    if operation in t.active then Some(OperationConflict)
    else if |t.active| >= MAX_ACTIVE_OPERATIONS then Some(OperationsExhausted)
    else None
  }

  function Began(t: Table, operation: int): Table {
    var k := |t.flags|;
    if BeginRefusal(t, operation).Some? then t
    else Table(t.active[operation := k], t.flags + [false], t.guards[k := operation])
  }

  function Cancelled(t: Table, operation: int): Table {
    if operation in t.active && t.active[operation] < |t.flags|
    then t.(flags := t.flags[t.active[operation] := true])
    else t
  }

  function Dropped(t: Table, guard: nat): Table
    requires guard in t.guards
  {
    Table(t.active - {t.guards[guard]}, t.flags, t.guards - {guard})
  }

  /** A guard is dropped once, by whoever holds it. */
  predicate Allowed(t: Table, call: Call) {
    call.Drop? ==> call.guard in t.guards
  }

  function Step(t: Table, call: Call): Table
    requires Allowed(t, call)
  {
    match call
    case Begin(operation) => Began(t, operation)
    case Cancel(operation) => Cancelled(t, operation)
    case Drop(guard) => Dropped(t, guard)
  }

  /** What is active is what the held guards say, each with its own flag. */
  ghost predicate Inv(t: Table) {
    && |t.active| <= MAX_ACTIVE_OPERATIONS
    && (forall k :: k in t.guards ==> k < |t.flags| && t.guards[k] in t.active && t.active[t.guards[k]] == k)
    && (forall operation :: operation in t.active ==>
      t.active[operation] in t.guards && t.guards[t.active[operation]] == operation)
  }

  lemma EmptyHolds()
    ensures Inv(EMPTY)
  {
  }

  lemma SmallerMap<K, V>(m: map<K, V>, k: K)
    requires k in m
    ensures |m - {k}| == |m| - 1
  {
    assert (m - {k}).Keys == m.Keys - {k};
    assert |m - {k}| == |(m - {k}).Keys| && |m| == |m.Keys|;
  }

  lemma LargerMap<K, V>(m: map<K, V>, k: K, v: V)
    requires k !in m
    ensures |m[k := v]| == |m| + 1
  {
    assert m[k := v].Keys == m.Keys + {k};
    assert |m[k := v]| == |m[k := v].Keys| && |m| == |m.Keys|;
  }

  lemma BeganKeepsInv(t: Table, operation: int)
    requires Inv(t)
    ensures Inv(Began(t, operation))
  {
    if BeginRefusal(t, operation).None? {
      LargerMap(t.active, operation, |t.flags|);
    }
  }

  lemma DroppedKeepsInv(t: Table, guard: nat)
    requires Inv(t) && guard in t.guards
    ensures Inv(Dropped(t, guard))
  {
    SmallerMap(t.active, t.guards[guard]);
  }

  lemma CancelledKeepsInv(t: Table, operation: int)
    requires Inv(t)
    ensures Inv(Cancelled(t, operation))
  {
  }

  lemma StepKeepsInv(t: Table, call: Call)
    requires Inv(t) && Allowed(t, call)
    ensures Inv(Step(t, call))
  {
    hide Inv, Began, Cancelled, Dropped;
    match call
    case Begin(operation) => BeganKeepsInv(t, operation);
    case Cancel(operation) => CancelledKeepsInv(t, operation);
    case Drop(guard) => DroppedKeepsInv(t, guard);
  }

  // ---- Runs ----

  ghost predicate IsRun(tables: seq<Table>, calls: seq<Call>) {
    && |tables| == |calls| + 1 && tables[0] == EMPTY
    && forall i :: 0 <= i < |calls| ==> Allowed(tables[i], calls[i]) && tables[i + 1] == Step(tables[i], calls[i])
  }

  /** At every point of every run the active operations are exactly those of the
      held guards, each mapped to its own guard's flag, and never more than eight. */
  lemma {:induction false} RunKeepsInv(tables: seq<Table>, calls: seq<Call>, n: nat)
    requires IsRun(tables, calls) && n < |tables|
    ensures Inv(tables[n])
  {
    hide Inv, Step;
    if n == 0 {
      EmptyHolds();
    } else {
      RunKeepsInv(tables, calls, n - 1);
      StepKeepsInv(tables[n - 1], calls[n - 1]);
      assert tables[n - 1 + 1] == Step(tables[n - 1], calls[n - 1]);
    }
  }

  /** An operation begins unless a guard is held for it or eight are held; then it has
      the next guard, with a flag of its own that is not raised, and every other guard
      and flag is as before. */
  lemma BeginsExactlyWhen(t: Table, operation: int)
    requires Inv(t)
    ensures
      var held := exists k :: k in t.guards && t.guards[k] == operation;
      var next := |t.flags|;
      && (BeginRefusal(t, operation) == Some(OperationConflict) <==> held)
      && (BeginRefusal(t, operation) == Some(OperationsExhausted) <==> !held && |t.guards| == 8)
      && (BeginRefusal(t, operation) == None <==> !held && |t.guards| < 8)
      && Began(t, operation) ==
         if !held && |t.guards| < 8 then
           Table(t.active[operation := next], t.flags + [false], t.guards[next := operation])
         else t
  {
    CancelReachesOneGuard(t, operation);
    AsManyGuards(t);
  }

  /** Dropping a guard ends its operation and no other, and touches no flag. */
  lemma DropEndsOne(t: Table, guard: nat, operation: int)
    requires Inv(t) && guard in t.guards
    ensures operation in Dropped(t, guard).active <==> operation in t.active && operation != t.guards[guard]
    ensures Dropped(t, guard).flags == t.flags && Dropped(t, guard).guards == t.guards - {guard}
  {
  }

  lemma NoGuards(t: Table)
    requires Inv(t) && t.guards.Keys == {}
    ensures |t.active| == 0 == |t.guards|
  {
    assert forall operation :: operation in t.active ==> t.active[operation] in t.guards.Keys;
    assert t.active == map[] && t.guards == map[];
  }

  lemma OneGuardLess(t: Table, guard: nat)
    requires Inv(t) && guard in t.guards
    ensures |Dropped(t, guard).guards| == |t.guards| - 1 && |Dropped(t, guard).active| == |t.active| - 1
  {
    SmallerMap(t.active, t.guards[guard]);
    SmallerMap(t.guards, guard);
  }

  /** There are as many active operations as held guards. */
  lemma {:induction false} AsManyGuards(t: Table)
    requires Inv(t)
    ensures |t.guards| == |t.active|
    decreases |t.guards|
  {
    hide Inv, Dropped;
    if t.guards.Keys == {} {
      NoGuards(t);
    } else {
      var k :| k in t.guards.Keys;
      DroppedKeepsInv(t, k);
      OneGuardLess(t, k);
      AsManyGuards(Dropped(t, k));
    }
  }

  /** A guard ends only by being dropped, and never comes back. */
  lemma StepOfGuard(t: Table, call: Call, k: nat)
    requires Inv(t) && Allowed(t, call) && k < |t.flags|
    ensures k in Step(t, call).guards <==> k in t.guards && call != Drop(k)
    ensures k in Step(t, call).guards ==> Step(t, call).guards[k] == t.guards[k]
    ensures |t.flags| <= |Step(t, call).flags|
    ensures Step(t, call).flags[k] <==> t.flags[k] || (k in t.guards && call == Cancel(t.guards[k]))
  {
  }

  /** A flag once raised stays raised, and the flag of a guard that was dropped is
      never touched again, whatever operation is begun under its number. */
  lemma {:induction false} FlagsNeverReset(tables: seq<Table>, calls: seq<Call>, i: nat, j: nat, k: nat)
    requires IsRun(tables, calls) && i <= j < |tables| && k < |tables[i].flags|
    ensures k < |tables[j].flags|
    ensures tables[i].flags[k] ==> tables[j].flags[k]
    ensures k !in tables[i].guards ==> k !in tables[j].guards && tables[j].flags[k] == tables[i].flags[k]
    ensures k in tables[j].guards ==> tables[j].guards[k] == tables[i].guards[k]
    decreases j
  {
    hide Inv, Step, Allowed;
    if i < j {
      FlagsNeverReset(tables, calls, i, j - 1, k);
      RunKeepsInv(tables, calls, j - 1);
      RunStep(tables, calls, j - 1);
      StepOfGuard(tables[j - 1], calls[j - 1], k);
    }
  }

  lemma RunStep(tables: seq<Table>, calls: seq<Call>, i: nat)
    requires IsRun(tables, calls) && i < |calls|
    ensures Allowed(tables[i], calls[i]) && tables[i + 1] == Step(tables[i], calls[i])
  {
  }

  /** A cancellation that came while guard `k` was held, for its operation. */
  ghost predicate Cancels(tables: seq<Table>, calls: seq<Call>, n: nat, k: nat, i: int)
    requires |tables| == |calls| + 1 && n <= |calls|
  {
    0 <= i < n && k in tables[i].guards && calls[i] == Cancel(tables[i].guards[k])
  }

  /** A guard finds itself cancelled exactly when its operation was cancelled while
      it was held: not by a cancellation of an earlier operation of the same
      number, nor by one that came after it was dropped. */
  lemma {:induction false} CancelledWhileHeld(tables: seq<Table>, calls: seq<Call>, n: nat, k: nat)
    requires IsRun(tables, calls) && n < |tables| && k < |tables[n].flags|
    ensures tables[n].flags[k] <==> exists i :: Cancels(tables, calls, n, k, i)
  {
    hide Inv, Step, Allowed;
    if n > 0 {
      var m := n - 1;
      RunKeepsInv(tables, calls, m);
      RunStep(tables, calls, m);
      if k < |tables[m].flags| {
        CancelledWhileHeld(tables, calls, m, k);
        StepOfGuard(tables[m], calls[m], k);
        assert Cancels(tables, calls, n, k, m) <==> k in tables[m].guards && calls[m] == Cancel(tables[m].guards[k]);
        assert forall i :: Cancels(tables, calls, m, k, i) ==> Cancels(tables, calls, n, k, i);
        assert forall i :: Cancels(tables, calls, n, k, i) ==> i == m || Cancels(tables, calls, m, k, i);
      } else {
        NewFlag(tables[m], calls[m], k);
        forall i | 0 <= i < n ensures !Cancels(tables, calls, n, k, i) {
          RunKeepsInv(tables, calls, i);
          GuardHasFlag(tables[i], k);
          FlagsGrow(tables, calls, i, m);
        }
      }
    }
  }

  lemma NewFlag(t: Table, call: Call, k: nat)
    requires Allowed(t, call) && |t.flags| <= k < |Step(t, call).flags|
    ensures !Step(t, call).flags[k]
  {
  }

  lemma GuardHasFlag(t: Table, k: nat)
    requires Inv(t)
    ensures k in t.guards ==> k < |t.flags|
  {
  }

  lemma {:induction false} FlagsGrow(tables: seq<Table>, calls: seq<Call>, i: nat, j: nat)
    requires IsRun(tables, calls) && i <= j < |tables|
    ensures |tables[i].flags| <= |tables[j].flags|
    decreases j
  {
    hide Step, Allowed;
    if i < j {
      FlagsGrow(tables, calls, i, j - 1);
      RunStep(tables, calls, j - 1);
      assert |tables[j - 1].flags| <= |tables[j].flags| by {
        StepGrows(tables[j - 1], calls[j - 1]);
      }
    }
  }

  lemma StepGrows(t: Table, call: Call)
    requires Allowed(t, call)
    ensures |t.flags| <= |Step(t, call).flags|
  {
  }

  /** A cancellation answers yes exactly when a guard is held for the operation, and
      then raises that guard's flag and no other. */
  lemma CancelReachesOneGuard(t: Table, operation: int)
    requires Inv(t)
    ensures operation in t.active <==> exists k :: k in t.guards && t.guards[k] == operation
    ensures forall k :: 0 <= k < |t.flags| ==>
      (Cancelled(t, operation).flags[k] <==> t.flags[k] || (k in t.guards && t.guards[k] == operation))
    ensures Cancelled(t, operation).guards == t.guards && Cancelled(t, operation).active == t.active
  {
    if operation in t.active {
      assert t.active[operation] in t.guards;
    }
  }
}
