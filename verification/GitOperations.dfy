/** The registry of cancellable Git operations (android_git.rs) as it updates its
    map in place and shares each flag with one guard. */
module GitOperations {
  import opened Basics
  import T = OperationTable

  /** A cancellation flag. Its number is its place among all flags handed out. */
  class Flag {
    var raised: bool
    ghost const number: nat

    constructor (ghost number: nat)
      ensures !raised && this.number == number
    {
      raised := false;
      this.number := number;
    }
  }

  /** The guard of one operation, held until the operation ends. */
  class ActiveOperation {
    const operation: int
    const cancelled: Flag

    constructor (operation: int, cancelled: Flag)
      ensures this.operation == operation && this.cancelled == cancelled
    {
      this.operation, this.cancelled := operation, cancelled;
    }
  }

  /** The flag each operation is mapped to, by number. */
  ghost function Numbers(active: map<int, Flag>): map<int, nat> {
    map operation | operation in active :: active[operation].number
  }

  /** The operation of each guard, by the number of its flag. */
  ghost function Guards(held: map<nat, ActiveOperation>): map<nat, int> {
    map k | k in held :: held[k].operation
  }

  ghost function Raised(issued: seq<Flag>): (flags: seq<bool>)
    reads issued
    ensures |flags| == |issued| && forall k :: 0 <= k < |flags| ==> flags[k] == issued[k].raised
  {
    seq(|issued|, k requires 0 <= k < |issued| reads issued => issued[k].raised)
  }

  lemma NumbersChange(active: map<int, Flag>, operation: int, flag: Flag)
    ensures Numbers(active[operation := flag]) == Numbers(active)[operation := flag.number]
    ensures Numbers(active - {operation}) == Numbers(active) - {operation}
  {
  }

  lemma NumbersSize(active: map<int, Flag>)
    ensures |Numbers(active)| == |active| && Numbers(active).Keys == active.Keys
  {
    assert Numbers(active).Keys == active.Keys;
    assert |Numbers(active)| == |Numbers(active).Keys| && |active| == |active.Keys|;
  }

  /** The flag stands at its number among those issued. */
  ghost predicate Issued(issued: seq<Flag>, flag: Flag) {
    flag.number < |issued| && issued[flag.number] == flag
  }

  /** Every flag in use was issued, and the guard held under a number holds that
      flag. */
  ghost predicate InUse(active: map<int, Flag>, issued: seq<Flag>, held: map<nat, ActiveOperation>) {
    && (forall k :: 0 <= k < |issued| ==> issued[k].number == k)
    && (forall operation :: operation in active ==> Issued(issued, active[operation]))
    && (forall k :: k in held ==> k < |issued| && held[k].cancelled == issued[k])
  }

  lemma InUseAdded(active: map<int, Flag>, issued: seq<Flag>, held: map<nat, ActiveOperation>, guard: ActiveOperation)
    requires InUse(active, issued, held) && guard.cancelled.number == |issued|
    ensures InUse(active[guard.operation := guard.cancelled], issued + [guard.cancelled], held[|issued| := guard])
  {
  }

  lemma RaisedAdded(issued: seq<Flag>, flag: Flag)
    ensures Raised(issued + [flag]) == Raised(issued) + [flag.raised]
  {
  }

  lemma GuardsChange(held: map<nat, ActiveOperation>, k: nat, guard: ActiveOperation)
    ensures Guards(held[k := guard]) == Guards(held)[k := guard.operation]
    ensures Guards(held - {k}) == Guards(held) - {k}
  {
  }

  class Operations {
    var active: map<int, Flag>
    ghost var issued: seq<Flag>
    ghost var held: map<nat, ActiveOperation>

    ghost predicate Valid()
      reads this
    {
      InUse(active, issued, held)
    }

    ghost function View(): T.Table
      requires Valid()
      reads this, issued
    {
      T.Table(Numbers(active), Raised(issued), Guards(held))
    }

    constructor ()
      ensures Valid() && View() == T.EMPTY && held == map[]
    {
      active, issued, held := map[], [], map[];
    }

    /** Maps an operation to a new guard's flag. */
    method Register(operation: int) returns (guard: ActiveOperation)
      requires Valid()
      modifies this
      ensures Valid()
      ensures Numbers(active) == old(Numbers(active))[operation := |old(issued)|]
      ensures Raised(issued) == old(Raised(issued)) + [false]
      ensures Guards(held) == old(Guards(held))[|old(issued)| := operation]
      ensures fresh(guard) && fresh(guard.cancelled) && !guard.cancelled.raised
      ensures guard.operation == operation && held == old(held)[guard.cancelled.number := guard]
    {
      hide Numbers, Guards, InUse, Raised;
      var cancelled := new Flag(|issued|);
      guard := new ActiveOperation(operation, cancelled);
      NumbersChange(active, operation, cancelled);
      GuardsChange(held, |issued|, guard);
      InUseAdded(active, issued, held, guard);
      RaisedAdded(issued, cancelled);
      active := active[operation := cancelled];
      held := held[|issued| := guard];
      issued := issued + [cancelled];
    }

    method Begin(operation: int) returns (r: Result<ActiveOperation, T.Refusal>)
      requires Valid()
      modifies this
      ensures Valid() && View() == T.Began(old(View()), operation)
      ensures r.Err? <==> T.BeginRefusal(old(View()), operation).Some?
      ensures r.Err? ==> Some(r.error) == T.BeginRefusal(old(View()), operation) && held == old(held)
      ensures r.Ok? ==> fresh(r.value) && fresh(r.value.cancelled) && !r.value.cancelled.raised
      ensures r.Ok? ==> r.value.operation == operation && held == old(held)[r.value.cancelled.number := r.value]
    {
      hide Numbers, Guards, InUse, Raised;
      NumbersSize(active);
      if operation in active {
        return Err(T.OperationConflict);
      }
      if |active| >= T.MAX_ACTIVE_OPERATIONS {
        return Err(T.OperationsExhausted);
      }
      var guard := Register(operation);
      r := Ok(guard);
    }

    /** Raises the flag of the operation's guard, if one is held, and no other: the
        frame is that one flag. */
    method Cancel(operation: int) returns (found: bool)
      requires Valid()
      modifies if operation in active then {active[operation]} else {}
      ensures Valid() && View() == T.Cancelled(old(View()), operation)
      ensures found <==> operation in active
      ensures found ==> active[operation].raised
    {
      if operation !in active {
        return false;
      }
      var cancelled := active[operation];
      cancelled.raised := true;
      found := true;
    }

    /** The guard goes out of scope. */
    method Drop(guard: ActiveOperation)
      requires Valid() && guard.cancelled.number in held && held[guard.cancelled.number] == guard
      modifies this
      ensures Valid() && held == old(held) - {guard.cancelled.number}
      ensures View() == T.Dropped(old(View()), guard.cancelled.number)
    {
      ghost var k := guard.cancelled.number;
      NumbersChange(active, guard.operation, guard.cancelled);
      GuardsChange(held, k, guard);
      active := active - {guard.operation};
      held := held - {k};
    }
  }
}
