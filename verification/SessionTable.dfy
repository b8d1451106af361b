/** The session table of adapter.rs as a state machine on values: what each
    operation answers and leaves behind, and what holds over every run of them. */
module SessionTable {
  import opened Basics

  const MAX_OPEN_SESSIONS := 8
  const MAX_IDENTITY := 0x7fff_ffff_ffff_ffff

  datatype Capability = Read | Maintenance
  datatype Bound = RootBytes | DatabaseBytes | OpenSessions | ResponseBytes | RequestBytes
  datatype Refusal =
    | CapabilityMismatch | BindingMismatch | UnknownHandle | RetiredHandle | UnknownOperation
    | InvalidContext | SessionsExhausted | IdentitiesExhausted | MalformedRequest | EncodingFailed
    | Bounded(bound: Bound)

  /** What a request names: the length bound its paths violate, if any, and
      whether both paths are absolute, named and distinct. */
  datatype Context = Context(violatedBound: Option<Bound>, pathsNamed: bool)

  datatype OpenRequest<Binding> = OpenRequest(capability: Capability, binding: Binding, context: Context)
  datatype Entry<Binding> = Entry(identity: int, capability: Capability, binding: Binding)
  datatype Closed<Binding> = Closed(identity: int, retired: bool, binding: Option<Binding>)

  datatype Table<Binding> = Table(open: seq<Entry<Binding>>, next: int)

  function Empty<Binding>(): Table<Binding> {
    Table([], 1)
  }

  // ---- The operations ----

  predicate Allocated<B>(t: Table<B>, identity: int) {
    0 < identity < t.next
  }

  /** Position of the first open session under an identity, or the table's length. */
  function Position<B>(open: seq<Entry<B>>, identity: int): (p: nat)
    ensures p <= |open| && (p < |open| ==> open[p].identity == identity)
    ensures forall i :: 0 <= i < p ==> open[i].identity != identity
  {
    if open == [] || open[0].identity == identity then 0 else 1 + Position(open[1..], identity)
  }

  predicate IsOpen<B>(t: Table<B>, identity: int) {
    Position(t.open, identity) < |t.open|
  }

  function RemoveAt<T>(s: seq<T>, p: nat): seq<T>
    requires p < |s|
  {
    s[..p] + s[p + 1..]
  }

  /** What refuses an open before the table is looked at. */
  function OpenRefusal<B>(capability: Capability, request: OpenRequest<B>): Option<Refusal> {
    if request.capability != capability then Some(CapabilityMismatch)
    else if request.context.violatedBound.Some? then Some(Bounded(request.context.violatedBound.value))
    else if !request.context.pathsNamed then Some(InvalidContext)
    else None
  }

  function AllocateRefusal<B>(t: Table<B>): Option<Refusal> {
    if |t.open| >= MAX_OPEN_SESSIONS then Some(SessionsExhausted)
    else if t.next == MAX_IDENTITY then Some(IdentitiesExhausted)
    else None
  }

  function Open<B>(t: Table<B>, capability: Capability, request: OpenRequest<B>, engineStarts: bool)
    : (Table<B>, Result<Entry<B>, Refusal>)
  {
    var refusal := OpenRefusal(capability, request);
    if refusal.Some? then (t, Err(refusal.value))
    else
      var full := AllocateRefusal(t);
      if full.Some? then (t, Err(full.value))
      else
        var entry := Entry(t.next, capability, request.binding);
        if engineStarts then (Table(t.open + [entry], t.next + 1), Ok(entry))
        else (t.(next := t.next + 1), Err(InvalidContext))
  }

  function Close<B(==)>(t: Table<B>, identity: int, binding: B): (Table<B>, Result<Closed<B>, Refusal>) {
    var p := Position(t.open, identity);
    if !Allocated(t, identity) then (t, Err(UnknownHandle))
    else if p == |t.open| then (t, Ok(Closed(identity, false, None)))
    else if t.open[p].binding != binding then (t, Err(BindingMismatch))
    else (t.(open := RemoveAt(t.open, p)), Ok(Closed(identity, true, Some(t.open[p].binding))))
  }

  function Abandon<B>(t: Table<B>, identity: int): (Table<B>, bool) {
    var p := Position(t.open, identity);
    if p == |t.open| then (t, false) else (t.(open := RemoveAt(t.open, p)), true)
  }

  function Find<B>(t: Table<B>, identity: int): Result<Entry<B>, Refusal> {
    var p := Position(t.open, identity);
    if !Allocated(t, identity) then Err(UnknownHandle)
    else if p == |t.open| then Err(RetiredHandle)
    else Ok(t.open[p])
  }

  /** The session a read or maintenance call may use. */
  function Lookup<B(==)>(t: Table<B>, identity: int, capability: Capability, binding: B): Result<Entry<B>, Refusal> {
    match Find(t, identity)
    case Err(refusal) => Err(refusal)
    case Ok(entry) =>
      if entry.capability != capability then Err(CapabilityMismatch)
      else if entry.binding != binding then Err(BindingMismatch)
      else Ok(entry)
  }

  // ---- What every operation keeps ----

  /** Open identities are allocated, at most eight, and ascend in the order the
      sessions were opened, so no two are equal. */
  ghost predicate Inv<B>(t: Table<B>) {
    && 1 <= t.next <= MAX_IDENTITY
    && |t.open| <= MAX_OPEN_SESSIONS
    && (forall i :: 0 <= i < |t.open| ==> Allocated(t, t.open[i].identity))
    && (forall i, j :: 0 <= i < j < |t.open| ==> t.open[i].identity < t.open[j].identity)
  }

  lemma PositionOf<B>(t: Table<B>, i: nat)
    requires Inv(t) && i < |t.open|
    ensures Position(t.open, t.open[i].identity) == i
  {
  }

  lemma RemovedIdentity<B>(t: Table<B>, p: nat, id: int)
    requires Inv(t) && p < |t.open|
    ensures IsOpen(t.(open := RemoveAt(t.open, p)), id) <==> IsOpen(t, id) && id != t.open[p].identity
  {
    var t' := t.(open := RemoveAt(t.open, p));
    if IsOpen(t, id) && id != t.open[p].identity {
      var q := Position(t.open, id);
      assert t'.open[if q < p then q else q - 1] == t.open[q];
    }
    if IsOpen(t', id) {
      var q := Position(t'.open, id);
      assert t.open[if q < p then q else q + 1] == t'.open[q];
    }
  }

  lemma AddedIdentity<B>(t: Table<B>, entry: Entry<B>, id: int)
    requires Inv(t) && entry.identity == t.next
    ensures IsOpen(Table(t.open + [entry], t.next + 1), id) <==> IsOpen(t, id) || id == t.next
  {
    var t' := Table(t.open + [entry], t.next + 1);
    if IsOpen(t, id) {
      assert t'.open[Position(t.open, id)].identity == id;
    }
    assert t'.open[|t.open|] == entry;
  }

  /** A call reaches a session exactly when the table holds one of that identity,
      opened with that capability and binding. */
  lemma LookupFindsItsOwn<B>(t: Table<B>, identity: int, capability: Capability, binding: B, entry: Entry<B>)
    requires Inv(t)
    ensures Lookup(t, identity, capability, binding) == Ok(entry) <==>
            entry in t.open && entry == Entry(identity, capability, binding)
  {
    if entry in t.open {
      var i :| 0 <= i < |t.open| && t.open[i] == entry;
      PositionOf(t, i);
    }
  }

  /** Closing retires exactly the session of that identity and binding; another
      binding is refused, and an identity no longer open is answered as such. */
  lemma CloseNeedsItsBinding<B>(t: Table<B>, identity: int, binding: B)
    requires Inv(t)
    ensures Close(t, identity, binding).1 == Ok(Closed(identity, true, Some(binding))) <==>
            exists capability :: Entry(identity, capability, binding) in t.open
    ensures Close(t, identity, binding).1 == Err(BindingMismatch) <==>
            IsOpen(t, identity) && forall capability :: Entry(identity, capability, binding) !in t.open
    ensures Close(t, identity, binding).1 == Ok(Closed(identity, false, None)) <==>
            0 < identity < t.next && !IsOpen(t, identity)
    ensures Close(t, identity, binding).1 == Err(UnknownHandle) <==> !(0 < identity < t.next)
  {
    forall entry | entry in t.open && entry.identity == identity
      ensures Position(t.open, identity) < |t.open| && t.open[Position(t.open, identity)] == entry
    {
      var i :| 0 <= i < |t.open| && t.open[i] == entry;
      PositionOf(t, i);
    }
    var p := Position(t.open, identity);
    if p < |t.open| {
      var e := t.open[p];
      assert e in t.open && e == Entry(identity, e.capability, e.binding);
    }
  }

  /** Which ground a call is refused on: the identity was never handed out, its
      session is gone, or it was opened for something else. */
  lemma LookupRefuses<B>(t: Table<B>, identity: int, capability: Capability, binding: B)
    requires Inv(t)
    ensures
      var r := Lookup(t, identity, capability, binding);
      && (r == Err(UnknownHandle) <==> !(0 < identity < t.next))
      && (r == Err(RetiredHandle) <==> 0 < identity < t.next && forall e :: e in t.open ==> e.identity != identity)
      && (r == Err(CapabilityMismatch) <==>
            exists e :: e in t.open && e.identity == identity && e.capability != capability)
      && (r == Err(BindingMismatch) <==>
            exists e :: e in t.open && e.identity == identity && e.capability == capability && e.binding != binding)
  {
    hide RemoveAt;
    var p := Position(t.open, identity);
    forall e | e in t.open && e.identity == identity
      ensures p < |t.open| && e == t.open[p]
    {
      var i :| 0 <= i < |t.open| && t.open[i] == e;
      PositionOf(t, i);
    }
    if p < |t.open| {
      assert t.open[p] in t.open && Allocated(t, t.open[p].identity);
    }
  }

  /** The first ground an open is refused on. */
  lemma OpenRefuses<B>(t: Table<B>, capability: Capability, request: OpenRequest<B>, engineStarts: bool)
    requires Inv(t)
    ensures
      var r := Open(t, capability, request, engineStarts).1;
      var bound, named := request.context.violatedBound, request.context.pathsNamed;
      var asked := request.capability == capability && bound.None? && named;
      && (r == Err(CapabilityMismatch) <==> request.capability != capability)
      && (forall b :: r == Err(Bounded(b)) <==> request.capability == capability && bound == Some(b))
      && (r == Err(SessionsExhausted) <==> asked && |t.open| == MAX_OPEN_SESSIONS)
      && (r == Err(IdentitiesExhausted) <==> asked && |t.open| < MAX_OPEN_SESSIONS && t.next == MAX_IDENTITY)
      && (r == Err(InvalidContext) <==>
            || (request.capability == capability && bound.None? && !named)
            || (asked && |t.open| < MAX_OPEN_SESSIONS && t.next < MAX_IDENTITY && !engineStarts))
  {
  }

  /** What it takes to open a session, and what an open that fails leaves: the table
      as it was, but for the identity a failed engine used up. */
  lemma OpensExactlyWhen<B>(t: Table<B>, capability: Capability, request: OpenRequest<B>, engineStarts: bool)
    requires Inv(t)
    ensures
      var (after, r) := Open(t, capability, request, engineStarts);
      && (r.Ok? <==>
            && request.capability == capability && request.context.violatedBound.None? && request.context.pathsNamed
            && |t.open| < MAX_OPEN_SESSIONS && t.next < MAX_IDENTITY && engineStarts)
      && (r.Ok? ==>
            && r.value == Entry(t.next, capability, request.binding)
            && after == Table(t.open + [r.value], t.next + 1))
      && (r.Err? ==>
            && after.open == t.open
            && (after.next == t.next + 1 <==>
                  && request.capability == capability && request.context.violatedBound.None?
                  && request.context.pathsNamed
                  && |t.open| < MAX_OPEN_SESSIONS && t.next < MAX_IDENTITY && !engineStarts)
            && (after.next == t.next || after.next == t.next + 1))
  {
  }

  /** A session just opened is reached by calls that name what it was opened with,
      and by no others. */
  lemma OpenedIsReached<B>(t: Table<B>, capability: Capability, request: OpenRequest<B>, c: Capability, b: B)
    requires Inv(t) && Open(t, capability, request, true).1.Ok?
    ensures Lookup(Open(t, capability, request, true).0, t.next, c, b).Ok? <==> c == capability && b == request.binding
  {
    var entry := Entry(t.next, capability, request.binding);
    AddedKeepsInv(t, entry);
    PositionOf(Table(t.open + [entry], t.next + 1), |t.open|);
  }

  // ---- Runs ----

  datatype Op<B> =
    | OpOpen(capability: Capability, request: OpenRequest<B>, engineStarts: bool)
    | OpClose(identity: int, binding: B)
    | OpAbandon(identity: int)

  function Step<B(==)>(t: Table<B>, op: Op<B>): Table<B> {
    match op
    case OpOpen(capability, request, engineStarts) => Open(t, capability, request, engineStarts).0
    case OpClose(identity, binding) => Close(t, identity, binding).0
    case OpAbandon(identity) => Abandon(t, identity).0
  }

  function Run<B(==)>(ops: seq<Op<B>>): Table<B> {
    if ops == [] then Empty() else Step(Run(ops[..|ops| - 1]), ops[|ops| - 1])
  }

  /** Whether an operation answers that it opened, or that it retired, `id`. */
  predicate ReportsOpened<B>(t: Table<B>, op: Op<B>, id: int) {
    op.OpOpen? &&
    var answer := Open(t, op.capability, op.request, op.engineStarts).1;
    answer.Ok? && answer.value.identity == id
  }

  predicate ReportsRetired<B(==)>(t: Table<B>, op: Op<B>, id: int) {
    match op
    case OpOpen(_, _, _) => false
    case OpClose(identity, binding) =>
      identity == id && Close(t, identity, binding).1.Ok? && Close(t, identity, binding).1.value.retired
    case OpAbandon(identity) => identity == id && Abandon(t, identity).1
  }

  function Openings<B(==)>(ops: seq<Op<B>>, id: int): nat {
    if ops == [] then 0
    else
      var front := ops[..|ops| - 1];
      Openings(front, id) + if ReportsOpened(Run(front), ops[|ops| - 1], id) then 1 else 0
  }

  function Retirements<B(==)>(ops: seq<Op<B>>, id: int): nat {
    if ops == [] then 0
    else
      var front := ops[..|ops| - 1];
      Retirements(front, id) + if ReportsRetired(Run(front), ops[|ops| - 1], id) then 1 else 0
  }

  lemma RemovedKeepsInv<B>(t: Table<B>, p: nat)
    requires Inv(t) && p < |t.open|
    ensures Inv(t.(open := RemoveAt(t.open, p)))
  {
  }

  lemma AddedKeepsInv<B>(t: Table<B>, entry: Entry<B>)
    requires Inv(t) && entry.identity == t.next && AllocateRefusal(t).None?
    ensures Inv(Table(t.open + [entry], t.next + 1)) && Inv(t.(next := t.next + 1))
  {
  }

  lemma StepKeepsInv<B>(t: Table<B>, op: Op<B>)
    requires Inv(t)
    ensures Inv(Step(t, op)) && Step(t, op).next >= t.next
  {
    hide Inv, RemoveAt;
    match op
    case OpOpen(capability, request, _) =>
      if AllocateRefusal(t).None? {
        AddedKeepsInv(t, Entry(t.next, capability, request.binding));
      }
    case _ =>
      var p := Position(t.open, op.identity);
      if p < |t.open| {
        RemovedKeepsInv(t, p);
      }
  }

  /** One step moves an identity in or out of the table exactly when it reports
      so, and only the next identity can come in. */
  lemma StepMovesOne<B>(t: Table<B>, op: Op<B>, id: int)
    requires Inv(t)
    ensures ReportsOpened(t, op, id) ==> id == t.next && !IsOpen(t, id) && Step(t, op).next == t.next + 1
    ensures ReportsRetired(t, op, id) ==> IsOpen(t, id)
    ensures IsOpen(Step(t, op), id) <==>
            ReportsOpened(t, op, id) || (IsOpen(t, id) && !ReportsRetired(t, op, id))
  {
    match op
    case OpOpen(capability, request, engineStarts) =>
      if Open(t, capability, request, engineStarts).1.Ok? {
        AddedIdentity(t, Open(t, capability, request, engineStarts).1.value, id);
      }
    case OpClose(identity, binding) =>
      if IsOpen(t, identity) {
        RemovedIdentity(t, Position(t.open, identity), id);
      }
    case OpAbandon(identity) =>
      if IsOpen(t, identity) {
        RemovedIdentity(t, Position(t.open, identity), id);
      }
  }

  /** Over any run: an identity is opened at most once and only once allocated,
      and each opening is either still open or was reported retired, once. */
  lemma {:induction false} OpeningsBalanceRetirements<B>(ops: seq<Op<B>>, id: int)
    ensures Inv(Run(ops))
    ensures Openings(ops, id) == Retirements(ops, id) + if IsOpen(Run(ops), id) then 1 else 0
    ensures Openings(ops, id) <= if Allocated(Run(ops), id) then 1 else 0
  {
    if ops != [] {
      var front, op := ops[..|ops| - 1], ops[|ops| - 1];
      OpeningsBalanceRetirements(front, id);
      StepKeepsInv(Run(front), op);
      StepMovesOne(Run(front), op, id);
    }
  }

  lemma AtMostOneRetirement<B>(ops: seq<Op<B>>, id: int)
    ensures Retirements(ops, id) <= 1
    ensures Retirements(ops, id) == 1 ==> Allocated(Run(ops), id) && !IsOpen(Run(ops), id)
  {
    OpeningsBalanceRetirements(ops, id);
  }

  /** An identity that was allocated and is not open stays so: it is never handed
      out again, and every later lookup answers that it is retired. */
  lemma {:induction false} RetiredStaysRetired<B>(ops: seq<Op<B>>, more: seq<Op<B>>, id: int)
    requires Allocated(Run(ops), id) && !IsOpen(Run(ops), id)
    ensures Allocated(Run(ops + more), id) && !IsOpen(Run(ops + more), id)
    ensures Find(Run(ops + more), id) == Err(RetiredHandle)
    ensures Openings(ops + more, id) == Openings(ops, id)
  {
    hide Step, Inv, Find, IsOpen, ReportsOpened, ReportsRetired;
    if more == [] {
      assert ops + more == ops;
      RetiredIsAnswered(Run(ops), id);
    } else {
      var front, op := more[..|more| - 1], more[|more| - 1];
      var t := Run(ops + front);
      RetiredStaysRetired(ops, front, id);
      assert (ops + more)[..|ops + more| - 1] == ops + front;
      OpeningsBalanceRetirements(ops + front, id);
      StepKeepsInv(t, op);
      StepMovesOne(t, op, id);
      RetiredIsAnswered(Step(t, op), id);
    }
  }

  lemma RetiredIsAnswered<B>(t: Table<B>, id: int)
    requires Allocated(t, id) && !IsOpen(t, id)
    ensures Find(t, id) == Err(RetiredHandle)
  {
  }

  lemma FindAfterRemoval<B>(t: Table<B>, p: nat, id: int)
    requires Inv(t) && IsOpen(t, id) && p < |t.open| && t.open[p].identity != id
    ensures Find(t.(open := RemoveAt(t.open, p)), id) == Find(t, id)
  {
    var t' := t.(open := RemoveAt(t.open, p));
    var q := Position(t.open, id);
    var q' := if q < p then q else q - 1;
    assert t'.open[q'] == t.open[q];
    RemovedKeepsInv(t, p);
    PositionOf(t', q');
  }

  lemma FindAfterOpening<B>(t: Table<B>, entry: Entry<B>, id: int)
    requires Inv(t) && IsOpen(t, id) && entry.identity == t.next && AllocateRefusal(t).None?
    ensures Find(Table(t.open + [entry], t.next + 1), id) == Find(t, id) == Find(t.(next := t.next + 1), id)
  {
    var t' := Table(t.open + [entry], t.next + 1);
    var q := Position(t.open, id);
    assert t'.open[q] == t.open[q];
    AddedKeepsInv(t, entry);
    PositionOf(t', q);
  }

  /** Only what was asked is released: a step leaves every other open session,
      with its capability and binding, findable as before. */
  lemma OthersAreUntouched<B>(t: Table<B>, op: Op<B>, id: int)
    requires Inv(t) && IsOpen(t, id) && !ReportsRetired(t, op, id)
    ensures Find(Step(t, op), id) == Find(t, id)
  {
    hide Inv, RemoveAt, Find;
    match op
    case OpOpen(capability, request, _) =>
      if AllocateRefusal(t).None? {
        FindAfterOpening(t, Entry(t.next, capability, request.binding), id);
      }
    case _ =>
      var p := Position(t.open, op.identity);
      if p < |t.open| && op.identity != id {
        FindAfterRemoval(t, p, id);
      }
  }

  /** An abandoned identity is gone, and any other is found, or not, as before. */
  lemma AbandonTakesOne<B>(t: Table<B>, id: int, other: int)
    requires Inv(t)
    ensures !IsOpen(Step(t, OpAbandon(id)), id)
    ensures other != id ==> Find(Step(t, OpAbandon(id)), other) == Find(t, other)
  {
    hide Inv, RemoveAt;
    if IsOpen(t, id) {
      RemovedIdentity(t, Position(t.open, id), id);
      if other != id {
        RemovedIdentity(t, Position(t.open, id), other);
        if IsOpen(t, other) {
          OthersAreUntouched(t, OpAbandon(id), other);
        }
      }
    }
  }

  /** An open whose answer is lost: whatever other callers do before it is abandoned
      and after, its identity is gone from then on, and at the moment it goes every
      other identity is found, or not, as its own operations left it. */
  lemma LostAnswerIsRetired<B>(before: seq<Op<B>>, opening: Op<B>, between: seq<Op<B>>, later: seq<Op<B>>, id: int,
                               other: int)
    requires ReportsOpened(Run(before), opening, id)
    ensures
      var held := before + [opening] + between;
      var given := held + [OpAbandon(id)];
      && Allocated(Run(given), id) && !IsOpen(Run(given), id)
      && Find(Run(given + later), id) == Err(RetiredHandle)
      && (other != id ==> Find(Run(given), other) == Find(Run(held), other))
  {
    hide Find, Step, IsOpen, ReportsOpened;
    var begun := before + [opening];
    var held := begun + between;
    var given := held + [OpAbandon(id)];
    assert begun[..|begun| - 1] == before && given[..|given| - 1] == held;
    OpeningsBalanceRetirements(before, id);
    OpenedIsAllocated(Run(before), opening, id);
    StaysAllocated(begun, between, id);
    OpeningsBalanceRetirements(held, id);
    AbandonTakesOne(Run(held), id, other);
    StaysAllocated(held, [OpAbandon(id)], id);
    RetiredStaysRetired(given, later, id);
  }

  lemma OpenedIsAllocated<B>(t: Table<B>, op: Op<B>, id: int)
    requires Inv(t) && ReportsOpened(t, op, id)
    ensures Allocated(Step(t, op), id)
  {
  }

  lemma {:induction false} StaysAllocated<B>(ops: seq<Op<B>>, more: seq<Op<B>>, id: int)
    requires Allocated(Run(ops), id)
    ensures Allocated(Run(ops + more), id)
  {
    hide Step;
    if more == [] {
      assert ops + more == ops;
    } else {
      var front := more[..|more| - 1];
      StaysAllocated(ops, front, id);
      assert (ops + more)[..|ops + more| - 1] == ops + front;
      OpeningsBalanceRetirements(ops + front, id);
      StepKeepsInv(Run(ops + front), more[|more| - 1]);
    }
  }
}
