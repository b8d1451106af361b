/** The daemon client of rpc.rs and transport.rs, against a daemon that reads one
    request at a time and answers it under its own identifier (server.rs,
    dispatch.rs). Answers wait in a first-in first-out pipe. */
module RpcClient {
  import opened Basics
  import opened Text

  datatype Id = Number(n: nat) | Null
  datatype Request = Request(id: nat, name: string, params: string)
  datatype Response = Response(id: Id, result: Option<string>, error: Option<string>)

  /** What the service makes of the last of the requests it was sent. */
  datatype Answer = Success(value: string) | Failure(error: string)
  type Service = seq<Request> -> Answer

  /** How a client reads a result. */
  type Decoder<V> = string -> Option<V>

  datatype ClientError =
    | SerializeRequest | WriteRequest | ReadResponse
    | ResponseIdMismatch(expected: string, actual: string)
    | Rpc(error: string) | MissingResponsePayload | MalformedResult

  /** What goes wrong during one call. A failed write may still reach the daemon, or
      leave text there that it answers without knowing a request, or tear a frame; a
      failed read may take the first answer with it or leave it in the pipe, and may
      stop inside an answer, whose rest then heads the pipe. */
  datatype Fault =
    | NoFault
    | SerializeFails
    | WriteFails(delivered: bool, garbled: nat, tears: bool)
    | ReadFails(consumed: bool, cut: bool)

  /** What is left to chance. Of bytes that fill up a torn frame the daemon makes some
      number of answers to unreadable text, and may still be inside a frame after them.
      A read that begins inside an answer may eat into the answer after it. */
  datatype Chance = Chance(garbled: nat, torn: bool, eats: bool)

  /** The requests the daemon handled, the whole answers waiting, whether it is waiting
      for the rest of a frame, and whether the rest of an answer comes before them. */
  datatype Wire = Wire(handled: seq<Request>, pipe: seq<Response>, torn: bool, cut: bool)
  datatype State = State(nextRequestId: nat, wire: Wire)

  const START := State(1, Wire([], [], false, false))

  // ---- The daemon ----

  function Respond(service: Service, handled: seq<Request>): Response
    requires handled != []
  {
    var id := Number(handled[|handled| - 1].id);
    match service(handled)
    case Success(value) => Response(id, Some(value), None)
    case Failure(error) => Response(id, None, Some(error))
  }

  /** Text that is not a request is answered under the null identifier. */
  function Garble(wire: Wire, n: nat): Wire {
    wire.(pipe := wire.pipe + seq(n, _ => Response(Null, None, Some("parse error"))))
  }

  /** A request is answered as soon as it is read; one written into a torn frame is
      not read as a request at all. */
  function Deliver(service: Service, wire: Wire, request: Request, chance: Chance): Wire {
    if wire.torn then Garble(wire, chance.garbled).(torn := chance.torn)
    else
      var handled := wire.handled + [request];
      wire.(handled := handled, pipe := wire.pipe + [Respond(service, handled)])
  }

  // ---- The client ----

  function IdText(id: Id): string {
    match id
    case Number(n) => Decimal(n)
    case Null => "null"
  }

  function DecodeResponse<V>(decode: Decoder<V>, requestId: nat, response: Response): Result<V, ClientError> {
    var expected := Decimal(requestId);
    var actual := IdText(response.id);
    if actual != expected then Err(ResponseIdMismatch(expected, actual))
    else if response.error.Some? then Err(Rpc(response.error.value))
    else if response.result.None? then Err(MissingResponsePayload)
    else
      match decode(response.result.value)
      case None => Err(MalformedResult)
      case Some(v) => Ok(v)
  }

  function Taken(wire: Wire, takes: bool): Wire {
    if takes && wire.pipe != [] then wire.(pipe := wire.pipe[1..]) else wire
  }

  /** The client takes the first answer that waits. Where none comes, its read ends
      without one; a read that begins inside an answer fails, and ends inside one
      (`Framing.ReadInsideFails`). */
  function Received(sent: Wire, eats: bool): (Wire, Result<Response, ClientError>) {
    if sent.cut then (Taken(sent, eats), Err(ReadResponse))
    else if sent.pipe == [] then (sent, Err(ReadResponse))
    else (Taken(sent, true), Ok(sent.pipe[0]))
  }

  /** A read that fails by itself. It can only stop inside an answer that it took part
      of, or that it began in. */
  function Missed(sent: Wire, consumed: bool, cut: bool): Wire {
    Taken(sent, consumed).(cut := cut && (sent.cut || (consumed && sent.pipe != [])))
  }

  function RoundTripped(service: Service, wire: Wire, request: Request, fault: Fault, chance: Chance)
    : (r: (Wire, Result<Response, ClientError>))
    requires !fault.SerializeFails?
  {
    match fault
    case WriteFails(delivered, garbled, tears) =>
      var reached := Garble(if delivered then Deliver(service, wire, request, chance) else wire, garbled);
      (reached.(torn := reached.torn || tears), Err(WriteRequest))
    case ReadFails(consumed, cut) =>
      (Missed(Deliver(service, wire, request, chance), consumed, cut), Err(ReadResponse))
    case NoFault =>
      Received(Deliver(service, wire, request, chance), chance.eats)
  }

  datatype Call = Call(name: string, params: string, fault: Fault, chance: Chance)

  function Requested<V>(service: Service, decode: Decoder<V>, s: State, call: Call): (State, Result<V, ClientError>) {
    var id := s.nextRequestId;
    if call.fault.SerializeFails? then (State(id + 1, s.wire), Err(SerializeRequest))
    else
      var request := Request(id, call.name, call.params);
      var (wire, response) := RoundTripped(service, s.wire, request, call.fault, call.chance);
      (State(id + 1, wire),
       match response
       case Err(error) => Err(error)
       case Ok(answer) => DecodeResponse(decode, id, answer))
  }

  class Transport {
    var handled: seq<Request>
    var pipe: seq<Response>
    var torn: bool
    var cut: bool

    function View(): Wire
      reads this
    {
      Wire(handled, pipe, torn, cut)
    }

    constructor ()
      ensures View() == START.wire
    {
      handled, pipe, torn, cut := [], [], false, false;
    }

    method Garbled(n: nat)
      modifies this`pipe
      ensures View() == Garble(old(View()), n)
    {
      pipe := pipe + seq(n, _ => Response(Null, None, Some("parse error")));
    }

    method Serve(service: Service, request: Request, chance: Chance)
      modifies this
      ensures View() == Deliver(service, old(View()), request, chance)
    {
      if torn {
        Garbled(chance.garbled);
        torn := chance.torn;
        return;
      }
      handled := handled + [request];
      pipe := pipe + [Respond(service, handled)];
    }

    method Take(takes: bool)
      modifies this`pipe
      ensures View() == Taken(old(View()), takes)
    {
      if takes && pipe != [] {
        pipe := pipe[1..];
      }
    }

    method Receive(eats: bool) returns (r: Result<Response, ClientError>)
      modifies this`pipe
      ensures (View(), r) == Received(old(View()), eats)
    {
      if cut {
        Take(eats);
        return Err(ReadResponse);
      }
      if pipe == [] {
        return Err(ReadResponse);
      }
      r := Ok(pipe[0]);
      Take(true);
    }

    method RoundTrip(service: Service, request: Request, fault: Fault, chance: Chance)
      returns (r: Result<Response, ClientError>)
      requires !fault.SerializeFails?
      modifies this
      ensures (View(), r) == RoundTripped(service, old(View()), request, fault, chance)
    {
      if fault.WriteFails? {
        if fault.delivered {
          Serve(service, request, chance);
        }
        Garbled(fault.garbled);
        torn := torn || fault.tears;
        return Err(WriteRequest);
      }
      Serve(service, request, chance);
      if fault.ReadFails? {
        cut := fault.cut && (cut || (fault.consumed && pipe != []));
        Take(fault.consumed);
        return Err(ReadResponse);
      }
      r := Receive(chance.eats);
    }
  }

  class Client {
    const transport: Transport
    var nextRequestId: nat

    function View(): State
      reads this, transport
    {
      State(nextRequestId, transport.View())
    }

    constructor (transport: Transport)
      requires transport.View() == START.wire
      ensures View() == START && this.transport == transport
    {
      this.transport := transport;
      nextRequestId := 1;
    }

    method Ask<V>(service: Service, decode: Decoder<V>, call: Call) returns (r: Result<V, ClientError>)
      modifies this, transport
      ensures (View(), r) == Requested(service, decode, old(View()), call)
    {
      var requestId := nextRequestId;
      nextRequestId := nextRequestId + 1;
      if call.fault.SerializeFails? {
        return Err(SerializeRequest);
      }
      var response := transport.RoundTrip(service, Request(requestId, call.name, call.params), call.fault, call.chance);
      r := match response
        case Err(error) => Err(error)
        case Ok(answer) => DecodeResponse(decode, requestId, answer);
    }
  }

  // ---- Runs ----

  ghost predicate IsRun<V>(service: Service, decode: Decoder<V>, states: seq<State>, calls: seq<Call>,
                           results: seq<Result<V, ClientError>>) {
    && |states| == |calls| + 1 == |results| + 1 && states[0] == START
    && forall i :: 0 <= i < |calls| ==> (states[i + 1], results[i]) == Requested(service, decode, states[i], calls[i])
  }

  /** No answer waiting in the pipe is to a request still to be made. */
  ghost predicate OnlyOld(s: State) {
    Older(s.wire.pipe, s.nextRequestId)
  }

  ghost predicate Older(pipe: seq<Response>, id: nat) {
    forall r :: r in pipe ==> r.id.Number? ==> r.id.n < id
  }

  lemma GarbledIsOlder(wire: Wire, n: nat, id: nat)
    requires Older(wire.pipe, id)
    ensures Older(Garble(wire, n).pipe, id)
  {
  }

  lemma DeliveredIsOlder(service: Service, wire: Wire, request: Request, chance: Chance)
    requires Older(wire.pipe, request.id)
    ensures Older(Deliver(service, wire, request, chance).pipe, request.id + 1)
  {
  }

  lemma RequestStep<V>(service: Service, decode: Decoder<V>, s: State, call: Call)
    requires OnlyOld(s)
    ensures OnlyOld(Requested(service, decode, s, call).0)
    ensures Requested(service, decode, s, call).0.nextRequestId == s.nextRequestId + 1
  {
    hide Deliver, Garble, DecodeResponse;
    var request := Request(s.nextRequestId, call.name, call.params);
    var sent := Deliver(service, s.wire, request, call.chance);
    DeliveredIsOlder(service, s.wire, request, call.chance);
    assert Older(s.wire.pipe, s.nextRequestId + 1);
    if call.fault.WriteFails? {
      GarbledIsOlder(if call.fault.delivered then sent else s.wire, call.fault.garbled, s.nextRequestId + 1);
    } else if sent.pipe != [] {
      assert sent.pipe == [sent.pipe[0]] + sent.pipe[1..];
    }
  }

  /** Call `n` of a client is made under identifier `n + 1`, and no answer to it waits
      before it is made. */
  lemma {:induction false} RunState<V>(service: Service, decode: Decoder<V>, states: seq<State>, calls: seq<Call>,
                                       results: seq<Result<V, ClientError>>, n: nat)
    requires IsRun(service, decode, states, calls, results) && n < |states|
    ensures OnlyOld(states[n]) && states[n].nextRequestId == n + 1
  {
    hide OnlyOld, Requested;
    if n == 0 {
      NothingWaiting();
    } else {
      RunState(service, decode, states, calls, results, n - 1);
      RequestStep(service, decode, states[n - 1], calls[n - 1]);
      assert (states[n - 1 + 1], results[n - 1]) == Requested(service, decode, states[n - 1], calls[n - 1]);
    }
  }

  lemma NothingWaiting()
    ensures OnlyOld(START)
  {
  }

  lemma IdTextIsId(id: Id, n: nat)
    ensures IdText(id) == Decimal(n) <==> id == Number(n)
  {
    DecimalValueOfDecimal(n);
    if id.Number? {
      DecimalValueOfDecimal(id.n);
    } else {
      assert !IsDigit("null"[0]);
    }
  }

  /** What a call that fails by itself answers, and what the daemon has seen of it: a
      request that cannot be serialized is not sent, one whose write failed may have
      arrived, and one whose answer could not be read has, unless a torn frame took it. */
  lemma FaultsAreNamed<V>(service: Service, decode: Decoder<V>, s: State, call: Call)
    ensures
      var (s', r) := Requested(service, decode, s, call);
      var request := Request(s.nextRequestId, call.name, call.params);
      && s'.nextRequestId == s.nextRequestId + 1
      && (call.fault.SerializeFails? ==> r == Err(SerializeRequest) && s'.wire == s.wire)
      && (call.fault.WriteFails? ==> r == Err(WriteRequest))
      && (call.fault.ReadFails? ==> r == Err(ReadResponse))
      && s'.wire.handled ==
         if s.wire.torn || call.fault.SerializeFails? || (call.fault.WriteFails? && !call.fault.delivered)
         then s.wire.handled else s.wire.handled + [request]
  {
  }

  /** What a client makes of the service's answer to its own request. */
  function Reading<V>(decode: Decoder<V>, answer: Answer): Result<V, ClientError> {
    match answer
    case Failure(error) => Err(Rpc(error))
    case Success(value) =>
      match decode(value)
      case None => Err(MalformedResult)
      case Some(v) => Ok(v)
  }

  /** The pipe is clean: no answer waits, whole or in part, and the daemon is between
      frames. */
  predicate Clean(wire: Wire) {
    wire.pipe == [] && !wire.torn && !wire.cut
  }

  /** An answer is read by its identifier first, then for an error, then for a value. */
  lemma AnswersAreRead<V>(decode: Decoder<V>, id: nat, answer: Response)
    ensures
      var r := DecodeResponse(decode, id, answer);
      && (r.Err? && r.error.ResponseIdMismatch? <==> answer.id != Number(id))
      && (answer.id != Number(id) ==>
            r.error.expected == Decimal(id)
            && r.error.actual == if answer.id.Number? then Decimal(answer.id.n) else "null")
      && (answer.id == Number(id) && answer.error.Some? ==> r == Err(Rpc(answer.error.value)))
      && (answer.id == Number(id) && answer.error.None? && answer.result.None? ==> r == Err(MissingResponsePayload))
      && (answer.id == Number(id) && answer.error.None? && answer.result.Some? ==>
            r == if decode(answer.result.value).Some? then Ok(decode(answer.result.value).value)
                 else Err(MalformedResult))
  {
    hide Decimal;
    IdTextIsId(answer.id, id);
  }

  lemma OwnAnswer<V>(service: Service, decode: Decoder<V>, s: State, call: Call)
    requires OnlyOld(s) && call.fault.NoFault?
    ensures
      var request := Request(s.nextRequestId, call.name, call.params);
      var (s', r) := Requested(service, decode, s, call);
      if Clean(s.wire) then
        && r == Reading(decode, service(s.wire.handled + [request]))
        && s'.wire == s.wire.(handled := s.wire.handled + [request])
      else r.Err? && (r.error.ResponseIdMismatch? || (r.error.ReadResponse? && (s.wire.torn || s.wire.cut)))
  {
    hide Decimal;
    var request := Request(s.nextRequestId, call.name, call.params);
    var sent := Deliver(service, s.wire, request, call.chance);
    if Clean(s.wire) {
      assert sent.pipe[0] == Respond(service, s.wire.handled + [request]);
      IdTextIsId(Number(s.nextRequestId), s.nextRequestId);
    } else if !s.wire.cut && sent.pipe != [] {
      assert sent.pipe[0] in s.wire.pipe || sent.pipe[0].id == Null;
      IdTextIsId(sent.pipe[0].id, s.nextRequestId);
    }
  }

  /** A value a client gets was decoded from the service's answer to the very
      request it made, whatever failed before. */
  lemma ValuesAreOwn<V>(service: Service, decode: Decoder<V>, states: seq<State>, calls: seq<Call>,
                        results: seq<Result<V, ClientError>>, n: nat)
    requires IsRun(service, decode, states, calls, results) && n < |calls| && results[n].Ok?
    ensures
      var handled := states[n].wire.handled + [Request(n + 1, calls[n].name, calls[n].params)];
      && states[n + 1].wire.handled == handled && service(handled).Success?
      && decode(service(handled).value) == Some(results[n].value)
  {
    hide OnlyOld, Decimal;
    RunState(service, decode, states, calls, results, n);
    assert (states[n + 1], results[n]) == Requested(service, decode, states[n], calls[n]);
    OwnAnswer(service, decode, states[n], calls[n]);
  }

  /** A call that does not itself fail is answered exactly when it finds the pipe
      clean; otherwise it gets another request's answer, an answer to unreadable
      text, a part of an answer, or none. */
  lemma AnsweredWhenClean<V>(service: Service, decode: Decoder<V>, states: seq<State>, calls: seq<Call>,
                             results: seq<Result<V, ClientError>>, n: nat)
    requires IsRun(service, decode, states, calls, results) && n < |calls| && calls[n].fault.NoFault?
    ensures
      var request := Request(n + 1, calls[n].name, calls[n].params);
      if Clean(states[n].wire) then
        results[n] == Reading(decode, service(states[n].wire.handled + [request])) && Clean(states[n + 1].wire)
      else
        && results[n].Err?
        && (results[n].error.ResponseIdMismatch?
            || (results[n].error.ReadResponse? && (states[n].wire.torn || states[n].wire.cut)))
  {
    hide OnlyOld, Decimal;
    RunState(service, decode, states, calls, results, n);
    assert (states[n + 1], results[n]) == Requested(service, decode, states[n], calls[n]);
    OwnAnswer(service, decode, states[n], calls[n]);
  }

  /** Once the pipe begins inside an answer, nothing but a read that fails by itself
      can get it out: until then no call is answered, and every call that does not
      itself fail finds nothing it can read. */
  lemma {:induction false} CutAnswersNothing<V>(service: Service, decode: Decoder<V>, states: seq<State>,
                                                calls: seq<Call>, results: seq<Result<V, ClientError>>,
                                                m: nat, n: nat)
    requires IsRun(service, decode, states, calls, results) && m <= n < |calls| && states[m].wire.cut
    requires forall i :: m <= i <= n ==> !calls[i].fault.ReadFails?
    ensures states[n].wire.cut && states[n + 1].wire.cut && results[n].Err?
    ensures calls[n].fault.NoFault? ==> results[n].error == ReadResponse
  {
    hide Deliver, Garble, Taken, Respond, DecodeResponse;
    if m < n {
      CutAnswersNothing(service, decode, states, calls, results, m, n - 1);
    }
    assert (states[n + 1], results[n]) == Requested(service, decode, states[n], calls[n]);
    var request := Request(states[n].nextRequestId, calls[n].name, calls[n].params);
    CutStays(service, states[n].wire, request, calls[n].chance);
  }

  lemma CutStays(service: Service, wire: Wire, request: Request, chance: Chance)
    ensures Deliver(service, wire, request, chance).cut == wire.cut
    ensures forall n: nat, sent: Wire :: Garble(sent, n).cut == sent.cut
    ensures forall takes, sent: Wire :: Taken(sent, takes).cut == sent.cut
  {
  }

  // ---- Runs in which no frame is torn and no answer cut ----

  /** The answers a call leaves behind it, between frames. */
  function LeftBy(fault: Fault): nat {
    match fault
    case WriteFails(delivered, garbled, _) => garbled + if delivered then 1 else 0
    case ReadFails(consumed, _) => if consumed then 0 else 1
    case _ => 0
  }

  function Left(calls: seq<Call>): nat {
    if calls == [] then 0 else Left(calls[..|calls| - 1]) + LeftBy(calls[|calls| - 1].fault)
  }

  /** The call leaves a frame or an answer in pieces. */
  predicate Breaks(call: Call) {
    (call.fault.WriteFails? && call.fault.tears) || (call.fault.ReadFails? && call.fault.cut)
  }

  lemma WholeStep<V>(service: Service, decode: Decoder<V>, s: State, call: Call)
    requires !s.wire.torn && !s.wire.cut && !Breaks(call)
    ensures
      var wire := Requested(service, decode, s, call).0.wire;
      !wire.torn && !wire.cut && |wire.pipe| == |s.wire.pipe| + LeftBy(call.fault)
  {
  }

  /** The pipe never gets shorter: it holds every answer left there. */
  lemma {:induction false} PipeHoldsWhatIsLeft<V>(service: Service, decode: Decoder<V>, states: seq<State>,
                                                  calls: seq<Call>, results: seq<Result<V, ClientError>>, n: nat)
    requires IsRun(service, decode, states, calls, results) && n < |states|
    requires forall i :: 0 <= i < n ==> !Breaks(calls[i])
    ensures !states[n].wire.torn && !states[n].wire.cut && |states[n].wire.pipe| == Left(calls[..n])
  {
    hide Requested, LeftBy, Breaks;
    if n > 0 {
      PipeHoldsWhatIsLeft(service, decode, states, calls, results, n - 1);
      WholeStep(service, decode, states[n - 1], calls[n - 1]);
      assert (states[n - 1 + 1], results[n - 1]) == Requested(service, decode, states[n - 1], calls[n - 1]);
      assert calls[..n][..n - 1] == calls[..n - 1];
    }
  }

  lemma {:induction false} NoneLeft(calls: seq<Call>)
    ensures Left(calls) == 0 <==> forall i :: 0 <= i < |calls| ==> LeftBy(calls[i].fault) == 0
  {
    if calls != [] {
      NoneLeft(calls[..|calls| - 1]);
    }
  }

  lemma RunShape<V>(service: Service, decode: Decoder<V>, states: seq<State>, calls: seq<Call>,
                    results: seq<Result<V, ClientError>>)
    requires IsRun(service, decode, states, calls, results)
    ensures |states| == |calls| + 1 == |results| + 1
  {
  }

  /** While no frame has been torn and no answer cut, a call that does not itself fail
      is answered exactly when no call before it left an answer behind: one stray answer
      makes every later call a mismatch. */
  lemma AnsweredUnlessBehind<V>(service: Service, decode: Decoder<V>, states: seq<State>, calls: seq<Call>,
                                results: seq<Result<V, ClientError>>, n: nat)
    requires IsRun(service, decode, states, calls, results) && n < |calls| && calls[n].fault.NoFault?
    requires forall i :: 0 <= i < n ==> !Breaks(calls[i])
    ensures
      var request := Request(n + 1, calls[n].name, calls[n].params);
      if forall i :: 0 <= i < n ==> LeftBy(calls[i].fault) == 0 then
        results[n] == Reading(decode, service(states[n].wire.handled + [request]))
      else results[n].Err? && results[n].error.ResponseIdMismatch?
  {
    hide IsRun, Reading, LeftBy, Breaks;
    assert n < |results| && n + 1 < |states| by {
      RunShape(service, decode, states, calls, results);
    }
    PipeHoldsWhatIsLeft(service, decode, states, calls, results, n);
    NoneLeft(calls[..n]);
    AnsweredWhenClean(service, decode, states, calls, results, n);
  }

  /** Without faults every call is answered and the pipe is empty between calls. */
  lemma FaultFreeRuns<V>(service: Service, decode: Decoder<V>, states: seq<State>, calls: seq<Call>,
                         results: seq<Result<V, ClientError>>, n: nat)
    requires IsRun(service, decode, states, calls, results) && n < |calls|
    requires forall i :: 0 <= i < |calls| ==> calls[i].fault.NoFault?
    ensures Clean(states[n].wire) && Clean(states[n + 1].wire)
    ensures
      var request := Request(n + 1, calls[n].name, calls[n].params);
      results[n] == Reading(decode, service(states[n].wire.handled + [request]))
  {
    hide OnlyOld, Decimal, Requested;
    PipeHoldsWhatIsLeft(service, decode, states, calls, results, n);
    NoneLeft(calls[..n]);
    AnsweredWhenClean(service, decode, states, calls, results, n);
  }
}
