/** The open entry point of jni_seam.rs: it may lose its answer at any JNI call,
    and must then not leave behind the session that answer would have named. */
module JniSeam {
  import opened Basics
  import opened SessionRegistry
  import T = SessionTable

  class JavaArray {
    var contents: Bytes

    constructor (contents: Bytes)
      ensures this.contents == contents
    {
      this.contents := contents;
    }
  }

  /** The calling thread's JNI environment. Every call below except the exception
      check requires that no exception is pending, so a caller that verifies
      never asks anything else of JNI while one is. What each call does is the
      JVM's choice, passed in. */
  class JniEnv {
    var pending: bool

    method GetArrayLength(request: JavaArray, raises: bool, length: int) returns (reported: int)
      requires !pending
      modifies this
      ensures pending == raises && reported == length
    {
      pending, reported := raises, length;
    }

    method GetByteArrayRegion(request: JavaArray, length: nat, raises: bool) returns (bytes: Bytes)
      requires !pending
      modifies this
      ensures pending == raises
      ensures |bytes| == length
      ensures !raises && length <= |request.contents| ==> bytes == request.contents[..length]
    {
      pending := raises;
      bytes := if length <= |request.contents| then request.contents[..length] else seq(length, _ => 0);
    }

    method NewByteArray(length: nat, fails: bool, raises: bool) returns (answer: JavaArray?)
      requires !pending
      modifies this
      ensures pending == raises && (answer == null <==> fails)
      ensures answer != null ==> fresh(answer) && |answer.contents| == length
    {
      pending := raises;
      answer := null;
      if !fails {
        answer := new JavaArray(seq(length, _ => 0));
      }
    }

    method SetByteArrayRegion(answer: JavaArray, bytes: Bytes, raises: bool)
      requires !pending && |answer.contents| == |bytes|
      modifies this, answer
      ensures pending == raises
      ensures !raises ==> answer.contents == bytes
      ensures raises ==> |answer.contents| == |bytes|
    {
      pending := raises;
      answer.contents := bytes;
    }
  }

  /** The JVM's choices over one entry-point call. */
  datatype Jvm = Jvm(
    lengthRaises: bool, length: int, readRaises: bool, newFails: bool, newRaises: bool, fillRaises: bool)

  datatype Encoding = Written(bytes: Bytes) | Oversized | Failed

  /** The wire codec: decoding a request, and encoding answers and refusals. */
  datatype Codec = Codec(
    decodeOpen: Bytes -> Result<T.OpenRequest<Binding>, T.Refusal>,
    writeOpened: T.Entry<Binding> -> Encoding,
    encodeRefusal: T.Refusal -> Bytes)

  datatype Argument = Request(bytes: Bytes) | Refused(refusal: T.Refusal) | Pending
  datatype Served = Served(response: Bytes, created: Option<int>)

  const MAX_REQUEST_BYTES := 64 * 1024
  const MAX_JSIZE := 0x7fff_ffff

  /** What a JVM that reports lengths truthfully makes of a request. */
  function ArgumentOf(pending: bool, request: Option<Bytes>, limit: nat, jvm: Jvm): Argument {
    if pending then Pending
    else if request.None? then Refused(T.MalformedRequest)
    else if jvm.lengthRaises then Pending
    else if |request.value| > limit then Refused(T.Bounded(T.RequestBytes))
    else if jvm.readRaises then Pending
    else Request(request.value)
  }

  ghost function Contents(request: JavaArray?): Option<Bytes>
    reads request
  {
    if request == null then None else Some(request.contents)
  }

  /** Copies a request out of the JVM, refusing an oversized one before it
      allocates for it. */
  method ReadRequest(env: JniEnv, request: JavaArray?, limit: nat, jvm: Jvm) returns (argument: Argument)
    modifies env
    ensures argument.Pending? <==> env.pending
    ensures old(env.pending) ==> argument.Pending?
    ensures argument.Request? ==> |argument.bytes| <= limit && request != null
    ensures request == null || jvm.length == |request.contents| ==>
            argument == ArgumentOf(old(env.pending), Contents(request), limit, jvm)
    ensures !old(env.pending) && request != null && !jvm.lengthRaises && jvm.length > limit ==>
            argument == Refused(T.Bounded(T.RequestBytes)) && !env.pending
  {
    if env.pending {
      return Pending;
    }
    if request == null {
      return Refused(T.MalformedRequest);
    }
    var length := env.GetArrayLength(request, jvm.lengthRaises, jvm.length);
    if env.pending {
      return Pending;
    }
    if length < 0 {
      return Refused(T.MalformedRequest);
    }
    if length > limit {
      return Refused(T.Bounded(T.RequestBytes));
    }
    var bytes := env.GetByteArrayRegion(request, length, jvm.readRaises);
    if env.pending {
      return Pending;
    }
    argument := Request(bytes);
  }

  /** What is made of a request, ground by ground. */
  lemma ArgumentSays(pending: bool, request: Option<Bytes>, limit: nat, jvm: Jvm)
    ensures
      var a := ArgumentOf(pending, request, limit, jvm);
      && (a.Request? <==> WasRead(pending, request, limit, jvm))
      && (a.Request? ==> request == Some(a.bytes))
      && (a.Refused? ==> a.refusal == if request.None? then T.MalformedRequest else T.Bounded(T.RequestBytes))
      && (a == Refused(T.MalformedRequest) <==> !pending && request.None?)
      && (a == Refused(T.Bounded(T.RequestBytes)) <==>
            !pending && request.Some? && !jvm.lengthRaises && |request.value| > limit)
      && (a == Pending <==>
            pending || (request.Some? && (jvm.lengthRaises || (|request.value| <= limit && jvm.readRaises))))
  {
  }

  /** The request reaches the adapter. */
  ghost predicate WasRead(pending: bool, request: Option<Bytes>, limit: nat, jvm: Jvm) {
    !pending && request.Some? && !jvm.lengthRaises && |request.value| <= limit && !jvm.readRaises
  }

  predicate Delivers(bytes: Bytes, jvm: Jvm) {
    |bytes| <= MAX_JSIZE && !jvm.newFails && !jvm.newRaises && !jvm.fillRaises
  }

  /** Allocates the answer and fills it. A null return is an answer that did not
      reach Java; otherwise the array holds exactly the bytes. */
  method NewByteArray(env: JniEnv, bytes: Bytes, jvm: Jvm) returns (answer: JavaArray?)
    modifies env
    ensures answer != null ==> fresh(answer) && answer.contents == bytes && !env.pending
    ensures answer != null <==> !old(env.pending) && Delivers(bytes, jvm)
    ensures answer != null <==>
            !old(env.pending) && |bytes| <= MAX_JSIZE && !jvm.newFails && !jvm.newRaises && !jvm.fillRaises
  {
    if env.pending {
      return null;
    }
    if |bytes| > MAX_JSIZE {
      return null;
    }
    answer := env.NewByteArray(|bytes|, jvm.newFails, jvm.newRaises);
    if answer == null || env.pending {
      return null;
    }
    env.SetByteArrayRegion(answer, bytes, jvm.fillRaises);
    if env.pending {
      return null;
    }
  }

  function Undeliverable(encoding: Encoding): T.Refusal {
    if encoding.Oversized? then T.Bounded(T.ResponseBytes) else T.EncodingFailed
  }

  /** The session a request opens, with the bytes that announce it, or why it does
      not. */
  function OpenAnswer(before: T.Table<Binding>, capability: T.Capability, request: Bytes, codec: Codec,
                      engineStarts: bool)
    : (r: Result<(T.Entry<Binding>, Bytes), T.Refusal>)
    ensures r.Ok? ==> codec.writeOpened(r.value.0) == Written(r.value.1)
  {
    match codec.decodeOpen(request)
    case Err(refusal) => Err(refusal)
    case Ok(decoded) =>
      match T.Open(before, capability, decoded, engineStarts).1
      case Err(refusal) => Err(refusal)
      case Ok(entry) =>
        match codec.writeOpened(entry)
        case Written(bytes) => Ok((entry, bytes))
        case encoding => Err(Undeliverable(encoding))
  }

  /** What the entry point answers, unless an exception is pending. */
  function EntryAnswer(before: T.Table<Binding>, capability: T.Capability, argument: Argument, codec: Codec,
                       engineStarts: bool)
    : Option<Result<(T.Entry<Binding>, Bytes), T.Refusal>>
  {
    match argument
    case Pending => None
    case Refused(refusal) => Some(Err(refusal))
    case Request(bytes) => Some(OpenAnswer(before, capability, bytes, codec, engineStarts))
  }

  /** The request opens the session of the next identity, and `opening` announces it. */
  ghost predicate Admits(before: T.Table<Binding>, capability: T.Capability, request: Bytes, codec: Codec,
                         engineStarts: bool, opening: Bytes)
  {
    codec.decodeOpen(request).Ok? &&
    var d := codec.decodeOpen(request).value;
    && MayOpen(before, capability, d, engineStarts)
    && codec.writeOpened(T.Entry(before.next, capability, d.binding)) == Written(opening)
  }

  ghost predicate MayOpen(before: T.Table<Binding>, capability: T.Capability, d: T.OpenRequest<Binding>,
                          engineStarts: bool)
  {
    && d.capability == capability && d.context.violatedBound.None? && d.context.pathsNamed
    && |before.open| < T.MAX_OPEN_SESSIONS && before.next < T.MAX_IDENTITY && engineStarts
  }

  /** The ground the request is refused on: the decoder's, the table's, or that the
      opening cannot be written. */
  ghost predicate Refuses(before: T.Table<Binding>, capability: T.Capability, request: Bytes, codec: Codec,
                          engineStarts: bool, refusal: T.Refusal)
  {
    match codec.decodeOpen(request)
    case Err(undecoded) => refusal == undecoded
    case Ok(d) =>
      if !MayOpen(before, capability, d, engineStarts) then
        T.Open(before, capability, d, engineStarts).1 == Err(refusal)
      else
        var encoding := codec.writeOpened(T.Entry(before.next, capability, d.binding));
        || (encoding.Oversized? && refusal == T.Bounded(T.ResponseBytes))
        || (encoding.Failed? && refusal == T.EncodingFailed)
  }

  /** A request is admitted with the one opening of its session, or refused on one
      ground. */
  lemma OpenAnswerSays(before: T.Table<Binding>, capability: T.Capability, request: Bytes, codec: Codec,
                       engineStarts: bool)
    requires T.Inv(before)
    ensures
      var r := OpenAnswer(before, capability, request, codec, engineStarts);
      && (forall opening :: Admits(before, capability, request, codec, engineStarts, opening) <==>
            r.Ok? && opening == r.value.1)
      && (r.Ok? ==>
            r.value.0.identity == before.next && r.value.0.capability == capability)
      && (r.Err? ==> Refuses(before, capability, request, codec, engineStarts, r.error))
  {
    if codec.decodeOpen(request).Ok? {
      var d := codec.decodeOpen(request).value;
      T.OpensExactlyWhen(before, capability, d, engineStarts);
      hide T.Open;
      if OpenAnswer(before, capability, request, codec, engineStarts).Ok? {
        var opening := OpenAnswer(before, capability, request, codec, engineStarts).value.1;
        assert Admits(before, capability, request, codec, engineStarts, opening);
      }
    }
  }

  /** The table after an open whose session is in it or not. */
  ghost predicate LeavesBehind(before: T.Table<Binding>, after: T.Table<Binding>, created: Option<int>) {
    && before.next <= after.next
    && match created
       case None => after.open == before.open
       case Some(identity) =>
         && identity == before.next < after.next
         && |after.open| == |before.open| + 1
         && after.open[..|before.open|] == before.open
         && after.open[|before.open|].identity == identity
  }

  lemma AbandonedLeavesNothing(before: T.Table<Binding>, after: T.Table<Binding>, identity: int)
    requires T.Inv(after) && LeavesBehind(before, after, Some(identity))
    ensures T.Abandon(after, identity).1
    ensures LeavesBehind(before, T.Abandon(after, identity).0, None)
  {
    T.PositionOf(after, |before.open|);
  }

  lemma OnlyLatest(sessions: Registry, identity: int)
    requires sessions.Valid() && sessions.open != []
    requires sessions.open[|sessions.open| - 1].identity == identity
    ensures forall s :: s in sessions.open && s.identity == identity ==> s == sessions.open[|sessions.open| - 1]
  {
    forall i | 0 <= i < |sessions.open| && sessions.open[i].identity == identity
      ensures i == |sessions.open| - 1
    {
      T.PositionOf(sessions.View(), i);
      T.PositionOf(sessions.View(), |sessions.open| - 1);
    }
  }

  /** Retires the session just opened, whose answer will not be delivered. */
  method Retract(sessions: Registry, identity: int, ghost before: T.Table<Binding>)
    requires sessions.Valid() && LeavesBehind(before, sessions.View(), Some(identity))
    modifies sessions, sessions.open[|before.open|]
    ensures sessions.Valid() && LeavesBehind(before, sessions.View(), None)
    ensures forall s :: s in sessions.open ==> s in old(sessions.open)
  {
    AbandonedLeavesNothing(before, sessions.View(), identity);
    OnlyLatest(sessions, identity);
    var retired := sessions.Abandon(identity, false);
  }

  /** Serves one open request. It answers either with the written opening of a
      session that is in the table, or with a refusal and no session. */
  method ServeOpen(sessions: Registry, capability: T.Capability, request: Bytes,
                   codec: Codec, engineStarts: bool)
    returns (served: Served)
    requires sessions.Valid()
    modifies sessions
    ensures sessions.Valid()
    ensures LeavesBehind(old(sessions.View()), sessions.View(), served.created)
    ensures forall s :: s in sessions.open ==> s in old(sessions.open) || fresh(s)
    ensures match OpenAnswer(old(sessions.View()), capability, request, codec, engineStarts)
            case Ok((entry, bytes)) =>
              served == Served(bytes, Some(entry.identity)) && sessions.View().open[|old(sessions.open)|] == entry
            case Err(refusal) => served == Served(codec.encodeRefusal(refusal), None)
    ensures served.created.Some? ==> fresh(sessions.open[|old(sessions.open)|])
    ensures served.created.Some? <==>
            exists opening :: Admits(old(sessions.View()), capability, request, codec, engineStarts, opening)
    ensures served.created.Some? ==>
            && served.created.value == old(sessions.next)
            && Admits(old(sessions.View()), capability, request, codec, engineStarts, served.response)
    ensures served.created.None? ==> exists refusal ::
              && Refuses(old(sessions.View()), capability, request, codec, engineStarts, refusal)
              && served.response == codec.encodeRefusal(refusal)
  {
    OpenAnswerSays(sessions.View(), capability, request, codec, engineStarts);
    hide Admits, Refuses;
    var decoded := codec.decodeOpen(request);
    if decoded.Err? {
      return Served(codec.encodeRefusal(decoded.error), None);
    }
    ghost var before := sessions.View();
    var created := sessions.Open(capability, decoded.value, engineStarts);
    if created.Err? {
      return Served(codec.encodeRefusal(created.error), None);
    }
    var encoding := codec.writeOpened(created.value);
    if encoding.Written? {
      assert Admits(before, capability, request, codec, engineStarts, encoding.bytes);
      return Served(encoding.bytes, Some(created.value.identity));
    }
    Retract(sessions, created.value.identity, before);
    served := Served(codec.encodeRefusal(Undeliverable(encoding)), None);
  }

  /** The answer is these bytes, if the JVM takes them. */
  ghost predicate Answers(answer: JavaArray?, bytes: Bytes, jvm: Jvm)
    reads answer
  {
    (answer != null <==> Delivers(bytes, jvm)) && (answer != null ==> answer.contents == bytes)
  }

  /** The request was read and admitted, and the JVM takes its opening. */
  ghost predicate Opens(before: T.Table<Binding>, pending: bool, request: Option<Bytes>, capability: T.Capability,
                        codec: Codec, engineStarts: bool, jvm: Jvm, opening: Bytes)
  {
    && WasRead(pending, request, MAX_REQUEST_BYTES, jvm)
    && Admits(before, capability, request.value, codec, engineStarts, opening)
    && |opening| <= MAX_JSIZE && !jvm.newFails && !jvm.newRaises && !jvm.fillRaises
  }

  /** The ground the answer names when no session was opened. */
  ghost predicate Grounds(before: T.Table<Binding>, pending: bool, request: Option<Bytes>, capability: T.Capability,
                          codec: Codec, engineStarts: bool, jvm: Jvm, refusal: T.Refusal)
  {
    if WasRead(pending, request, MAX_REQUEST_BYTES, jvm) then
      Refuses(before, capability, request.value, codec, engineStarts, refusal)
    else refusal == if request.None? then T.MalformedRequest else T.Bounded(T.RequestBytes)
  }

  /** A session is added exactly when the request opens one, and the answer is its
      opening; any other answer is a refusal that names its ground. */
  ghost predicate Outcome(before: T.Table<Binding>, after: T.Table<Binding>, pending: bool, request: Option<Bytes>,
                          capability: T.Capability, codec: Codec, engineStarts: bool, jvm: Jvm, answer: Option<Bytes>)
  {
    && (|after.open| > |before.open| <==>
          exists opening :: Opens(before, pending, request, capability, codec, engineStarts, jvm, opening))
    && (|after.open| > |before.open| ==>
          answer.Some? && Opens(before, pending, request, capability, codec, engineStarts, jvm, answer.value))
    && (answer.Some? && |after.open| == |before.open| ==>
          exists refusal ::
            && Grounds(before, pending, request, capability, codec, engineStarts, jvm, refusal)
            && answer.value == codec.encodeRefusal(refusal))
  }

  lemma OutcomeFollows(before: T.Table<Binding>, after: T.Table<Binding>, pending: bool, request: Option<Bytes>,
                       capability: T.Capability, codec: Codec, engineStarts: bool, jvm: Jvm, answer: Option<Bytes>)
    requires T.Inv(before)
    requires
             var argument := ArgumentOf(pending, request, MAX_REQUEST_BYTES, jvm);
             match EntryAnswer(before, capability, argument, codec, engineStarts)
             case None => answer.None? && after.open == before.open
             case Some(Err(refusal)) =>
               after.open == before.open && (answer.Some? ==> answer.value == codec.encodeRefusal(refusal))
             case Some(Ok((entry, opening))) =>
               && (answer.Some? <==> Delivers(opening, jvm)) && (answer.Some? ==> answer.value == opening)
               && after.open == if answer.Some? then before.open + [entry] else before.open
    ensures Outcome(before, after, pending, request, capability, codec, engineStarts, jvm, answer)
  {
    hide OpenAnswer, ArgumentOf, Admits, Refuses, WasRead;
    ArgumentSays(pending, request, MAX_REQUEST_BYTES, jvm);
    if request.Some? {
      OpenAnswerSays(before, capability, request.value, codec, engineStarts);
    }
    match EntryAnswer(before, capability, ArgumentOf(pending, request, MAX_REQUEST_BYTES, jvm), codec, engineStarts) {
      case Some(Err(refusal)) =>
        assert Grounds(before, pending, request, capability, codec, engineStarts, jvm, refusal);
      case Some(Ok((_, opening))) =>
        assert Delivers(opening, jvm) ==>
          Opens(before, pending, request, capability, codec, engineStarts, jvm, opening);
      case None =>
    }
  }

  /** Opens one session and hands the JVM its answer. Whatever the JVM does, a
      session is left in the table exactly when the returned array holds the
      written opening of it, and every session opened before is as it was. */
  method Opened(env: JniEnv, sessions: Registry, request: JavaArray?, capability: T.Capability,
                codec: Codec, engineStarts: bool, jvm: Jvm)
    returns (answer: JavaArray?)
    requires sessions.Valid()
    modifies env, sessions
    ensures sessions.Valid()
    ensures var before, after := old(sessions.View()), sessions.View();
            if answer != null && |after.open| > |before.open|
            then LeavesBehind(before, after, Some(before.next))
                 && codec.writeOpened(after.open[|before.open|]) == Written(answer.contents)
            else LeavesBehind(before, after, None)
    ensures answer == null ==> sessions.View().open == old(sessions.View()).open
    ensures answer != null && sessions.View().open == old(sessions.View()).open ==>
            exists refusal :: answer.contents == codec.encodeRefusal(refusal)
    ensures old(env.pending) ==> answer == null && sessions.View() == old(sessions.View())
    ensures request == null || jvm.length == |old(request.contents)| ==>
            var argument := ArgumentOf(old(env.pending), old(Contents(request)), MAX_REQUEST_BYTES, jvm);
            match EntryAnswer(old(sessions.View()), capability, argument, codec, engineStarts)
            case None => answer == null
            case Some(Err(refusal)) => Answers(answer, codec.encodeRefusal(refusal), jvm)
            case Some(Ok((entry, opening))) =>
              Answers(answer, opening, jvm)
              && (answer != null ==> sessions.View().open == old(sessions.View()).open + [entry])
    ensures request == null || jvm.length == |old(request.contents)| ==>
            Outcome(old(sessions.View()), sessions.View(), old(env.pending), old(Contents(request)), capability,
                    codec, engineStarts, jvm, Contents(answer))
  {
    hide OpenAnswer, ArgumentOf, Delivers, Outcome;
    ghost var before, pending, given := sessions.View(), env.pending, Contents(request);
    var argument := ReadRequest(env, request, MAX_REQUEST_BYTES, jvm);
    var served: Served;
    match argument {
      case Pending =>
        if request == null || jvm.length == |old(request.contents)| {
          OutcomeFollows(before, sessions.View(), pending, given, capability, codec, engineStarts, jvm, None);
        }
        return null;
      case Refused(refusal) =>
        served := Served(codec.encodeRefusal(refusal), None);
      case Request(bytes) =>
        served := ServeOpen(sessions, capability, bytes, codec, engineStarts);
    }
    answer := NewByteArray(env, served.response, jvm);
    if answer == null && served.created.Some? {
      Retract(sessions, served.created.value, before);
    }
    if request == null || jvm.length == |old(request.contents)| {
      OutcomeFollows(before, sessions.View(), pending, given, capability, codec, engineStarts, jvm, Contents(answer));
    }
  }
}
