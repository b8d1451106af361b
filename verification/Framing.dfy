/** How messages are framed on the pipe (slipbox-rpc/src/lib.rs): a header that says
    how long the body is, an empty line, and the body. Text stands for bytes. */
module Framing {
  import opened Basics
  import opened Splitting
  import opened Text

  const MAX_LENGTH := 0xFFFF_FFFF_FFFF_FFFF
  const END_OF_HEADERS := "\r\n"

  datatype FrameError = InvalidHeader | InvalidLength | MissingLength | TruncatedBody

  /** What a read comes to, and what it leaves in the stream. */
  datatype Frame = EndOfStream | Message(body: string, rest: string) | Failed(error: FrameError, rest: string)

  function HeaderLine(body: string): string {
    "Content-Length: " + Decimal(|body|)
  }

  function Framed(body: string): string {
    HeaderLine(body) + "\r\n\r\n" + body
  }

  /** A line with its end, and what follows it. */
  function ReadLine(s: string): (r: (string, string))
    ensures s == r.0 + r.1 && (r.0 == [] <==> s == [])
  {
    if s == [] then ([], [])
    else if s[0] == '\n' then ([s[0]], s[1..])
    else
      var (line, rest) := ReadLine(s[1..]);
      ([s[0]] + line, rest)
  }

  function TrimLineEnd(s: string): string {
    if s != [] && (s[|s| - 1] == '\r' || s[|s| - 1] == '\n') then TrimLineEnd(s[..|s| - 1]) else s
  }

  /** The length known after a header line. */
  function HeaderLength(line: string, length: Option<nat>): Result<Option<nat>, FrameError> {
    match SplitOnce(TrimLineEnd(line), ':')
    case None => Err(InvalidHeader)
    case Some((name, value)) =>
      if Lower(name) != "content-length" then Ok(length)
      else
        match ParseUnsigned(Trim(value), MAX_LENGTH)
        case None => Err(InvalidLength)
        case Some(n) => Ok(Some(n))
  }

  function Body(rest: string, length: Option<nat>): Frame {
    match length
    case None => Failed(MissingLength, rest)
    case Some(n) => if n > |rest| then Failed(TruncatedBody, []) else Message(rest[..n], rest[n..])
  }

  /** Reading on, with the length known so far. */
  function Reading(stream: string, length: Option<nat>): Frame
    decreases |stream|
  {
    var (line, rest) := ReadLine(stream);
    if line == [] then EndOfStream
    else if line == END_OF_HEADERS then Body(rest, length)
    else
      assert |stream| == |line| + |rest|;
      match HeaderLength(line, length)
      case Err(error) => Failed(error, rest)
      case Ok(known) => Reading(rest, known)
  }

  method ReadFramed(stream: string) returns (frame: Frame)
    ensures frame == Reading(stream, None)
  {
    var length: Option<nat> := None;
    var left := stream;
    while true
      invariant Reading(stream, None) == Reading(left, length)
      decreases |left|
    {
      var (line, rest) := ReadLine(left);
      assert |left| == |line| + |rest|;
      if line == [] {
        return EndOfStream;
      }
      if line == END_OF_HEADERS {
        return Body(rest, length);
      }
      var known := HeaderLength(line, length);
      if known.Err? {
        return Failed(known.error, rest);
      }
      length, left := known.value, rest;
    }
  }

  lemma {:induction false} LineIsRead(a: string, rest: string)
    requires '\n' !in a
    ensures ReadLine(a + "\n" + rest) == (a + "\n", rest)
  {
    var s := a + "\n" + rest;
    if a == [] {
      assert s[1..] == rest;
    } else {
      assert s[1..] == a[1..] + "\n" + rest;
      LineIsRead(a[1..], rest);
      assert [a[0]] + (a[1..] + "\n") == a + "\n";
    }
  }

  lemma LengthIsRead(n: nat)
    requires n <= MAX_LENGTH
    ensures HeaderLength("Content-Length: " + Decimal(n) + "\r\n", None) == Ok(Some(n))
  {
    hide Decimal, DecimalValue, Trim, SplitOnce;
    var digits := Decimal(n);
    var line, spaced := "Content-Length: " + digits, " " + digits;
    LineEndIsTrimmed(line);
    assert line + "\r\n" == "Content-Length: " + digits + "\r\n";
    assert line == "Content-Length" + [':'] + spaced;
    SplitAtFirst("Content-Length", ':', spaced);
    assert Lower("Content-Length") == "content-length";
    SpaceIsTrimmed(spaced, digits);
    DecimalValueOfDecimal(n);
  }

  lemma LineEndIsTrimmed(line: string)
    requires line != [] && IsDigit(line[|line| - 1])
    ensures TrimLineEnd(line + "\r\n") == line
  {
    var once, twice := line + "\r", line + "\r\n";
    assert once[..|line|] == line && twice[..|line| + 1] == once;
    assert TrimLineEnd(line) == line;
    assert TrimLineEnd(once) == TrimLineEnd(once[..|line|]);
    assert TrimLineEnd(twice) == TrimLineEnd(twice[..|line| + 1]);
  }

  lemma SpaceIsTrimmed(spaced: string, digits: string)
    requires digits != [] && AllDigits(digits) && spaced != [] && spaced[0] == ' ' && spaced[1..] == digits
    ensures Trim(spaced) == digits
  {
    assert TrimStart(digits) == digits;
    assert TrimStart(spaced) == TrimStart(spaced[1..]);
  }

  /** A framed body is read back whole, and nothing after it is touched. */
  lemma FrameRoundTrip(body: string, rest: string)
    requires |body| <= MAX_LENGTH
    ensures Reading(Framed(body) + rest, None) == Message(body, rest)
  {
    hide Decimal, HeaderLength, ReadLine;
    var header := HeaderLine(body) + "\r";
    var stream := Framed(body) + rest;
    var after := "\r\n" + body + rest;
    assert stream == header + "\n" + after;
    LineIsRead(header, after);
    assert header + "\n" == HeaderLine(body) + "\r\n";
    LengthIsRead(|body|);
    assert after == "\r" + "\n" + (body + rest);
    LineIsRead("\r", body + rest);
  }

  /** A frame that was cut short in its body takes the bytes it lacks from whatever is
      written next, and what is left of that is read as if it were the next frame. */
  lemma TornFrameSwallows(body: string, k: nat, next: string)
    requires k < |body| <= MAX_LENGTH && |body| - k <= |next|
    ensures
      var header, taken := HeaderLine(body) + "\r\n\r\n", |body| - k;
      && Framed(body) == header + body
      && Reading(header + body[..k] + next, None) == Message(body[..k] + next[..taken], next[taken..])
  {
    hide Decimal, Reading;
    var header, taken := HeaderLine(body) + "\r\n\r\n", |body| - k;
    var mixed := body[..k] + next[..taken];
    assert |mixed| == |body| && Framed(mixed) == header + mixed && Framed(body) == header + body;
    hide Framed;
    FrameRoundTrip(mixed, next[taken..]);
    Regrouped(header, body[..k], next[..taken], next[taken..]);
    assert next == next[..taken] + next[taken..];
  }

  // ---- Frames with other headers ----

  datatype Header = Header(name: string, value: string)
  {
    predicate Valid() {
      && ':' !in name && '\n' !in name && '\n' !in value
      && (value != [] ==> value[|value| - 1] != '\r')
    }

    function Text(): string {
      name + [':'] + value
    }

    predicate TellsLength() {
      Lower(name) == "content-length"
    }

    function Length(): Option<nat> {
      ParseUnsigned(Trim(value), MAX_LENGTH)
    }
  }

  function HeadersText(headers: seq<Header>): string {
    if headers == [] then [] else headers[0].Text() + "\r\n" + HeadersText(headers[1..])
  }

  ghost predicate GoodHeaders(headers: seq<Header>) {
    forall i :: 0 <= i < |headers| ==> headers[i].Valid() && (headers[i].TellsLength() ==> headers[i].Length().Some?)
  }

  lemma HeaderIsRead(h: Header, known: Option<nat>)
    requires h.Valid()
    ensures HeaderLength(h.Text() + "\r\n", known) ==
            if !h.TellsLength() then Ok(known) else if h.Length().None? then Err(InvalidLength) else Ok(h.Length())
  {
    hide SplitOnce, Trim, Lower, ParseUnsigned;
    var line := h.Text();
    assert line[|line| - 1] == if h.value == [] then ':' else h.value[|h.value| - 1];
    TextEndIsTrimmed(line);
    SplitAtFirst(h.name, ':', h.value);
  }

  lemma TextEndIsTrimmed(line: string)
    requires line != [] && line[|line| - 1] != '\r' && line[|line| - 1] != '\n'
    ensures TrimLineEnd(line + "\r\n") == line
  {
    var once, twice := line + "\r", line + "\r\n";
    assert once[..|line|] == line && twice[..|line| + 1] == once;
    assert TrimLineEnd(line) == line;
    assert TrimLineEnd(once) == TrimLineEnd(once[..|line|]);
    assert TrimLineEnd(twice) == TrimLineEnd(twice[..|line| + 1]);
  }

  /** A line of the header block, and what is read after it. */
  lemma LineOfHeaders(h: Header, after: string, known: Option<nat>)
    requires h.Valid()
    ensures Reading(h.Text() + "\r\n" + after, known) ==
            if !h.TellsLength() then Reading(after, known)
            else if h.Length().None? then Failed(InvalidLength, after)
            else Reading(after, h.Length())
  {
    hide HeaderLength, ReadLine;
    HeaderIsRead(h, known);
    var line := h.Text() + "\r";
    assert h.Text() + "\r\n" + after == line + "\n" + after && line + "\n" == h.Text() + "\r\n";
    LineIsRead(line, after);
    assert ':' in h.Text() && ':' !in END_OF_HEADERS;
  }

  /** Header `i` is the last that tells the length, or `i` is -1 and none does. */
  ghost predicate TellsLast(headers: seq<Header>, i: int) {
    && -1 <= i < |headers| && (i >= 0 ==> headers[i].TellsLength())
    && forall j :: i < j < |headers| ==> !headers[j].TellsLength()
  }

  lemma {:induction false} HeadersAreRead(headers: seq<Header>, i: int, after: string, known: Option<nat>)
    requires GoodHeaders(headers) && TellsLast(headers, i)
    ensures Reading(HeadersText(headers) + after, known) ==
            Reading(after, if i >= 0 then headers[i].Length() else known)
  {
    hide Reading, Trim, Lower, ParseUnsigned;
    if headers == [] {
      assert HeadersText(headers) + after == after;
    } else {
      var h, rest := headers[0], headers[1..];
      var below := HeadersText(rest) + after;
      HeadersBelow(headers, after);
      hide HeadersText;
      LineOfHeaders(h, below, known);
      HeadersAreRead(rest, if i > 0 then i - 1 else -1, after, if h.TellsLength() then h.Length() else known);
    }
  }

  lemma HeadersBelow(headers: seq<Header>, after: string)
    requires headers != []
    ensures HeadersText(headers) + after == headers[0].Text() + "\r\n" + (HeadersText(headers[1..]) + after)
  {
  }

  /** What a reader makes of a header block and what follows it, whatever other headers
      stand in it and in whatever order: the last length told is the body's. */
  lemma FrameWithHeaders(headers: seq<Header>, i: int, stream: string)
    requires GoodHeaders(headers) && TellsLast(headers, i)
    ensures
      Reading(HeadersText(headers) + ("\r\n" + stream), None) ==
      if i < 0 then Failed(MissingLength, stream)
      else
        var n := headers[i].Length().value;
        if n > |stream| then Failed(TruncatedBody, []) else Message(stream[..n], stream[n..])
    ensures Reading(HeadersText(headers), None) == EndOfStream
  {
    hide Reading;
    var known := if i >= 0 then headers[i].Length() else None;
    HeadersAreRead(headers, i, "\r\n" + stream, None);
    EmptyLineEnds(stream, known);
    HeadersAreRead(headers, i, [], None);
    assert HeadersText(headers) + [] == HeadersText(headers);
  }

  lemma EmptyLineEnds(stream: string, known: Option<nat>)
    ensures Reading("\r\n" + stream, known) == Body(stream, known)
    ensures Reading([], known) == EndOfStream
  {
    hide HeaderLength;
    LineIsRead("\r", stream);
    assert "\r" + "\n" + stream == "\r\n" + stream;
  }

  /** A line that is no header, or a length that is no number, stops the reader there. */
  lemma BadHeaderStops(headers: seq<Header>, i: int, line: string, bad: Header, after: string)
    requires GoodHeaders(headers) && TellsLast(headers, i)
    requires ':' !in line && '\n' !in line && line != [] && line[|line| - 1] != '\r'
    requires bad.Valid() && bad.TellsLength() && bad.Length().None?
    ensures Reading(HeadersText(headers) + (line + "\r\n" + after), None) == Failed(InvalidHeader, after)
    ensures Reading(HeadersText(headers) + (bad.Text() + "\r\n" + after), None) == Failed(InvalidLength, after)
  {
    hide ReadLine, Reading;
    HeadersAreRead(headers, i, line + "\r\n" + after, None);
    HeadersAreRead(headers, i, bad.Text() + "\r\n" + after, None);
    var known := if i >= 0 then headers[i].Length() else None;
    LineOfHeaders(bad, after, known);
    LineWithoutColon(line, after, known);
  }

  lemma LineWithoutColon(line: string, after: string, known: Option<nat>)
    requires ':' !in line && '\n' !in line && line != [] && line[|line| - 1] != '\r'
    ensures Reading(line + "\r\n" + after, known) == Failed(InvalidHeader, after)
  {
    hide ReadLine, TrimLineEnd, SplitOnce;
    TextEndIsTrimmed(line);
    var long := line + "\r";
    assert line + "\r\n" + after == long + "\n" + after && long + "\n" == line + "\r\n";
    LineIsRead(long, after);
    assert |long + "\n"| > |END_OF_HEADERS|;
  }

  // ---- A reader that begins inside a frame ----

  /** A message as the original serializes it: not empty, and without raw line feeds. */
  predicate IsBody(s: string) {
    s != [] && '\n' !in s && |s| <= MAX_LENGTH
  }

  /** The stream begins inside a frame, with `rest` after that frame. */
  ghost predicate Inside(stream: string, frame: string, rest: string) {
    exists k :: 0 < k < |frame| && stream == frame[k..] + rest
  }

  lemma {:induction false} TrimEndKeeps(s: string, c: char)
    requires c in s && !IsWhitespace(c)
    ensures c in TrimEnd(s)
  {
    if IsWhitespace(s[|s| - 1]) {
      assert s == s[..|s| - 1] + [s[|s| - 1]];
      TrimEndKeeps(s[..|s| - 1], c);
    }
  }

  lemma {:induction false} TrimKeepsText(s: string, c: char)
    requires c in s && !IsWhitespace(c)
    ensures c in Trim(s)
  {
    if IsWhitespace(s[0]) {
      assert s == [s[0]] + s[1..];
      TrimKeepsText(s[1..], c);
    } else {
      TrimEndKeeps(s, c);
    }
  }

  lemma NotANumber(s: string)
    requires 'C' in s
    ensures ParseUnsigned(Trim(s), MAX_LENGTH).None?
  {
    TrimKeepsText(s, 'C');
    var t := Trim(s);
    var i :| 0 <= i < |t| && t[i] == 'C';
    if t[0] == '+' {
      assert t[1..][i - 1] == 'C';
    }
  }

  /** What is left of a header line after its first character tells no length. */
  lemma CutHeaderTellsNothing(body: string, k: nat)
    requires 0 < k < |HeaderLine(body)|
    ensures HeaderLength(HeaderLine(body)[k..] + "\r\n", None) in {Err(InvalidHeader), Ok(None)}
  {
    hide Decimal, SplitOnce, Trim, TrimLineEnd, ParseUnsigned;
    var name, digits := "Content-Length", Decimal(|body|);
    var line := HeaderLine(body);
    var cut := line[k..];
    LineEndIsTrimmed(cut);
    assert line == name + [':'] + (" " + digits);
    if k <= |name| {
      assert cut == name[k..] + [':'] + (" " + digits);
      SplitAtFirst(name[k..], ':', " " + digits);
      assert |Lower(name[k..])| < |"content-length"|;
    } else {
      assert forall i :: 0 <= i < |cut| ==> cut[i] == ' ' || IsDigit(cut[i]);
      assert ':' !in cut;
    }
  }

  /** Nor does a header line after the end of another frame's body. */
  lemma HeaderAfterTailTellsNothing(tail: string, body: string)
    requires tail != []
    ensures HeaderLength(tail + HeaderLine(body) + "\r\n", None) in {Err(InvalidLength), Ok(None)}
  {
    hide Decimal, SplitOnce, Trim, TrimLineEnd, ParseUnsigned;
    var name, digits := "Content-Length", Decimal(|body|);
    var line := tail + HeaderLine(body);
    LineEndIsTrimmed(line);
    assert line == tail + name + [':'] + (" " + digits);
    match SplitOnce(tail, ':')
    case None =>
      assert ':' !in tail + name;
      SplitAtFirst(tail + name, ':', " " + digits);
      assert |Lower(tail + name)| > |"content-length"|;
    case Some((a, b)) =>
      var value := b + HeaderLine(body);
      assert line == a + [':'] + value;
      SplitAtFirst(a, ':', value);
      assert value[|b|] == 'C';
      NotANumber(value);
  }

  lemma FramedParts(body: string)
    ensures Framed(body) == HeaderLine(body) + "\r\n" + "\r\n" + body
    ensures '\n' !in HeaderLine(body)
  {
  }

  /** A header line that tells no length is followed by a read that fails, after the
      line or after the empty line below it. */
  lemma NoLengthFails(line: string, below: string)
    requires '\n' !in line && (line == "\r" || !HeaderTells(line + "\n"))
    ensures
      var r := Reading(line + "\n" + ("\r\n" + below), None);
      r.Failed? && (r.rest == "\r\n" + below || r.rest == below)
  {
    hide HeaderLength, ReadLine;
    LineIsRead(line, "\r\n" + below);
    LineIsRead("\r", below);
    assert "\r" + "\n" + below == "\r\n" + below;
  }

  /** A header line from which a length is learnt. */
  predicate HeaderTells(line: string) {
    HeaderLength(line, None).Ok? && HeaderLength(line, None).value.Some?
  }

  lemma EmptyLineTellsNothing()
    ensures HeaderLength("\n", None) == Err(InvalidHeader)
  {
    assert "\n"[..0] == "";
  }

  lemma BlankFails(line: string, below: string)
    requires line == "\r" || line == ""
    ensures
      var r := Reading(line + "\n" + below, None);
      r.Failed? && r.rest == below
  {
    hide ReadLine, HeaderLength;
    LineIsRead(line, below);
    EmptyLineTellsNothing();
    assert line + "\n" == if line == "" then "\n" else END_OF_HEADERS;
  }

  lemma CutInHeader(body: string, k: nat, more: string)
    requires IsBody(body) && 0 < k <= |HeaderLine(body)| + 1
    ensures
      var r := Reading(Framed(body)[k..] + more, None);
      r.Failed? && Inside(r.rest, Framed(body), more)
  {
    hide Reading, HeaderLine, Framed, HeaderLength;
    FramedParts(body);
    var frame, h := Framed(body), |HeaderLine(body)|;
    var line := (HeaderLine(body) + "\r")[k..];
    assert '\n' !in HeaderLine(body) + "\r";
    assert frame[k..] + more == line + "\n" + ("\r\n" + (body + more));
    if k < h {
      CutHeaderTellsNothing(body, k);
      assert line + "\n" == HeaderLine(body)[k..] + "\r\n";
    } else if k == h {
      assert line == "\r";
    } else {
      assert line + "\n" == "\n";
      EmptyLineTellsNothing();
    }
    NoLengthFails(line, body + more);
    assert "\r\n" + (body + more) == frame[h + 2..] + more && body + more == frame[h + 4..] + more;
  }

  lemma CutAtBlank(body: string, k: nat, more: string)
    requires IsBody(body) && |HeaderLine(body)| + 2 <= k <= |HeaderLine(body)| + 3
    ensures
      var r := Reading(Framed(body)[k..] + more, None);
      r.Failed? && Inside(r.rest, Framed(body), more)
  {
    hide Reading, HeaderLine, Framed;
    FramedParts(body);
    var frame, h := Framed(body), |HeaderLine(body)|;
    var line := if k == h + 2 then "\r" else "";
    assert frame[k..] + more == line + "\n" + (body + more);
    BlankFails(line, body + more);
    assert body + more == frame[h + 4..] + more;
  }

  lemma CutInBody(body: string, k: nat, next: string, more: string)
    requires IsBody(body) && IsBody(next) && |HeaderLine(body)| + 4 <= k < |Framed(body)|
    ensures
      var r := Reading(Framed(body)[k..] + (Framed(next) + more), None);
      r.Failed? && Inside(r.rest, Framed(next), more)
  {
    hide Reading, HeaderLine, Framed, HeaderLength;
    FramedParts(body);
    FramedParts(next);
    var h := |HeaderLine(next)|;
    var tail, frame := Framed(body)[k..], Framed(next);
    assert tail == body[k - |HeaderLine(body)| - 4..];
    var line := tail + HeaderLine(next) + "\r";
    HeaderAfterTailTellsNothing(tail, next);
    assert line + "\n" == tail + HeaderLine(next) + "\r\n";
    NoLengthFails(line, next + more);
    assert tail + (frame + more) == line + "\n" + ("\r\n" + (next + more));
    assert "\r\n" + (next + more) == frame[h + 2..] + more && next + more == frame[h + 4..] + more;
  }

  /** A read that begins inside a frame fails, wherever it begins, and leaves the
      stream inside that frame or the next: the reader never finds the frames again. */
  lemma ReadInsideFails(body: string, stream: string, next: string, more: string)
    requires IsBody(body) && IsBody(next) && Inside(stream, Framed(body), Framed(next) + more)
    ensures
      var r := Reading(stream, None);
      r.Failed? && (Inside(r.rest, Framed(body), Framed(next) + more) || Inside(r.rest, Framed(next), more))
  {
    hide Reading, HeaderLine, Framed, IsBody, Inside;
    var k := CutAt(stream, Framed(body), Framed(next) + more);
    if k <= |HeaderLine(body)| + 1 {
      CutInHeader(body, k, Framed(next) + more);
    } else if k <= |HeaderLine(body)| + 3 {
      CutAtBlank(body, k, Framed(next) + more);
    } else {
      CutInBody(body, k, next, more);
    }
  }

  lemma CutAt(stream: string, frame: string, more: string) returns (k: nat)
    requires Inside(stream, frame, more)
    ensures 0 < k < |frame| && stream == frame[k..] + more
  {
    k :| 0 < k < |frame| && stream == frame[k..] + more;
  }

  lemma Regrouped(a: string, b: string, c: string, d: string)
    ensures a + b + (c + d) == a + (b + c) + d
  {
  }

  function FramedAll(bodies: seq<string>): string {
    if bodies == [] then [] else Framed(bodies[0]) + FramedAll(bodies[1..])
  }

  /** Every message of a stream, as long as it holds complete frames. */
  function ReadAll(stream: string): (bodies: seq<string>)
    decreases |stream|
  {
    match Reading(stream, None)
    case Message(body, rest) => if |rest| < |stream| then [body] + ReadAll(rest) else [body]
    case _ => []
  }

  /** The pipe is first-in first-out: what was written, message by message, is what
      is read. */
  lemma {:induction false} PipeKeepsOrder(bodies: seq<string>)
    requires forall i :: 0 <= i < |bodies| ==> |bodies[i]| <= MAX_LENGTH
    ensures ReadAll(FramedAll(bodies)) == bodies
  {
    hide Framed, Reading;
    if bodies == [] {
      NothingToRead();
    } else {
      FrameRoundTrip(bodies[0], FramedAll(bodies[1..]));
      FramesAreLonger(bodies[0]);
      PipeKeepsOrder(bodies[1..]);
    }
  }

  lemma NothingToRead()
    ensures Reading([], None) == EndOfStream
  {
  }

  lemma FramesAreLonger(body: string)
    ensures |Framed(body)| > 0
  {
  }
}
