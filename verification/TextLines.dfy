/** Lines, their beginnings and their columns in a text, as the standard library's
    line iterator cuts it. Texts and offsets are in UTF-8 bytes. */
module TextLines {
  import opened Basics

  const LF: Byte := 10
  const CR: Byte := 13

  // ---- Lines and columns of a text ----

  function FirstLf(text: Bytes): (k: nat)
    ensures k <= |text| && (k < |text| ==> text[k] == LF)
    ensures forall i :: 0 <= i < k ==> text[i] != LF
  {
    if text == [] || text[0] == LF then 0 else 1 + FirstLf(text[1..])
  }

  /** The lines of a text, each without its line feed and without a carriage
      return right before that line feed. */
  function Lines(text: Bytes): seq<Bytes> {
    if text == [] then []
    else
      var k := FirstLf(text);
      if k == |text| then [text]
      else [if k > 0 && text[k - 1] == CR then text[..k - 1] else text[..k]] + Lines(text[k + 1..])
  }

  function CountLf(text: Bytes): nat {
    if text == [] then 0 else (if text[0] == LF then 1 else 0) + CountLf(text[1..])
  }

  /** Where line `i` really begins: after the i-th line feed. */
  function LineBegin(text: Bytes, i: nat): nat {
    if i == 0 then 0
    else
      var k := FirstLf(text);
      k + 1 + (if k < |text| then LineBegin(text[k + 1..], i - 1) else 0)
  }

  /** A byte that continues a character begun before it. */
  predicate Continues(b: Byte) {
    0x80 <= b < 0xC0
  }

  /** Characters in a run of UTF-8: the bytes that do not continue one. */
  function CharCount(text: Bytes): nat {
    if text == [] then 0 else (if Continues(text[0]) then 0 else 1) + CharCount(text[1..])
  }

  /** The bytes of one Unicode scalar in UTF-8 (section 3 of RFC 3629). */
  function Encode(scalar: int): (bytes: Bytes)
    requires 0 <= scalar < 0x11_0000
    ensures bytes != []
  {
    if scalar < 0x80 then [scalar]
    else if scalar < 0x800 then [0xC0 + scalar / 64, 0x80 + scalar % 64]
    else if scalar < 0x1_0000 then [0xE0 + scalar / 4096, 0x80 + scalar / 64 % 64, 0x80 + scalar % 64]
    else [0xF0 + scalar / 262144, 0x80 + scalar / 4096 % 64, 0x80 + scalar / 64 % 64, 0x80 + scalar % 64]
  }

  predicate AreScalars(s: seq<int>) {
    forall i :: 0 <= i < |s| ==> 0 <= s[i] < 0x11_0000
  }

  function EncodeAll(s: seq<int>): Bytes
    requires AreScalars(s)
  {
    if s == [] then [] else Encode(s[0]) + EncodeAll(s[1..])
  }

  /** A scalar's first byte begins a character, and every other continues it. */
  lemma EncodedScalar(scalar: int)
    requires 0 <= scalar < 0x11_0000
    ensures !Continues(Encode(scalar)[0])
    ensures forall i :: 1 <= i < |Encode(scalar)| ==> Continues(Encode(scalar)[i])
  {
  }

  lemma CountOfScalar(scalar: int, rest: Bytes)
    requires 0 <= scalar < 0x11_0000
    ensures CharCount(Encode(scalar) + rest) == 1 + CharCount(rest)
  {
    EncodedScalar(scalar);
    var bytes := Encode(scalar);
    assert (bytes + rest)[1..] == bytes[1..] + rest;
    ContinuationsDoNotCount(bytes[1..], rest);
  }

  lemma {:induction false} ContinuationsDoNotCount(bytes: Bytes, rest: Bytes)
    requires forall i :: 0 <= i < |bytes| ==> Continues(bytes[i])
    ensures CharCount(bytes + rest) == CharCount(rest)
  {
    if bytes == [] {
      assert bytes + rest == rest;
    } else {
      assert (bytes + rest)[1..] == bytes[1..] + rest;
      ContinuationsDoNotCount(bytes[1..], rest);
    }
  }

  /** The count is that of the characters a text was encoded from. */
  lemma {:induction false} CharCountIsCharacters(s: seq<int>)
    requires AreScalars(s)
    ensures CharCount(EncodeAll(s)) == |s|
  {
    if s != [] {
      CharCountIsCharacters(s[1..]);
      CountOfScalar(s[0], EncodeAll(s[1..]));
    }
  }

  // ---- Carriage returns ----

  predicate CrLfAt(text: Bytes, i: int)
    requires 0 <= i < |text| - 1
  {
    text[i] == CR && text[i + 1] == LF
  }

  ghost predicate NoCrLf(text: Bytes) {
    forall i :: 0 <= i < |text| - 1 ==> !CrLfAt(text, i)
  }

  lemma NoCrLfInTail(text: Bytes, k: nat)
    requires NoCrLf(text) && k <= |text|
    ensures NoCrLf(text[k..])
  {
    forall i | 0 <= i < |text[k..]| - 1 ensures !CrLfAt(text[k..], i) {
      assert !CrLfAt(text, k + i);
    }
  }

  // ---- Facts about lines ----

  lemma FirstLfIs(text: Bytes, k: nat)
    requires k < |text| && text[k] == LF && LF !in text[..k]
    ensures FirstLf(text) == k
  {
    hide FirstLf;
    assert forall i :: 0 <= i < k ==> text[i] == text[..k][i];
  }

  lemma LinesStep(text: Bytes, k: nat)
    requires k < |text| && text[k] == LF && LF !in text[..k]
    ensures Lines(text) == [if EndsInReturn(text[..k]) then text[..k - 1] else text[..k]] + Lines(text[k + 1..])
    ensures LineBegin(text, 1) == k + 1
  {
    FirstLfIs(text, k);
    hide FirstLf;
    assert EndsInReturn(text[..k]) <==> k > 0 && text[k - 1] == CR;
    var rest := text[k + 1..];
    assert Lines(text) == [if k > 0 && text[k - 1] == CR then text[..k - 1] else text[..k]] + Lines(rest);
  }

  lemma MemberAt(text: Bytes, k: nat)
    ensures k < |text| ==> text[k] in text
  {
  }

  lemma OneLine(text: Bytes)
    requires text != [] && LF !in text
    ensures Lines(text) == [text]
  {
    hide FirstLf;
    MemberAt(text, FirstLf(text));
  }

  lemma {:induction false} CountLfOfParts(a: Bytes, b: Bytes)
    ensures CountLf(a + b) == CountLf(a) + CountLf(b)
  {
    if a == [] {
      assert a + b == b;
    } else {
      assert (a + b)[1..] == a[1..] + b;
      CountLfOfParts(a[1..], b);
    }
  }

  lemma {:induction false} NoLfCounts(text: Bytes)
    requires forall i :: 0 <= i < |text| ==> text[i] != LF
    ensures CountLf(text) == 0
  {
    if text != [] {
      NoLfCounts(text[1..]);
    }
  }

  /** Line `i` begins at or before position `p` exactly when at least `i` line
      feeds come before `p`, and a position that is no line feed lies in a line. */
  lemma {:induction false} LineBeginsAtOrBefore(text: Bytes, p: nat, i: nat)
    requires p < |text| && text[p] != LF
    ensures LineBegin(text, i) <= p <==> i <= CountLf(text[..p])
    ensures CountLf(text[..p]) < |Lines(text)|
  {
    var k := FirstLf(text);
    if p < k {
      NoLfCounts(text[..p]);
    } else {
      var rest := text[k + 1..];
      var q := p - k - 1;
      CountAfterFirstLf(text, p);
      LineBeginsAtOrBefore(rest, q, if i > 0 then i - 1 else 0);
    }
  }

  /** The offsets the search keeps: each line's length and one more. */
  function Offset(lines: seq<Bytes>, i: nat): nat
    requires i <= |lines|
  {
    if i == 0 then 0 else Offset(lines, i - 1) + |lines[i - 1]| + 1
  }

  /** Line ends among the first `i` that carry a carriage return. */
  function CrLfs(text: Bytes, i: nat): nat {
    if i == 0 || FirstLf(text) == |text| then 0
    else
      var k := FirstLf(text);
      (if k > 0 && text[k - 1] == CR then 1 else 0) + CrLfs(text[k + 1..], i - 1)
  }

  lemma {:induction false} OffsetFromFront(lines: seq<Bytes>, i: nat)
    requires 0 < i <= |lines|
    ensures Offset(lines, i) == |lines[0]| + 1 + Offset(lines[1..], i - 1)
  {
    if i > 1 {
      OffsetFromFront(lines, i - 1);
    }
  }

  /** The kept offset falls short of the line's true beginning by one byte for
      every carriage return dropped from an earlier line end, so it is right
      exactly when there is none. */
  lemma {:induction false} OffsetsDriftByCarriageReturns(text: Bytes, i: nat)
    requires i < |Lines(text)|
    ensures Offset(Lines(text), i) + CrLfs(text, i) == LineBegin(text, i)
    ensures Offset(Lines(text), i) == LineBegin(text, i) <==> CrLfs(text, i) == 0
  {
    if i > 0 {
      var k := FirstLf(text);
      OffsetFromFront(Lines(text), i);
      assert Lines(text)[1..] == Lines(text[k + 1..]);
      OffsetsDriftByCarriageReturns(text[k + 1..], i - 1);
    }
  }

  lemma {:induction false} NoCrLfsToDrop(text: Bytes, i: nat)
    requires NoCrLf(text)
    ensures CrLfs(text, i) == 0
  {
    var k := FirstLf(text);
    if i > 0 && k < |text| {
      assert k > 0 ==> !CrLfAt(text, k - 1);
      NoCrLfInTail(text, k + 1);
      NoCrLfsToDrop(text[k + 1..], i - 1);
    }
  }

  lemma LaterLine(text: Bytes, k: nat, rest: Bytes, i: nat)
    requires k == FirstLf(text) < |text| && rest == text[k + 1..]
    ensures |Lines(text)| == 1 + |Lines(rest)|
    ensures i < |Lines(rest)| ==> Lines(text)[i + 1] == Lines(rest)[i]
    ensures LineBegin(text, i + 1) == k + 1 + LineBegin(rest, i)
  {
    hide FirstLf;
  }

  lemma CountFromLf(text: Bytes)
    requires text != [] && text[0] == LF
    ensures CountLf(text) == 1 + CountLf(text[1..])
  {
  }

  lemma CountAfterFirstLf(text: Bytes, p: nat)
    requires FirstLf(text) < p < |text|
    ensures CountLf(text[..p]) == 1 + CountLf(text[FirstLf(text) + 1..][..p - FirstLf(text) - 1])
  {
    var k := FirstLf(text);
    hide FirstLf, CountLf;
    var front, back := text[..k], text[k..p];
    assert text[..p] == front + back;
    CountLfOfParts(front, back);
    NoLfCounts(front);
    CountFromLf(back);
    assert back[1..] == text[k + 1..][..p - k - 1];
  }

  /** A line that begins at `b` and reaches `p`: what comes before `p` there is that
      part of the text, and so is the byte itself, unless it is a carriage return the
      line lost. */
  ghost predicate Reaches(line: Bytes, text: Bytes, b: nat, p: nat) {
    && b <= p < |text| && p - b <= |line|
    && line[..p - b] == text[b..p]
    && (p - b < |line| ==> line[p - b] == text[p])
  }

  ghost predicate LineHolds(text: Bytes, i: nat, p: nat) {
    i < |Lines(text)| && Reaches(Lines(text)[i], text, LineBegin(text, i), p)
  }

  lemma FirstLineHolds(text: Bytes, p: nat)
    requires p < FirstLf(text)
    ensures LineHolds(text, 0, p)
  {
    var k := FirstLf(text);
    var n := if k < |text| && text[k - 1] == CR then k - 1 else k;
    assert Lines(text)[0] == text[..n];
    assert text[..n][..p] == text[0..p];
  }

  lemma ReachesFurther(line: Bytes, text: Bytes, s: nat, b: nat, p: nat)
    requires s <= |text| && Reaches(line, text[s..], b, p)
    ensures Reaches(line, text, s + b, s + p)
  {
    assert text[s..][b..p] == text[s + b..s + p];
  }

  lemma LaterLineHolds(text: Bytes, i: nat, rest: Bytes, k: nat, q: nat)
    requires k == FirstLf(text) && k + 1 + q < |text| && rest == text[k + 1..]
    requires LineHolds(rest, i, q)
    ensures LineHolds(text, i + 1, k + 1 + q)
  {
    hide Lines, LineBegin, FirstLf, Reaches;
    LaterLine(text, k, rest, i);
    ReachesFurther(Lines(rest)[i], text, k + 1, LineBegin(rest, i), q);
  }

  lemma {:induction false} PrefixOfLine(text: Bytes, p: nat)
    requires p < |text| && text[p] != LF
    ensures LineHolds(text, CountLf(text[..p]), p)
  {
    hide LineHolds, Lines, LineBegin;
    var k := FirstLf(text);
    if p < k {
      NoLfCounts(text[..p]);
      FirstLineHolds(text, p);
    } else {
      CountAfterFirstLf(text, p);
      PrefixOfLine(text[k + 1..], p - k - 1);
      LaterLineHolds(text, CountLf(text[..p]) - 1, text[k + 1..], k, p - k - 1);
    }
  }

  // ---- Where a line keeps a carriage return ----

  predicate EndsInReturn(line: Bytes) {
    line != [] && line[|line| - 1] == CR
  }

  predicate CrCrLfAt(text: Bytes, e: int) {
    2 <= e < |text| && text[e] == LF && text[e - 1] == CR && text[e - 2] == CR
  }

  /** Line `i` of the text ends in two carriage returns and a line feed. */
  predicate TwiceReturned(text: Bytes, i: nat) {
    LineBegin(text, i) + 2 < LineBegin(text, i + 1) && CrCrLfAt(text, LineBegin(text, i + 1) - 1)
  }

  lemma {:induction false} LinesHoldNoLf(text: Bytes, i: nat)
    requires i < |Lines(text)|
    ensures LF !in Lines(text)[i]
  {
    var k := FirstLf(text);
    if k < |text| && i > 0 {
      assert Lines(text)[i] == Lines(text[k + 1..])[i - 1];
      LinesHoldNoLf(text[k + 1..], i - 1);
    }
  }

  lemma CrCrLfInTail(text: Bytes, s: nat, e: int)
    requires s <= |text| && e >= 2
    ensures CrCrLfAt(text, s + e) <==> CrCrLfAt(text[s..], e)
  {
  }

  lemma TwiceReturnedInTail(text: Bytes, k: nat, rest: Bytes, i: nat)
    requires k == FirstLf(text) < |text| && rest == text[k + 1..]
    ensures TwiceReturned(text, i + 1) <==> TwiceReturned(rest, i)
  {
    hide Lines, LineBegin, FirstLf, CrCrLfAt;
    LaterLine(text, k, rest, i);
    LaterLine(text, k, rest, i + 1);
    var b, e := LineBegin(rest, i), LineBegin(rest, i + 1) - 1;
    if e >= 2 {
      CrCrLfInTail(text, k + 1, e);
    }
  }

  lemma FirstKeepsReturn(text: Bytes)
    requires FirstLf(text) < |text|
    ensures EndsInReturn(Lines(text)[0]) <==> TwiceReturned(text, 0)
  {
    var k := FirstLf(text);
    assert Lines(text)[0] == if k > 0 && text[k - 1] == CR then text[..k - 1] else text[..k];
    assert LineBegin(text, 1) == k + 1;
    hide Lines, LineBegin, FirstLf;
  }

  lemma MoreLines(text: Bytes)
    ensures |Lines(text)| > 1 ==> FirstLf(text) < |text|
  {
  }

  /** One carriage return before a line feed is dropped, so a line keeps one exactly
      when there were two. */
  lemma {:induction false} KeepsReturnWhenTwice(text: Bytes, i: nat)
    requires i + 1 < |Lines(text)|
    ensures EndsInReturn(Lines(text)[i]) <==> TwiceReturned(text, i)
  {
    hide Lines, LineBegin, FirstLf, TwiceReturned, EndsInReturn;
    MoreLines(text);
    var k := FirstLf(text);
    var rest := text[k + 1..];
    if i == 0 {
      FirstKeepsReturn(text);
    } else {
      LaterLine(text, k, rest, i - 1);
      KeepsReturnWhenTwice(rest, i - 1);
      TwiceReturnedInTail(text, k, rest, i - 1);
    }
  }
}
