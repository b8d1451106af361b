/** The text the indexer stores for occurrence search (slipbox-index/src/lib.rs):
    the visible, non-blank lines of a source, joined by line feeds. */
module OccurrenceIndexing {
  import opened Basics
  import opened TextLines

  datatype Document = Document(text: Bytes, lineRows: seq<nat>)

  /** Which lines belong to a note the index shows, by position, and which lines are
      blank. An empty line is blank. */
  datatype Policy = Policy(visible: nat -> bool, blank: Bytes -> bool)
  {
    ghost predicate Sensible() {
      blank([])
    }
  }

  function Join(lines: seq<Bytes>): Bytes {
    if lines == [] then []
    else if |lines| == 1 then lines[0]
    else lines[0] + [LF] + Join(lines[1..])
  }

  /** The positions of the lines kept, among the first `n`. */
  function Kept(lines: seq<Bytes>, policy: Policy, n: nat): (kept: seq<nat>)
    requires n <= |lines|
    ensures forall j :: 0 <= j < |kept| ==> kept[j] < n && !policy.blank(lines[kept[j]])
    ensures forall i, j :: 0 <= i < j < |kept| ==> kept[i] < kept[j]
  {
    if n == 0 then []
    else Kept(lines, policy, n - 1) + if policy.visible(n - 1) && !policy.blank(lines[n - 1]) then [n - 1] else []
  }

  function Selected(lines: seq<Bytes>, kept: seq<nat>): (selected: seq<Bytes>)
    requires forall j :: 0 <= j < |kept| ==> kept[j] < |lines|
    ensures |selected| == |kept| && forall j :: 0 <= j < |kept| ==> selected[j] == lines[kept[j]]
  {
    seq(|kept|, j requires 0 <= j < |kept| => lines[kept[j]])
  }

  function Rows(kept: seq<nat>): (rows: seq<nat>)
    ensures |rows| == |kept| && forall j :: 0 <= j < |kept| ==> rows[j] == kept[j] + 1
  {
    seq(|kept|, j requires 0 <= j < |kept| => kept[j] + 1)
  }

  function KeptOf(source: Bytes, policy: Policy): seq<nat> {
    Kept(Lines(source), policy, |Lines(source)|)
  }

  function Stored(source: Bytes, policy: Policy): Document {
    Document(Join(Selected(Lines(source), KeptOf(source, policy))), Rows(KeptOf(source, policy)))
  }

  method IndexDocument(source: Bytes, policy: Policy) returns (doc: Option<Document>)
    ensures doc.None? <==> KeptOf(source, policy) == []
    ensures doc.Some? ==> doc.value == Stored(source, policy)
  {
    hide Lines, Join;
    var lines := Lines(source);
    var rows: seq<nat> := [];
    var selected: seq<Bytes> := [];
    for n := 0 to |lines|
      invariant rows == Rows(Kept(lines, policy, n))
      invariant selected == Selected(lines, Kept(lines, policy, n))
    {
      if policy.visible(n) && !policy.blank(lines[n]) {
        rows := rows + [n + 1];
        selected := selected + [lines[n]];
      }
    }
    doc := if selected == [] then None else Some(Document(Join(selected), rows));
  }

  // ---- What joining makes of lines ----

  predicate IsLine(line: Bytes) {
    line != [] && LF !in line
  }

  lemma FirstLfOfJoined(lines: seq<Bytes>)
    requires |lines| > 1 && LF !in lines[0]
    ensures FirstLf(Join(lines)) == |lines[0]| && |lines[0]| < |Join(lines)|
    ensures Join(lines)[|lines[0]| + 1..] == Join(lines[1..])
    ensures Join(lines)[..|lines[0]|] == lines[0]
  {
    hide FirstLf;
    var text, k := Join(lines), |lines[0]|;
    assert text[k] == LF && text[..k] == lines[0];
    assert forall i :: 0 <= i < k ==> text[i] == lines[0][i];
  }

  /** Joined lines are found again: as many, and each begins where the lengths of
      those before it say, carriage returns included. */
  lemma {:induction false} JoinedLinesBegin(lines: seq<Bytes>, i: nat)
    requires i < |lines| && forall j :: 0 <= j < |lines| ==> IsLine(lines[j])
    ensures |Lines(Join(lines))| == |lines|
    ensures LineBegin(Join(lines), i) == Offset(lines, i)
  {
    var text := Join(lines);
    if |lines| == 1 {
      MemberAt(text, FirstLf(text));
    } else {
      FirstLfOfJoined(lines);
      JoinedLinesBegin(lines[1..], if i > 0 then i - 1 else 0);
      if i > 0 {
        OffsetFromFront(lines, i);
      }
    }
  }

  /** Each of the joined lines stands in the text where it begins. */
  lemma {:induction false} JoinedLinesStand(lines: seq<Bytes>, i: nat)
    requires i < |lines|
    ensures StandsAt(Join(lines), Offset(lines, i), lines[i])
  {
    hide Offset, StandsAt;
    assert Offset(lines, 0) == 0 by { OffsetOfFirst(lines); }
    if i == 0 {
      FirstStands(lines);
    } else {
      JoinedLinesStand(lines[1..], i - 1);
      OffsetFromFront(lines, i);
      var text, n := Join(lines), |lines[0]| + 1;
      assert text[n..] == Join(lines[1..]);
      StandsFurther(text, n, Offset(lines[1..], i - 1), lines[i]);
    }
  }

  lemma OffsetOfFirst(lines: seq<Bytes>)
    ensures Offset(lines, 0) == 0
  {
  }

  lemma FirstStands(lines: seq<Bytes>)
    requires lines != []
    ensures StandsAt(Join(lines), 0, lines[0])
  {
  }

  /** A whole line of the text, up to a line feed or the end. */
  predicate StandsAt(text: Bytes, b: nat, line: Bytes) {
    var e := b + |line|;
    e <= |text| && text[b..e] == line && (e == |text| || text[e] == LF)
  }

  lemma StandsFurther(text: Bytes, s: nat, b: nat, line: Bytes)
    requires s <= |text| && StandsAt(text[s..], b, line)
    ensures StandsAt(text, s + b, line)
  {
    assert text[s..][b..b + |line|] == text[s + b..s + b + |line|];
  }

  lemma QuietStep(text: Bytes, k: nat)
    requires k < |text| && text[k] == LF && LF !in text[..k]
    ensures NoCrLf(text) <==> !EndsInReturn(text[..k]) && NoCrLf(text[k + 1..])
  {
    var rest := text[k + 1..];
    if NoCrLf(text) {
      if k > 0 {
        assert !CrLfAt(text, k - 1);
      }
      NoCrLfInTail(text, k + 1);
    }
    if !EndsInReturn(text[..k]) && NoCrLf(rest) {
      forall i | 0 <= i < |text| - 1 ensures !CrLfAt(text, i) {
        if i + 1 < k {
          assert text[i + 1] == text[..k][i + 1];
        } else if i > k {
          assert !CrLfAt(rest, i - k - 1);
          assert text[i] == rest[i - k - 1] && text[i + 1] == rest[i - k];
        }
      }
    }
  }

  lemma {:induction false} JoinedIsQuiet(lines: seq<Bytes>)
    requires lines != [] && forall j :: 0 <= j < |lines| ==> IsLine(lines[j])
    ensures NoCrLf(Join(lines)) <==> forall j :: 0 <= j < |lines| - 1 ==> !EndsInReturn(lines[j])
  {
    var text := Join(lines);
    if |lines| == 1 {
      forall i | 0 <= i < |text| - 1 ensures !CrLfAt(text, i) {
        assert text[i + 1] in lines[0];
      }
    } else {
      FirstLfOfJoined(lines);
      QuietStep(text, |lines[0]|);
      JoinedIsQuiet(lines[1..]);
      var rest := lines[1..];
      assert forall j :: 0 < j < |lines| ==> lines[j] == rest[j - 1];
      assert (forall j :: 0 <= j < |rest| - 1 ==> !EndsInReturn(rest[j])) <==>
        (forall j :: 1 <= j < |lines| - 1 ==> !EndsInReturn(lines[j]));
    }
  }

  // ---- What is stored ----

  lemma SelectedLines(source: Bytes, policy: Policy) returns (selected: seq<Bytes>)
    requires policy.Sensible()
    ensures selected == Selected(Lines(source), KeptOf(source, policy))
    ensures forall j :: 0 <= j < |selected| ==> IsLine(selected[j])
  {
    var lines, kept := Lines(source), KeptOf(source, policy);
    hide Lines;
    selected := Selected(lines, kept);
    forall j | 0 <= j < |kept| ensures IsLine(selected[j]) {
      LinesHoldNoLf(source, kept[j]);
    }
  }

  lemma {:induction false} KeptExactly(lines: seq<Bytes>, policy: Policy, n: nat, i: int)
    requires n <= |lines|
    ensures i in Kept(lines, policy, n) <==> 0 <= i < n && policy.visible(i) && !policy.blank(lines[i])
  {
    if n > 0 {
      KeptExactly(lines, policy, n - 1, i);
    }
  }

  /** The rows stored are those, from 1 on, of the lines that are shown and not blank. */
  lemma StoredRowsAreShown(source: Bytes, policy: Policy, row: nat)
    ensures row in Stored(source, policy).lineRows <==>
            && 1 <= row <= |Lines(source)|
            && policy.visible(row - 1) && !policy.blank(Lines(source)[row - 1])
  {
    hide Lines, Kept;
    var lines, kept := Lines(source), KeptOf(source, policy);
    KeptExactly(lines, policy, |lines|, row - 1);
    if row - 1 in kept {
      var j :| 0 <= j < |kept| && kept[j] == row - 1;
      assert Rows(kept)[j] == row;
    }
    if row in Rows(kept) {
      var j :| 0 <= j < |kept| && Rows(kept)[j] == row;
      assert kept[j] == row - 1;
    }
  }

  /** Each line of a stored text is the line of the source its row names. */
  lemma StoredLines(source: Bytes, policy: Policy, j: nat)
    requires policy.Sensible() && j < |Stored(source, policy).lineRows|
    ensures
      var doc := Stored(source, policy);
      && 1 <= doc.lineRows[j] <= |Lines(source)|
      && StandsAt(doc.text, LineBegin(doc.text, j), Lines(source)[doc.lineRows[j] - 1])
  {
    hide Lines, LineBegin, Join, StandsAt, IsLine;
    var selected := SelectedLines(source, policy);
    JoinedLinesBegin(selected, j);
    JoinedLinesStand(selected, j);
  }

  /** A stored text has one row for each of its lines, in ascending order. */
  lemma StoredRows(source: Bytes, policy: Policy)
    requires policy.Sensible() && Stored(source, policy).lineRows != []
    ensures var doc := Stored(source, policy);
            && |doc.lineRows| == |Lines(doc.text)|
            && forall i, j :: 0 <= i < j < |doc.lineRows| ==> doc.lineRows[i] < doc.lineRows[j]
  {
    hide Lines;
    var selected := SelectedLines(source, policy);
    JoinedLinesBegin(selected, 0);
  }

  /** A stored text holds no carriage return before a line feed exactly when no kept
      line but the last ended, in the source, in two carriage returns and a line
      feed: reading the lines drops one of them and joining keeps the other. */
  lemma StoredIsQuiet(source: Bytes, policy: Policy)
    requires policy.Sensible() && Stored(source, policy).lineRows != []
    ensures var doc := Stored(source, policy);
            NoCrLf(doc.text) <==> forall j :: 0 <= j < |doc.lineRows| - 1 ==>
              !TwiceReturned(source, doc.lineRows[j] - 1)
  {
    hide Lines, NoCrLf, TwiceReturned, EndsInReturn, Join, IsLine;
    var kept := KeptOf(source, policy);
    var selected := SelectedLines(source, policy);
    JoinedIsQuiet(selected);
    forall j | 0 <= j < |kept| - 1
      ensures EndsInReturn(selected[j]) <==> TwiceReturned(source, Rows(kept)[j] - 1)
    {
      assert kept[j] < kept[j + 1];
      KeepsReturnWhenTwice(source, kept[j]);
    }
  }
}
