/** The batched occurrence search of occurrences_query.rs, over an index held as
    values. Texts and offsets are in UTF-8 bytes, as the original's are. */
module Occurrences {
  import opened Basics
  import opened TextLines
  import opened OccurrenceIndexing

  datatype Anchor = Anchor(nodeKey: string, line: nat)
  datatype Match = Match(start: nat, end: nat)

  /** The compiled query: where it matches a text, and how a line is trimmed. */
  datatype Matcher = Matcher(find: Bytes -> seq<Match>, trimEnd: Bytes -> Bytes)

  /** What the index answers for one query: the candidate paths in path order,
      the stored documents, and each file's anchors in line order. */
  datatype Index = Index(paths: seq<string>, documents: map<string, Document>, anchors: map<string, seq<Anchor>>)

  datatype Occurrence =
    Occurrence(path: string, row: nat, col: nat, preview: Bytes, matchedText: Bytes, owner: Anchor)

  /** What a search comes to: it panics when it slices a line past its end or inside
      a character. */
  datatype Answer = Found(records: seq<Occurrence>) | Panicked

  // ---- What the index holds ----

  /** A match starts at a character, and not at a line feed. */
  predicate IsMatch(text: Bytes, m: Match) {
    m.start <= m.end <= |text| && m.start < |text| && text[m.start] != LF && !Continues(text[m.start])
  }

  /** What the indexer and the regex engine guarantee of a searched document: a row
      for each line, ascending, anchors sorted by line, and matches in order. */
  ghost predicate Searchable(doc: Document, anchors: seq<Anchor>, matcher: Matcher) {
    && |doc.lineRows| == |Lines(doc.text)|
    && (forall i, j :: 0 <= i < j < |doc.lineRows| ==> doc.lineRows[i] < doc.lineRows[j])
    && AnchorsInOrder(anchors)
    && var ms := matcher.find(doc.text);
       && (forall i :: 0 <= i < |ms| ==> IsMatch(doc.text, ms[i]))
       && (forall i, j :: 0 <= i < j < |ms| ==> ms[i].start <= ms[j].start)
  }

  ghost predicate AnchorsInOrder(anchors: seq<Anchor>) {
    anchors != [] && forall i, j :: 0 <= i < j < |anchors| ==> anchors[i].line <= anchors[j].line
  }

  ghost predicate Indexed(index: Index, matcher: Matcher) {
    forall path :: path in index.documents && path in index.anchors ==>
      Searchable(index.documents[path], index.anchors[path], matcher)
  }

  // ---- The flat specification ----

  /** The last anchor at or before `row`, or the first one when none is. */
  function Owner(anchors: seq<Anchor>, row: nat): (i: nat)
    requires anchors != []
    ensures i < |anchors|
  {
    var last := |anchors| - 1;
    if last == 0 || anchors[last].line <= row then last else Owner(anchors[..last], row)
  }

  /** The last line whose kept offset is at or before `p`. */
  function LineAt(lines: seq<Bytes>, p: nat): (i: nat)
    requires lines != []
    ensures i < |lines| && Offset(lines, i) <= p
    ensures i + 1 < |lines| ==> p < Offset(lines, i + 1)
  {
    var last := |lines| - 1;
    if last == 0 || Offset(lines, last) <= p then last
    else
      assert forall i :: 0 <= i <= last ==> Offset(lines[..last], i) == Offset(lines, i) by {
        OffsetsOfPrefix(lines, last);
      }
      LineAt(lines[..last], p)
  }

  lemma OffsetsOfPrefix(lines: seq<Bytes>, n: nat)
    requires n <= |lines|
    ensures forall i :: 0 <= i <= n ==> Offset(lines[..n], i) == Offset(lines, i)
  {
    for i := 0 to n
      invariant forall j :: 0 <= j <= i ==> Offset(lines[..n], j) == Offset(lines, j)
    {
    }
  }

  predicate IsBoundary(line: Bytes, k: nat) {
    k == |line| || (k < |line| && !Continues(line[k]))
  }

  /** What the search reports of a match, from the line the kept offsets put it in,
      unless the column's slice panics. */
  function RecordOf(path: string, doc: Document, anchors: seq<Anchor>, matcher: Matcher, m: Match): Option<Occurrence>
    requires IsMatch(doc.text, m) && anchors != [] && |doc.lineRows| == |Lines(doc.text)|
  {
    HasLine(doc.text, m);
    var lines := Lines(doc.text);
    var i := LineAt(lines, m.start);
    var line, k := lines[i], m.start - Offset(lines, i);
    if !IsBoundary(line, k) then None
    else
      Some(Occurrence(path, doc.lineRows[i], CharCount(line[..k]) + 1, matcher.trimEnd(line),
                      doc.text[m.start..m.end], anchors[Owner(anchors, doc.lineRows[i])]))
  }

  /** The line a match is really in: as many line feeds come before it. */
  function LineOf(text: Bytes, m: Match): (i: nat)
    requires IsMatch(text, m)
    ensures i < |Lines(text)|
  {
    HasLine(text, m);
    CountLf(text[..m.start])
  }

  lemma HasLine(text: Bytes, m: Match)
    requires IsMatch(text, m)
    ensures CountLf(text[..m.start]) < |Lines(text)|
  {
    LineBeginsAtOrBefore(text, m.start, 0);
  }

  /** What is to be reported of a match: the row, the column and the text of the line
      it is really in. */
  ghost function TrueRecord(path: string, doc: Document, anchors: seq<Anchor>, matcher: Matcher, m: Match): Occurrence
    requires IsMatch(doc.text, m) && anchors != [] && |doc.lineRows| == |Lines(doc.text)|
  {
    var i := LineOf(doc.text, m);
    var row := doc.lineRows[i];
    LineBeginsAtOrBefore(doc.text, m.start, i);
    Occurrence(path, row,
               CharCount(doc.text[LineBegin(doc.text, i)..m.start]) + 1,
               matcher.trimEnd(Lines(doc.text)[i]),
               doc.text[m.start..m.end],
               anchors[Owner(anchors, row)])
  }

  ghost function DocumentRecords(path: string, doc: Document, anchors: seq<Anchor>, matcher: Matcher)
    : seq<Option<Occurrence>>
    requires Searchable(doc, anchors, matcher)
  {
    var ms := matcher.find(doc.text);
    seq(|ms|, k requires 0 <= k < |ms| => RecordOf(path, doc, anchors, matcher, ms[k]))
  }

  ghost function TrueDocumentRecords(path: string, doc: Document, anchors: seq<Anchor>, matcher: Matcher)
    : seq<Occurrence>
    requires Searchable(doc, anchors, matcher)
  {
    var ms := matcher.find(doc.text);
    seq(|ms|, k requires 0 <= k < |ms| => TrueRecord(path, doc, anchors, matcher, ms[k]))
  }

  predicate Held(index: Index, path: string) {
    path in index.documents && path in index.anchors
  }

  ghost function FileRecords(index: Index, matcher: Matcher, path: string): seq<Option<Occurrence>>
    requires Indexed(index, matcher)
  {
    if Held(index, path) then DocumentRecords(path, index.documents[path], index.anchors[path], matcher) else []
  }

  /** Every occurrence, in path order and then in text order. */
  ghost function Flat(index: Index, matcher: Matcher, paths: seq<string>): seq<Option<Occurrence>>
    requires Indexed(index, matcher)
  {
    if paths == [] then []
    else Flat(index, matcher, paths[..|paths| - 1]) + FileRecords(index, matcher, paths[|paths| - 1])
  }

  /** Every occurrence as it is to be reported. */
  ghost function TrueFlat(index: Index, matcher: Matcher, paths: seq<string>): seq<Occurrence>
    requires Indexed(index, matcher)
  {
    if paths == [] then []
    else
      var path := paths[|paths| - 1];
      TrueFlat(index, matcher, paths[..|paths| - 1])
      + if Held(index, path) then TrueDocumentRecords(path, index.documents[path], index.anchors[path], matcher) else []
  }

  function Somes(records: seq<Occurrence>): (all: seq<Option<Occurrence>>)
    ensures |all| == |records| && forall k :: 0 <= k < |all| ==> all[k] == Some(records[k])
  {
    seq(|records|, k requires 0 <= k < |records| => Some(records[k]))
  }

  ghost function First<T>(all: seq<T>, limit: nat): seq<T> {
    if |all| < limit then all else all[..limit]
  }

  /** The answer is the first `limit` records, or a panic when one of them is. */
  ghost predicate Answers(answer: Answer, all: seq<Option<Occurrence>>, limit: nat) {
    match answer
    case Found(records) => Somes(records) == First(all, limit)
    case Panicked => None in First(all, limit)
  }

  // ---- The search ----

  function Clamp(value: nat, low: nat, high: nat): nat
    requires low <= high
  {
    if value < low then low else if value > high then high else value
  }

  method LineStartOffsets(lines: seq<Bytes>) returns (starts: seq<nat>)
    ensures |starts| == |lines|
    ensures forall i :: 0 <= i < |lines| ==> starts[i] == Offset(lines, i)
  {
    starts := [];
    var offset := 0;
    for n := 0 to |lines|
      invariant |starts| == n && offset == Offset(lines, n)
      invariant forall i :: 0 <= i < n ==> starts[i] == Offset(lines, i)
    {
      assert Offset(lines, n + 1) == offset + |lines[n]| + 1;
      hide Offset;
      starts := starts + [offset];
      offset := offset + |lines[n]| + 1;
    }
  }

  lemma {:induction false} OwnerCovers(anchors: seq<Anchor>, row: nat, i: nat)
    requires 0 < i < |anchors| && AnchorsInOrder(anchors)
    ensures anchors[i].line <= row <==> i <= Owner(anchors, row)
  {
    var last := |anchors| - 1;
    if anchors[last].line > row && i < last {
      OwnerCovers(anchors[..last], row, i);
    }
  }

  /** The forward-only anchor cursor lands where a fresh search would. */
  method ResolveOwningAnchor(anchors: seq<Anchor>, row: nat, from: nat) returns (index: nat)
    requires AnchorsInOrder(anchors)
    requires from <= Owner(anchors, row)
    ensures index == Owner(anchors, row)
  {
    index := from;
    while index + 1 < |anchors| && anchors[index + 1].line <= row
      invariant index <= Owner(anchors, row)
    {
      OwnerCovers(anchors, row, index + 1);
      index := index + 1;
    }
    if index + 1 < |anchors| {
      OwnerCovers(anchors, row, index + 1);
    }
  }

  lemma OwnerMonotone(anchors: seq<Anchor>, a: nat, b: nat)
    requires AnchorsInOrder(anchors) && a <= b
    ensures Owner(anchors, a) <= Owner(anchors, b)
  {
    if Owner(anchors, a) > 0 {
      OwnerCovers(anchors, a, Owner(anchors, a));
      OwnerCovers(anchors, b, Owner(anchors, a));
    }
  }

  lemma {:induction false} OffsetsAscend(lines: seq<Bytes>, i: nat, j: nat)
    requires i <= j <= |lines|
    ensures Offset(lines, i) <= Offset(lines, j)
    ensures i < j ==> Offset(lines, i) < Offset(lines, j)
  {
    if i < j {
      OffsetsAscend(lines, i, j - 1);
    }
  }

  /** A line's kept offset is at or before a position exactly when the position is in
      that line or a later one. */
  lemma LineAtCovers(lines: seq<Bytes>, p: nat, i: nat)
    requires i < |lines|
    ensures Offset(lines, i) <= p <==> i <= LineAt(lines, p)
  {
    hide Offset;
    var at := LineAt(lines, p);
    if i <= at {
      OffsetsAscend(lines, i, at);
    } else {
      OffsetsAscend(lines, at + 1, i);
    }
  }

  lemma LineAtMonotone(lines: seq<Bytes>, p: nat, q: nat)
    requires lines != [] && p <= q
    ensures LineAt(lines, p) <= LineAt(lines, q)
  {
    hide Offset;
    LineAtCovers(lines, p, LineAt(lines, p));
    LineAtCovers(lines, q, LineAt(lines, p));
  }

  /** The forward-only line cursor lands where a fresh search for the last offset at
      or before the position would. */
  method AdvanceLine(lines: seq<Bytes>, starts: seq<nat>, p: nat, from: nat) returns (index: nat)
    requires lines != [] && |starts| == |lines|
    requires forall i :: 0 <= i < |starts| ==> starts[i] == Offset(lines, i)
    requires from <= LineAt(lines, p)
    ensures index == LineAt(lines, p)
  {
    hide LineAt, Offset;
    index := from;
    while index + 1 < |starts| && starts[index + 1] <= p
      invariant index <= LineAt(lines, p)
    {
      LineAtCovers(lines, p, index + 1);
      index := index + 1;
    }
    if index + 1 < |starts| {
      LineAtCovers(lines, p, index + 1);
    }
  }

  lemma PanicDecides(before: seq<Occurrence>, records: seq<Option<Occurrence>>, k: nat, limit: nat)
    requires k < |records| && records[k].None? && |before| + k < limit
    ensures Answers(Panicked, Somes(before) + records, limit)
  {
    assert First(Somes(before) + records, limit)[|before| + k] == None;
  }

  lemma FullDecides(results: seq<Occurrence>, before: seq<Occurrence>, records: seq<Option<Occurrence>>, n: nat,
                    limit: nat)
    requires n <= |records| && Somes(results) == Somes(before) + records[..n] && |results| == limit
    ensures Answers(Found(results), Somes(before) + records, limit)
  {
    assert Somes(results) == (Somes(before) + records)[..limit];
  }

  /** Moves both cursors to a match and makes its record, unless the column's slice
      panics. */
  method ReportMatch(path: string, doc: Document, anchors: seq<Anchor>, matcher: Matcher, m: Match,
                     lines: seq<Bytes>, starts: seq<nat>, fromLine: nat, fromAnchor: nat)
    returns (found: Option<Occurrence>, lineIndex: nat, anchorIndex: nat)
    requires Searchable(doc, anchors, matcher) && IsMatch(doc.text, m) && lines == Lines(doc.text)
    requires |starts| == |lines| && forall i :: 0 <= i < |starts| ==> starts[i] == Offset(lines, i)
    requires lines != [] && fromLine <= LineAt(lines, m.start)
    requires fromAnchor <= Owner(anchors, doc.lineRows[LineAt(lines, m.start)])
    ensures found == RecordOf(path, doc, anchors, matcher, m)
    ensures lineIndex == LineAt(lines, m.start)
    ensures anchorIndex == Owner(anchors, doc.lineRows[lineIndex])
  {
    hide Lines, LineAt, Owner, CharCount, Offset;
    lineIndex := AdvanceLine(lines, starts, m.start, fromLine);
    var line, row := lines[lineIndex], doc.lineRows[lineIndex];
    anchorIndex := ResolveOwningAnchor(anchors, row, fromAnchor);
    var column := m.start - starts[lineIndex];
    if !IsBoundary(line, column) {
      found := None;
    } else {
      found := Some(Occurrence(path, row, CharCount(line[..column]) + 1, matcher.trimEnd(line),
                               doc.text[m.start..m.end], anchors[anchorIndex]));
    }
  }

  /** Appends one document's records, stopping as soon as `limit` are held. */
  method ScanDocument(path: string, doc: Document, anchors: seq<Anchor>, matcher: Matcher,
                      before: seq<Occurrence>, limit: nat)
    returns (answer: Answer)
    requires Searchable(doc, anchors, matcher) && |before| < limit
    ensures Answers(answer, Somes(before) + DocumentRecords(path, doc, anchors, matcher), limit)
  {
    hide Lines, LineAt, CountLf, Owner, Offset, Answers, RecordOf;
    var results := before;
    ghost var records := DocumentRecords(path, doc, anchors, matcher);
    var lines := Lines(doc.text);
    var starts := LineStartOffsets(lines);
    var matches := matcher.find(doc.text);
    var lineIndex, anchorIndex := 0, 0;
    for k := 0 to |matches|
      invariant Somes(results) == Somes(before) + records[..k] && |results| < limit
      invariant k == 0 ==> lineIndex == 0 && anchorIndex == 0
      invariant k > 0 ==> lines != [] && lineIndex == LineAt(lines, matches[k - 1].start)
      invariant k > 0 ==> anchorIndex == Owner(anchors, doc.lineRows[lineIndex])
    {
      var m := matches[k];
      HasLine(doc.text, m);
      if k > 0 {
        LineAtMonotone(lines, matches[k - 1].start, m.start);
        OwnerMonotone(anchors, doc.lineRows[lineIndex], doc.lineRows[LineAt(lines, m.start)]);
      }
      var found: Option<Occurrence>;
      found, lineIndex, anchorIndex :=
        ReportMatch(path, doc, anchors, matcher, m, lines, starts, lineIndex, anchorIndex);
      assert records[k] == found;
      if found.None? {
        PanicDecides(before, records, k, limit);
        return Panicked;
      }
      results := results + [found.value];
      assert Somes(results) == Somes(before) + records[..k + 1] by {
        assert records[..k + 1] == records[..k] + [records[k]];
      }
      if |results| >= limit {
        FullDecides(results, before, records, k + 1, limit);
        return Found(results);
      }
    }
    assert records[..|matches|] == records;
    answer := Found(results);
    FoundAll(results, Somes(before) + records, limit);
  }

  /** A file without a stored document or without anchors adds nothing. */
  method ScanFile(index: Index, matcher: Matcher, path: string, before: seq<Occurrence>, limit: nat)
    returns (answer: Answer)
    requires Indexed(index, matcher) && |before| < limit
    ensures Answers(answer, Somes(before) + FileRecords(index, matcher, path), limit)
  {
    hide Searchable, DocumentRecords;
    if path !in index.documents {
      return Found(before);
    }
    if path !in index.anchors {
      return Found(before);
    }
    answer := ScanDocument(path, index.documents[path], index.anchors[path], matcher, before, limit);
  }

  function SearchPaths(index: Index, batch: nat, offset: nat): seq<string>
    requires offset <= |index.paths|
  {
    index.paths[offset..if offset + batch < |index.paths| then offset + batch else |index.paths|]
  }

  /** The search answers exactly the first `limit` records of the flat
      specification, whatever the batch size the limit leads to. */
  method QueryOccurrences(index: Index, query: Option<Matcher>, limit: nat) returns (answer: Answer)
    requires query.Some? ==> Indexed(index, query.value)
    ensures query.None? ==> answer == Found([])
    ensures query.Some? ==>
      Answers(answer, Flat(index, query.value, index.paths),
              if limit == 0 then 1 else if limit > 1000 then 1000 else limit)
  {
    hide Flat, FileRecords, Indexed, Answers;
    if query.None? {
      return Found([]);
    }
    var matcher := query.value;
    var bound := Clamp(limit, 1, 1000);
    var batchSize := Clamp(bound, 8, 32);
    var results: seq<Occurrence> := [];
    var offset := 0;
    assert Flat(index, matcher, index.paths[..0]) == [] by { FlatOfNone(index, matcher, index.paths[..0]); }
    while true
      invariant offset <= |index.paths| && |results| < bound
      invariant Somes(results) == Flat(index, matcher, index.paths[..offset])
      decreases |index.paths| - offset
    {
      var candidates := SearchPaths(index, batchSize, offset);
      if candidates == [] {
        break;
      }
      ghost var start := offset;
      offset := offset + |candidates|;
      for i := 0 to |candidates|
        invariant |results| < bound
        invariant Somes(results) == Flat(index, matcher, index.paths[..start + i])
      {
        FlatSteps(index, matcher, index.paths, start + i);
        var scanned := ScanFile(index, matcher, candidates[i], results, bound);
        AnswersGrow(scanned, Flat(index, matcher, index.paths[..start + i + 1]),
                    Flat(index, matcher, index.paths), bound);
        if scanned.Panicked? || |scanned.records| >= bound {
          return scanned;
        }
        results := scanned.records;
      }
      if |candidates| < batchSize {
        break;
      }
    }
    assert index.paths[..offset] == index.paths;
    answer := Found(results);
    FoundAll(results, Flat(index, matcher, index.paths), bound);
  }

  lemma FoundAll(records: seq<Occurrence>, all: seq<Option<Occurrence>>, limit: nat)
    requires Somes(records) == all && |all| < limit
    ensures Answers(Found(records), all, limit)
  {
  }

  /** An answer decided on part of the records is decided on all of them. */
  lemma AnswersGrow(answer: Answer, some: seq<Option<Occurrence>>, all: seq<Option<Occurrence>>, limit: nat)
    requires some <= all && Answers(answer, some, limit)
    ensures answer.Panicked? || |answer.records| >= limit ==> Answers(answer, all, limit)
    ensures answer.Found? && |answer.records| < limit ==> Somes(answer.records) == some
  {
    if answer.Panicked? {
      var k :| 0 <= k < |First(some, limit)| && First(some, limit)[k] == None;
      assert First(all, limit)[k] == None;
    }
  }

  lemma FlatOfNone(index: Index, matcher: Matcher, paths: seq<string>)
    requires Indexed(index, matcher) && paths == []
    ensures Flat(index, matcher, paths) == []
  {
  }

  /** One more path adds its records, and what is added is part of the whole. */
  lemma FlatSteps(index: Index, matcher: Matcher, paths: seq<string>, n: nat)
    requires Indexed(index, matcher) && n < |paths|
    ensures Flat(index, matcher, paths[..n + 1]) ==
            Flat(index, matcher, paths[..n]) + FileRecords(index, matcher, paths[n])
    ensures Flat(index, matcher, paths[..n + 1]) <= Flat(index, matcher, paths)
  {
    assert paths[..n + 1][..n] == paths[..n];
    FlatPrefix(index, matcher, paths, n + 1);
  }

  lemma {:induction false} FlatPrefix(index: Index, matcher: Matcher, paths: seq<string>, n: nat)
    requires Indexed(index, matcher) && n <= |paths|
    ensures Flat(index, matcher, paths[..n]) <= Flat(index, matcher, paths)
    decreases |paths| - n
  {
    hide FileRecords, Indexed;
    if n < |paths| {
      var longer := paths[..n + 1];
      assert longer[..n] == paths[..n] && longer[n] == paths[n];
      assert Flat(index, matcher, longer) == Flat(index, matcher, longer[..n]) + FileRecords(index, matcher, longer[n]);
      hide Flat;
      FlatPrefix(index, matcher, paths, n + 1);
    } else {
      assert paths[..n] == paths;
    }
  }

  /** Line `i` is the last whose kept offset is at or before `p`. */
  ghost predicate KeptLine(lines: seq<Bytes>, i: int, p: nat) {
    0 <= i < |lines| && Offset(lines, i) <= p && forall j :: i < j < |lines| ==> p < Offset(lines, j)
  }

  /** Anchor `k` is the last at or before the row, or the first where none is. */
  ghost predicate Owns(anchors: seq<Anchor>, k: int, row: nat) {
    && 0 <= k < |anchors| && (k > 0 ==> anchors[k].line <= row)
    && forall j :: k < j < |anchors| ==> row < anchors[j].line
  }

  /** What is reported of a match, field by field, for the line and the owner the kept
      offsets and the anchors give; and when nothing can be. */
  lemma RecordIs(path: string, doc: Document, anchors: seq<Anchor>, matcher: Matcher, m: Match, i: int, k: int)
    requires IsMatch(doc.text, m) && AnchorsInOrder(anchors) && |doc.lineRows| == |Lines(doc.text)|
    requires KeptLine(Lines(doc.text), i, m.start) && Owns(anchors, k, doc.lineRows[i])
    ensures
      var r := RecordOf(path, doc, anchors, matcher, m);
      var line := Lines(doc.text)[i];
      var before := m.start - Offset(Lines(doc.text), i);
      && (r.None? <==> before > |line| || (before < |line| && 128 <= line[before] < 192))
      && (r.Some? ==>
            && r.value.path == path && r.value.row == doc.lineRows[i]
            && r.value.col == CharCount(line[..before]) + 1
            && r.value.preview == matcher.trimEnd(line) && r.value.matchedText == doc.text[m.start..m.end]
            && r.value.owner == anchors[k])
  {
    hide Lines, LineAt, Owner, Offset, CharCount;
    var lines := Lines(doc.text);
    LineAtCovers(lines, m.start, i);
    if i + 1 < |lines| {
      LineAtCovers(lines, m.start, i + 1);
    }
    var row := doc.lineRows[i];
    if k > 0 {
      OwnerCovers(anchors, row, k);
    }
    if k + 1 < |anchors| {
      OwnerCovers(anchors, row, k + 1);
    }
  }

  // ---- When what is reported is true ----

  lemma {:induction false} CharCountOfParts(a: Bytes, b: Bytes)
    ensures CharCount(a + b) == CharCount(a) + CharCount(b)
  {
    if a == [] {
      assert a + b == b;
    } else {
      assert (a + b)[1..] == a[1..] + b;
      CharCountOfParts(a[1..], b);
    }
  }

  /** Beyond the start of a character there is at least that character more. */
  lemma MoreCharacters(line: Bytes, k: nat, n: nat)
    requires k < n <= |line| && !Continues(line[k])
    ensures CharCount(line[..k]) < CharCount(line[..n])
  {
    CharCountOfParts(line[..k], line[k..n]);
    assert line[..n] == line[..k] + line[k..n];
  }

  /** With true offsets so far, the kept offsets find the line a match is in. */
  lemma TrueOffsetsFindLine(text: Bytes, m: Match)
    requires IsMatch(text, m) && CrLfs(text, LineOf(text, m)) == 0
    ensures LineAt(Lines(text), m.start) == LineOf(text, m)
    ensures Offset(Lines(text), LineOf(text, m)) == LineBegin(text, LineOf(text, m))
  {
    hide Lines, LineBegin, LineAt, CrLfs, CountLf;
    var lines, i := Lines(text), LineOf(text, m);
    OffsetsDriftByCarriageReturns(text, i);
    PrefixOfLine(text, m.start);
    LineAtCovers(lines, m.start, i);
    if i + 1 < |lines| {
      LineAtCovers(lines, m.start, i + 1);
    }
  }

  /** With offsets that fall short, the match is put in a later line, or at a later
      column of its own. */
  lemma DriftMovesMatch(path: string, doc: Document, anchors: seq<Anchor>, matcher: Matcher, m: Match)
    requires Searchable(doc, anchors, matcher) && IsMatch(doc.text, m)
    requires CrLfs(doc.text, LineOf(doc.text, m)) > 0
    ensures
      var reported, truth := RecordOf(path, doc, anchors, matcher, m), TrueRecord(path, doc, anchors, matcher, m);
      || reported.None? || reported.value.row > truth.row
      || (reported.value.row == truth.row && reported.value.col > truth.col)
  {
    hide Lines, LineBegin, LineAt, CrLfs, CountLf, Owner, CharCount, Offset;
    var text, lines, i := doc.text, Lines(doc.text), LineOf(doc.text, m);
    OffsetsDriftByCarriageReturns(text, i);
    PrefixOfLine(text, m.start);
    LineAtCovers(lines, m.start, i);
    var at := LineAt(lines, m.start);
    if at == i {
      var k, n := m.start - LineBegin(text, i), m.start - Offset(lines, i);
      if n <= |lines[i]| {
        MoreCharacters(lines[i], k, n);
      }
    } else {
      assert doc.lineRows[i] < doc.lineRows[at];
    }
  }

  lemma TrueOffsetsReportTruly(path: string, doc: Document, anchors: seq<Anchor>, matcher: Matcher, m: Match)
    requires Searchable(doc, anchors, matcher) && IsMatch(doc.text, m)
    requires CrLfs(doc.text, LineOf(doc.text, m)) == 0
    ensures RecordOf(path, doc, anchors, matcher, m) == Some(TrueRecord(path, doc, anchors, matcher, m))
  {
    hide Lines, LineBegin, LineAt, CrLfs, CountLf, Owner, CharCount, Offset;
    TrueOffsetsFindLine(doc.text, m);
    PrefixOfLine(doc.text, m.start);
  }

  /** A match is reported with its true row, column and preview exactly when no line
      before its own ended in a carriage return. Otherwise the search panics, or
      reports it too far down or too far right. */
  lemma ReportedTruly(path: string, doc: Document, anchors: seq<Anchor>, matcher: Matcher, m: Match)
    requires Searchable(doc, anchors, matcher) && IsMatch(doc.text, m)
    ensures RecordOf(path, doc, anchors, matcher, m) == Some(TrueRecord(path, doc, anchors, matcher, m)) <==>
            CrLfs(doc.text, LineOf(doc.text, m)) == 0
  {
    hide RecordOf, TrueRecord, CrLfs, Searchable, LineOf;
    if CrLfs(doc.text, LineOf(doc.text, m)) == 0 {
      TrueOffsetsReportTruly(path, doc, anchors, matcher, m);
    } else {
      DriftMovesMatch(path, doc, anchors, matcher, m);
    }
  }

  ghost predicate Quiet(index: Index) {
    forall path :: path in index.documents ==> NoCrLf(index.documents[path].text)
  }

  lemma {:induction false} QuietFlatIsTrue(index: Index, matcher: Matcher, paths: seq<string>)
    requires Indexed(index, matcher) && Quiet(index)
    ensures Flat(index, matcher, paths) == Somes(TrueFlat(index, matcher, paths))
  {
    hide RecordOf, TrueRecord, NoCrLf, IsMatch, LineOf, CrLfs;
    if paths != [] {
      var path := paths[|paths| - 1];
      QuietFlatIsTrue(index, matcher, paths[..|paths| - 1]);
      if Held(index, path) {
        QuietDocument(path, index.documents[path], index.anchors[path], matcher);
      }
    }
  }

  lemma QuietDocument(path: string, doc: Document, anchors: seq<Anchor>, matcher: Matcher)
    requires Searchable(doc, anchors, matcher) && NoCrLf(doc.text)
    ensures DocumentRecords(path, doc, anchors, matcher) == Somes(TrueDocumentRecords(path, doc, anchors, matcher))
  {
    hide RecordOf, TrueRecord, NoCrLf, LineOf, CrLfs;
    var ms := matcher.find(doc.text);
    forall k | 0 <= k < |ms|
      ensures RecordOf(path, doc, anchors, matcher, ms[k]) == Some(TrueRecord(path, doc, anchors, matcher, ms[k]))
    {
      NoCrLfsToDrop(doc.text, LineOf(doc.text, ms[k]));
      ReportedTruly(path, doc, anchors, matcher, ms[k]);
    }
  }

  /** Where no stored text holds a carriage return before a line feed, the search
      answers exactly the first `limit` occurrences as they are to be reported. */
  lemma QuietSearchIsTrue(index: Index, matcher: Matcher, answer: Answer, limit: nat)
    requires Indexed(index, matcher) && Quiet(index)
    ensures Answers(answer, Flat(index, matcher, index.paths), limit) <==>
            answer == Found(First(TrueFlat(index, matcher, index.paths), limit))
  {
    hide Flat, TrueFlat, Quiet, Indexed;
    QuietFlatIsTrue(index, matcher, index.paths);
    var truth := TrueFlat(index, matcher, index.paths);
    assert First(Somes(truth), limit) == Somes(First(truth, limit));
    if answer.Found? && Somes(answer.records) == Somes(First(truth, limit)) {
      var some, all := Somes(answer.records), Somes(First(truth, limit));
      assert |answer.records| == |First(truth, limit)|;
      forall k | 0 <= k < |answer.records| ensures answer.records[k] == First(truth, limit)[k] {
        assert some[k] == all[k];
      }
    }
  }

  // ---- A source it goes wrong on ----

  const AB_RETURN: Bytes := [97, 98, CR]
  const ACCENTED: Bytes := [0xC3, 0xA9, 99, 100, 101]

  /** "ab", two carriage returns, and after the line feed a line that begins with an
      accented letter. */
  const TWICE_RETURNED: Bytes := AB_RETURN + [CR, LF] + ACCENTED

  const EVERYTHING := Policy(_ => true, (line: Bytes) => line == [] || line == [CR])

  /** What is stored of it: one carriage return is still there. */
  const DRIFTED := Document(AB_RETURN + [LF] + ACCENTED, [1, 2])

  lemma LinesOfTwo(first: Bytes, second: Bytes)
    requires LF !in first && LF !in second && second != []
    ensures var text := first + [LF] + second;
            && Lines(text) == [if EndsInReturn(first) then first[..|first| - 1] else first, second]
            && LineBegin(text, 1) == |first| + 1
  {
    hide Lines, LineBegin;
    var text, k := first + [LF] + second, |first|;
    assert text[k] == LF && text[..k] == first && text[k + 1..] == second;
    assert k > 0 ==> text[..k - 1] == first[..k - 1];
    LinesStep(text, k);
    OneLine(second);
  }

  lemma TwiceReturnedLines()
    ensures Lines(TWICE_RETURNED) == [AB_RETURN, ACCENTED]
  {
    hide Lines;
    var first := AB_RETURN + [CR];
    assert TWICE_RETURNED == first + [LF] + ACCENTED;
    LinesOfTwo(first, ACCENTED);
    assert first[..3] == AB_RETURN;
  }

  lemma JoinTwo(first: Bytes, second: Bytes)
    ensures Join([first, second]) == first + [LF] + second
  {
    var both := [first, second];
    assert both[1..] == [second];
    assert Join([second]) == second;
  }

  lemma TwiceReturnedIsStored()
    ensures Stored(TWICE_RETURNED, EVERYTHING) == DRIFTED
  {
    TwiceReturnedLines();
    var lines := [AB_RETURN, ACCENTED];
    BothKept(lines);
    JoinTwo(AB_RETURN, ACCENTED);
    hide Lines, Kept, Join, TWICE_RETURNED, AB_RETURN, ACCENTED;
    assert Selected(lines, [0, 1]) == lines;
    assert Rows([0, 1]) == [1, 2];
  }

  lemma BothKept(lines: seq<Bytes>)
    requires |lines| == 2 && |lines[0]| > 1 && |lines[1]| > 1
    ensures Kept(lines, EVERYTHING, 2) == [0, 1]
  {
    assert Kept(lines, EVERYTHING, 0) == [];
    assert Kept(lines, EVERYTHING, 1) == [0];
  }

  /** The second line is kept as beginning one byte early, inside the letter: a match
      that begins with that letter panics, and one after it is reported a column late.
      Both are of three characters or more, as a query must be. */
  lemma TwiceReturnedGoesWrong(path: string, anchors: seq<Anchor>, matcher: Matcher)
    requires anchors != []
    ensures |Lines(DRIFTED.text)| == |DRIFTED.lineRows| == 2
    ensures Offset(Lines(DRIFTED.text), 1) == 3 && LineBegin(DRIFTED.text, 1) == 4
    ensures IsMatch(DRIFTED.text, Match(4, 9)) && RecordOf(path, DRIFTED, anchors, matcher, Match(4, 9)) == None
    ensures IsMatch(DRIFTED.text, Match(6, 9)) && TrueRecord(path, DRIFTED, anchors, matcher, Match(6, 9)).col == 2
    ensures RecordOf(path, DRIFTED, anchors, matcher, Match(6, 9)) ==
            Some(TrueRecord(path, DRIFTED, anchors, matcher, Match(6, 9)).(col := 3))
  {
    hide Lines, Owner, LineBegin, Offset, LineAt, CharCount, CountLf;
    var text := AB_RETURN + [LF] + ACCENTED;
    LinesOfTwo(AB_RETURN, ACCENTED);
    var lines: seq<Bytes> := [[97, 98], ACCENTED];
    assert AB_RETURN[..2] == lines[0];
    assert Lines(text) == lines;
    assert Offset(lines, 1) == 3 by { OffsetOne(lines); }
    LineAtCovers(lines, 4, 1);
    LineAtCovers(lines, 6, 1);
    assert text[4] == 0xC3 && text[6] == 99 && ACCENTED[1] == 0xA9;
    LineBeginsAtOrBefore(text, 6, 1);
    assert LineOf(text, Match(6, 9)) == 1;
    assert ACCENTED[..3] == [0xC3, 0xA9, 99] && text[4..6] == [0xC3, 0xA9];
    ShortCounts();
  }

  /** The index of that one document. */
  ghost predicate OnlyDrifted(index: Index, path: string) {
    && index.paths == [path] && index.documents == map[path := DRIFTED]
    && path in index.anchors && AnchorsInOrder(index.anchors[path])
  }

  lemma SearchOfOne(index: Index, path: string, matcher: Matcher, m: Match)
    requires OnlyDrifted(index, path) && matcher.find(DRIFTED.text) == [m]
    requires IsMatch(DRIFTED.text, m)
    ensures |Lines(DRIFTED.text)| == |DRIFTED.lineRows| && Indexed(index, matcher)
    ensures Flat(index, matcher, index.paths) == [RecordOf(path, DRIFTED, index.anchors[path], matcher, m)]
  {
    hide RecordOf, Lines, IsMatch;
    TwiceReturnedGoesWrong(path, index.anchors[path], matcher);
    assert Indexed(index, matcher);
    FlatOfNone(index, matcher, index.paths[..0]);
  }

  /** A search for the second line, found in that document, always panics. */
  lemma TwiceReturnedPanics(index: Index, path: string, matcher: Matcher, answer: Answer, limit: nat)
    requires OnlyDrifted(index, path) && matcher.find(DRIFTED.text) == [Match(4, 9)] && limit > 0
    ensures Indexed(index, matcher)
    ensures Answers(answer, Flat(index, matcher, index.paths), limit) <==> answer == Panicked
  {
    hide RecordOf, Flat, Lines, Indexed, IsMatch;
    TwiceReturnedGoesWrong(path, index.anchors[path], matcher);
    SearchOfOne(index, path, matcher, Match(4, 9));
    var all := Flat(index, matcher, index.paths);
    assert First(all, limit) == all && all[0] == None;
    if answer.Found? && answer.records != [] {
      assert Somes(answer.records)[0] == Some(answer.records[0]);
    }
  }

  /** A search for what follows the letter answers one record, right in everything but
      its column. */
  lemma TwiceReturnedIsLate(index: Index, path: string, matcher: Matcher, answer: Answer, limit: nat)
    requires OnlyDrifted(index, path) && matcher.find(DRIFTED.text) == [Match(6, 9)] && limit > 0
    ensures Indexed(index, matcher) && |TrueFlat(index, matcher, index.paths)| == 1
    ensures var truth := TrueFlat(index, matcher, index.paths)[0];
            && truth.col == 2
            && (Answers(answer, Flat(index, matcher, index.paths), limit) <==> answer == Found([truth.(col := 3)]))
  {
    hide RecordOf, TrueRecord, Flat, Lines, Indexed, IsMatch;
    TwiceReturnedGoesWrong(path, index.anchors[path], matcher);
    SearchOfOne(index, path, matcher, Match(6, 9));
    assert TrueFlat(index, matcher, index.paths[..0]) == [];
    var truth := TrueRecord(path, DRIFTED, index.anchors[path], matcher, Match(6, 9));
    assert TrueFlat(index, matcher, index.paths) == [truth];
    var late := [truth.(col := 3)];
    assert Flat(index, matcher, index.paths) == Somes(late) == First(Somes(late), limit);
    if answer.Found? && Somes(answer.records) == Somes(late) {
      assert Somes(answer.records)[0] == Somes(late)[0];
    }
  }

  lemma OffsetOne(lines: seq<Bytes>)
    requires |lines| > 0
    ensures Offset(lines, 1) == |lines[0]| + 1
  {
  }

  lemma ShortCounts()
    ensures CharCount([0xC3, 0xA9, 99]) == 2 && CharCount([0xC3, 0xA9]) == 1
  {
    var three: Bytes := [0xC3, 0xA9, 99];
    assert three[1..] == [0xA9, 99] && three[1..][1..] == [99] && three[1..][1..][1..] == [];
    var two: Bytes := [0xC3, 0xA9];
    assert two[1..] == [0xA9] && two[1..][1..] == [];
  }
}
