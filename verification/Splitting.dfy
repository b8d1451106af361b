/** Taking text apart at a separator, as the standard string methods do. */
module Splitting {
  import opened Basics
  import opened Text

  /** The two sides of the first separator. */
  function SplitOnce(s: string, c: char): (r: Option<(string, string)>)
    ensures r.Some? ==> s == r.value.0 + [c] + r.value.1 && c !in r.value.0
    ensures r.None? <==> c !in s
  {
    if s == [] then None
    else if s[0] == c then
      assert s == [] + [c] + s[1..];
      Some(([], s[1..]))
    else
      var rest := SplitOnce(s[1..], c);
      assert s == [s[0]] + s[1..];
      if rest.None? then None
      else
        assert s == ([s[0]] + rest.value.0) + [c] + rest.value.1;
        Some(([s[0]] + rest.value.0, rest.value.1))
  }

  lemma NoSeparatorBefore(a: string, c: char, b: string)
    requires c !in a
    ensures forall i :: 0 <= i < |a| ==> (a + [c] + b)[i] != c
  {
    forall i | 0 <= i < |a| ensures (a + [c] + b)[i] != c {
      assert (a + [c] + b)[i] == a[i];
    }
  }

  lemma SplitAtFirst(a: string, c: char, b: string)
    requires c !in a
    ensures SplitOnce(a + [c] + b, c) == Some((a, b))
  {
    hide SplitOnce;
    var s := a + [c] + b;
    assert s[|a|] == c;
    var (a', b') := SplitOnce(s, c).value;
    assert s[|a'|] == c;
    NoSeparatorBefore(a, c, b);
    NoSeparatorBefore(a', c, b');
    assert a == s[..|a|] && a' == s[..|a'|];
    assert b == s[|a| + 1..] && b' == s[|a'| + 1..];
  }

  /** The pieces between separators: always one more than there are separators. */
  function Split(s: string, c: char): (pieces: seq<string>)
    ensures pieces != []
    decreases |s|
  {
    var once := SplitOnce(s, c);
    if once.None? then [s] else [once.value.0] + Split(once.value.1, c)
  }

  function JoinWith(pieces: seq<string>, c: char): string {
    if pieces == [] then []
    else if |pieces| == 1 then pieces[0]
    else pieces[0] + [c] + JoinWith(pieces[1..], c)
  }

  /** The pieces are the one way to write the text as texts without the separator,
      joined by it. */
  lemma {:induction false} SplitIs(s: string, c: char, pieces: seq<string>)
    ensures Split(s, c) == pieces <==>
      pieces != [] && s == JoinWith(pieces, c) && forall k :: 0 <= k < |pieces| ==> c !in pieces[k]
    decreases |s|
  {
    if pieces != [] {
      var once := SplitOnce(s, c);
      if once.Some? {
        SplitIs(once.value.1, c, pieces[1..]);
      }
      if |pieces| > 1 && s == JoinWith(pieces, c) && c !in pieces[0] {
        SplitAtFirst(pieces[0], c, JoinWith(pieces[1..], c));
      }
      assert Split(s, c)[1..] == pieces[1..] && Split(s, c)[0] == pieces[0] ==> Split(s, c) == pieces;
      assert forall k :: 0 < k < |pieces| ==> pieces[k] == pieces[1..][k - 1];
    }
  }

  lemma {:induction false} PiecesHoldEveryCharacter(s: string, c: char, i: nat)
    requires i < |s|
    ensures s[i] == c || exists k :: 0 <= k < |Split(s, c)| && s[i] in Split(s, c)[k]
    decreases |s|
  {
    hide SplitOnce;
    var once := SplitOnce(s, c);
    if once.None? {
      assert Split(s, c)[0] == s;
    } else {
      var (a, b) := once.value;
      var rest := Split(b, c);
      assert Split(s, c) == [a] + rest;
      hide Split;
      if i < |a| {
        assert s[i] == a[i] && Split(s, c)[0] == a;
      } else if i > |a| {
        var j := i - |a| - 1;
        assert s[i] == b[j];
        PiecesHoldEveryCharacter(b, c, j);
        if k :| 0 <= k < |rest| && b[j] in rest[k] {
          assert Split(s, c)[k + 1] == rest[k];
        }
      }
    }
  }

  lemma {:induction false} TrailingSeparatorLeavesEmpty(s: string, c: char)
    requires s != [] && s[|s| - 1] == c
    ensures [] in Split(s, c)
    decreases |s|
  {
    var (a, b) := SplitOnce(s, c).value;
    if b != [] {
      assert b[|b| - 1] == s[|s| - 1];
      TrailingSeparatorLeavesEmpty(b, c);
      var k :| 0 <= k < |Split(b, c)| && Split(b, c)[k] == [];
      assert Split(s, c)[k + 1] == [];
    } else {
      assert Split(b, c)[0] == [];
      assert Split(s, c)[1] == [];
    }
  }
}
