// Lines and white space at the ends of texts.

module TextLines {
  import opened Texts

  /** `text.split("\n")`. */
  function SplitLines(t: Text): (ls: seq<Text>)
    ensures ls != []
  {
    if t == [] then [[]]
    else
      var rest := SplitLines(t[1..]);
      if t[0] == NEWLINE then [[]] + rest else [[t[0]] + rest[0]] + rest[1..]
  }

  /** `lines.join("\n") + "\n"` for at least one line. */
  function JoinLines(ls: seq<Text>): Text {
    if ls == [] then [] else ls[0] + [NEWLINE] + JoinLines(ls[1..])
  }

  predicate IsLine(t: Text) {
    forall k :: 0 <= k < |t| ==> t[k] != NEWLINE
  }

  predicate AreLines(ls: seq<Text>) {
    forall k :: 0 <= k < |ls| ==> IsLine(ls[k])
  }

  function TrimStart(t: Text): Text {
    if t != [] && IsSpace(t[0]) then TrimStart(t[1..]) else t
  }

  function TrimEnd(t: Text): (r: Text)
    ensures |r| <= |t| && r == t[..|r|]
    ensures r != [] ==> !IsSpace(r[|r| - 1])
    ensures forall k :: |r| <= k < |t| ==> IsSpace(t[k])
  {
    if t != [] && IsSpace(t[|t| - 1]) then
      var r := TrimEnd(t[..|t| - 1]);
      assert t[..|t| - 1][..|r|] == t[..|r|];
      r
    else t
  }

  function Trim(t: Text): Text {
    TrimEnd(TrimStart(t))
  }

  lemma {:induction false} SplitGivesLines(t: Text)
    ensures AreLines(SplitLines(t))
  {
    if t != [] {
      SplitGivesLines(t[1..]);
    }
  }

  /** The first line of a text that starts with a whole line. */
  lemma {:induction false} SplitFirst(l: Text, rest: Text)
    requires IsLine(l)
    ensures SplitLines(l + [NEWLINE] + rest) == [l] + SplitLines(rest)
    decreases |l|
  {
    var t := l + [NEWLINE] + rest;
    if l == [] {
      assert t[1..] == rest && t[0] == NEWLINE;
    } else {
      assert t[1..] == l[1..] + [NEWLINE] + rest && t[0] == l[0];
      SplitFirst(l[1..], rest);
      assert [l[0]] + l[1..] == l;
      assert ([l[1..]] + SplitLines(rest))[1..] == SplitLines(rest);
    }
  }

  /** Splitting joined lines gives them back, and an empty one behind them. */
  lemma {:induction false} SplitJoined(ls: seq<Text>)
    requires AreLines(ls)
    ensures SplitLines(JoinLines(ls)) == ls + [[]]
  {
    hide SplitLines;
    if ls == [] {
      SplitNothing();
    } else {
      SplitFirst(ls[0], JoinLines(ls[1..]));
      SplitJoined(ls[1..]);
      assert [ls[0]] + (ls[1..] + [[]]) == ls + [[]];
    }
  }

  lemma SplitNothing()
    ensures SplitLines([]) == [[]]
  {
  }

  lemma {:induction false} TrimEndConcat(a: Text, b: Text)
    requires a != [] && !IsSpace(a[|a| - 1])
    ensures TrimEnd(a + b) == a + TrimEnd(b)
    decreases |b|
  {
    if b != [] {
      assert (a + b)[|a + b| - 1] == b[|b| - 1];
      if IsSpace(b[|b| - 1]) {
        assert (a + b)[..|a + b| - 1] == a + b[..|b| - 1];
        TrimEndConcat(a, b[..|b| - 1]);
      }
    } else {
      assert a + [] == a;
    }
  }

  /** A text without white space at its ends is its own trimmed form. */
  lemma TrimNothing(t: Text)
    requires t != [] ==> !IsSpace(t[0]) && !IsSpace(t[|t| - 1])
    ensures Trim(t) == t
  {
  }
}
