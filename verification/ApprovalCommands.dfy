// Exactly what a compiled command matches.

module ApprovalCommands {
  import opened Results
  import opened Texts
  import opened ApprovalSyntax
  import opened ApprovalMatching
  import opened ApprovalAnchoring

  /** The command ends here: at a word boundary, at the end of the text, or in front of white space. */
  predicate EndsCommand(s: Text, j: nat, e: Engine)
    requires j <= |s|
  {
    Holds(WordBoundary, s, j) || j == |s| || e.inSet(SPACE_CLASS, s[j])
  }

  /** What follows a match is reached through the pattern that follows. */
  lemma {:induction false} ContinueReaches(r: Regex, s: Text, i: nat, ts: seq<Try>, e: Engine, j: nat, t: Try)
    requires i <= |s| && AllOnward(ts, s, i, false) && Hit(j) in ts && j <= |s| && t in Tries(r, s, j, false, e)
    ensures t in Continue(r, s, i, ts, false, e)
    decreases |ts|
  {
    hide Tries;
    if ts[0] != Hit(j) {
      ContinueReaches(r, s, i, ts[1..], e, j, t);
    }
  }

  lemma SpaceTries(s: Text, i: nat, e: Engine)
    requires i <= |s|
    ensures LiteralOf(SPACE_CLASS).None?
    ensures Tries(Atom(SPACE_CLASS), s, i, false, e) == [if i < |s| && e.inSet(SPACE_CLASS, s[i]) then Hit(i + 1) else Miss]
  {
  }

  /** The repetition of white space reaches the end of every run of it. */
  lemma {:induction false} RunReaches(s: Text, i: nat, j: nat, min: nat, e: Engine)
    requires i <= j <= |s| && (forall k :: i <= k < j ==> e.inSet(SPACE_CLASS, s[k])) && min <= 1 && (min == 1 ==> i < j)
    ensures Hit(j) in Repeats(Atom(SPACE_CLASS), min, None, false, s, i, false, e)
    decreases j - i
  {
    var x := Atom(SPACE_CLASS);
    SpaceTries(s, i, e);
    var first := Tries(x, s, i, false, e);
    assert first[1..] == [];
    assert Again(x, min, None, false, s, i, [], false, e) == [];
    var more := Again(x, min, None, false, s, i, first, false, e);
    if i < j {
      RunReaches(s, i + 1, j, 0, e);
      assert more == Repeats(x, 0, None, false, s, i + 1, false, e) + [];
    }
  }

  /** Words that are spelled out are matched. */
  lemma {:induction false} JoinedReaches(ws: seq<Text>, s: Text, i: nat, j: nat, e: Engine)
    requires ws != [] && i <= |s| && SpelledOut(s, i, j, ws, e)
    ensures Hit(j) in Tries(Joined(ws), s, i, false, e)
    decreases |ws|
  {
    hide Tries, FoldedAt, Continue, Repeats, Spelled;
    SpelledMatches(ws[0], s, i, e);
    if |ws| > 1 {
      var m: nat :| SpacesBetween(s, i + |ws[0]|, m, e) && SpelledOut(s, m, j, ws[1..], e);
      var a, b := Spelled(ws[0]), Sequence(GAP, Joined(ws[1..]));
      var k := i + |ws[0]|;
      SequenceTries(a, b, s, i, e);
      ContinueOne(b, s, i, Tries(a, s, i, false, e)[0], e);
      SequenceTries(GAP, Joined(ws[1..]), s, k, e);
      GapTries(s, k, e);
      RunReaches(s, k, m, 1, e);
      JoinedReaches(ws[1..], s, m, j, e);
      ContinueReaches(Joined(ws[1..]), s, k, Tries(GAP, s, k, false, e), e, m, Hit(j));
    }
  }

  /** The end of a compiled command matches, taking nothing, exactly where a command ends. */
  lemma EndMatches(s: Text, j: nat, e: Engine)
    requires j <= |s|
    ensures Hit(j) in Tries(END, s, j, false, e) <==> EndsCommand(s, j, e)
  {
    hide Tries, Holds;
    EndTries(s, j, e);
    SpaceTries(s, j, e);
    AheadTries(s, j, e);
  }

  lemma AheadTries(s: Text, j: nat, e: Engine)
    requires j <= |s|
    ensures var ts := Looked(Tries(SPACE_OR_END, s, j, false, e), j, false);
            if j == |s| || e.inSet(SPACE_CLASS, s[j]) then Hit(j) in ts else forall n :: 0 <= n < |ts| ==> ts[n].Miss?
  {
    SpaceTries(s, j, e);
    var ts := Tries(SPACE_OR_END, s, j, false, e);
    var end := if j == |s| then Hit(j) else Miss;
    assert Tries(Assert(InputEnd), s, j, false, e) == [end];
    var space := Atom(SPACE_CLASS);
    assert SPACE_OR_END == Choice(space, Assert(InputEnd));
    assert Tries(Choice(space, Assert(InputEnd)), s, j, false, e) == Tries(space, s, j, false, e) + [end];
    assert ts[1..] == [end] && [end][1..] == [];
    assert Misses(ts) == if ts[0].Hit? then 0 else if end.Hit? then 1 else 2;
  }

  /**
   * A compiled command matches from `i` to `j` if and only if a word boundary stands at `i`, the tool's
   * name and the command's words stand between, up to case and with white space between them, and the
   * command ends at `j`.
   */
  lemma CompiledMatchesExactly(binary: Text, command: Text, s: Text, i: nat, j: nat, e: Engine)
    requires i <= |s|
    ensures Hit(j) in Tries(Compiled(binary, command), s, i, false, e) <==>
            && Holds(WordBoundary, s, i) && SpelledOut(s, i, j, [binary] + Words(command), e)
            && j <= |s| && EndsCommand(s, j, e)
  {
    hide Tries, Joined, Words, Continue, SpelledOut, Holds, EndsCommand;
    var ws := [binary] + Words(command);
    var a, b := Assert(WordBoundary), Sequence(Joined(ws), END);
    SequenceTries(a, b, s, i, e);
    ItemFits(s, i, Edge, a, e);
    EdgeTries(s, i, e);
    ContinueOne(b, s, i, Tries(a, s, i, false, e)[0], e);
    SequenceTries(Joined(ws), END, s, i, e);
    var all := Tries(Compiled(binary, command), s, i, false, e);
    if Hit(j) in all {
      var n :| 0 <= n < |all| && all[n] == Hit(j);
      var m, l := ContinueComesFrom(END, s, i, Tries(Joined(ws), s, i, false, e), e, n);
      JoinedMatches(ws, s, i, e, m);
      EndStays(s, Tries(Joined(ws), s, i, false, e)[m].end, e, l);
      EndMatches(s, j, e);
    }
    if Holds(WordBoundary, s, i) && SpelledOut(s, i, j, ws, e) && j <= |s| && EndsCommand(s, j, e) {
      JoinedReaches(ws, s, i, j, e);
      EndMatches(s, j, e);
      ContinueReaches(END, s, i, Tries(Joined(ws), s, i, false, e), e, j, Hit(j));
    }
  }

  lemma EdgeTries(s: Text, i: nat, e: Engine)
    requires i <= |s|
    ensures Tries(Assert(WordBoundary), s, i, false, e) == [if Holds(WordBoundary, s, i) then Hit(i) else Miss]
  {
    hide Holds;
  }

  // ---------------------------------------------------------------------------
  // The words of a command
  // ---------------------------------------------------------------------------

  predicate IsGapText(t: Text) {
    forall k :: 0 <= k < |t| ==> IsSpace(t[k])
  }

  predicate IsWord(t: Text) {
    t != [] && forall k :: 0 <= k < |t| ==> !IsSpace(t[k])
  }

  /** Words, each followed by its gap. */
  function Laid(ws: seq<Text>, gaps: seq<Text>): Text
    requires |gaps| == |ws|
  {
    if ws == [] then [] else ws[0] + gaps[0] + Laid(ws[1..], gaps[1..])
  }

  /** Words with gaps between them, of which only the last may be empty. */
  predicate AreLaid(ws: seq<Text>, gaps: seq<Text>) {
    && |gaps| == |ws|
    && forall k :: 0 <= k < |ws| ==> IsWord(ws[k]) && IsGapText(gaps[k]) && (k < |ws| - 1 ==> gaps[k] != [])
  }

  lemma {:induction false} GapSkipped(s: Text, i: nat, t: Text)
    requires At(s, i, t) && IsGapText(t)
    ensures WordsFrom(s, i) == WordsFrom(s, i + |t|)
    decreases |t|
  {
    hide At;
    if t != [] {
      AtElement(s, i, t, 0);
      AtBound(s, i, t);
      AtDrop(s, i, t, 1);
      GapSkipped(s, i + 1, t[1..]);
    }
  }

  lemma {:induction false} WordEnds(s: Text, i: nat, t: Text)
    requires At(s, i, t) && (forall k :: 0 <= k < |t| ==> !IsSpace(t[k]))
    requires i + |t| < |s| ==> IsSpace(s[i + |t|])
    ensures i + |t| <= |s| && WordEnd(s, i) == i + |t|
    decreases |t|
  {
    hide At, IsSpace;
    AtBound(s, i, t);
    if t != [] {
      AtElement(s, i, t, 0);
      AtDrop(s, i, t, 1);
      WordEnds(s, i + 1, t[1..]);
    }
  }

  lemma LaidLengths(ws: seq<Text>, gaps: seq<Text>)
    requires AreLaid(ws, gaps)
    ensures |gaps| == |ws|
  {
  }

  lemma FirstLaid(ws: seq<Text>, gaps: seq<Text>)
    requires AreLaid(ws, gaps) && ws != []
    ensures IsWord(ws[0]) && IsGapText(gaps[0]) && (gaps[0] == [] ==> |ws| == 1) && AreLaid(ws[1..], gaps[1..])
  {
    hide IsWord, IsGapText;
  }

  lemma GapStarts(g: Text)
    requires IsGapText(g) && g != []
    ensures IsSpace(g[0])
  {
    hide IsSpace;
  }

  lemma {:induction false} WordsOfLaid(s: Text, i: nat, ws: seq<Text>, gaps: seq<Text>)
    requires AreLaid(ws, gaps) && At(s, i, Laid(ws, gaps)) && i + |Laid(ws, gaps)| == |s|
    ensures WordsFrom(s, i) == ws
    decreases |ws|
  {
    hide At, IsSpace, WordEnd, AreLaid, IsGapText;
    LaidLengths(ws, gaps);
    if ws != [] {
      FirstLaid(ws, gaps);
      var w, g, rest := ws[0], gaps[0], Laid(ws[1..], gaps[1..]);
      AtSplit(s, i, w + g, rest);
      AtSplit(s, i, w, g);
      AtElement(s, i, w, 0);
      AtBound(s, i, w);
      if g != [] {
        AtElement(s, i + |w|, g, 0);
        GapStarts(g);
      }
      WordEnds(s, i, w);
      SliceIs(s, i, w);
      GapSkipped(s, i + |w|, g);
      WordsOfLaid(s, i + |w + g|, ws[1..], gaps[1..]);
    }
  }

  /** A command of words with white space in front, between and behind has these words. */
  lemma WordsAreRead(lead: Text, ws: seq<Text>, gaps: seq<Text>)
    requires IsGapText(lead) && AreLaid(ws, gaps)
    ensures Words(lead + Laid(ws, gaps)) == ws
  {
    hide At, WordsFrom, Laid, IsWord, IsGapText;
    var s := lead + Laid(ws, gaps);
    AtWhole(s);
    AtSplit(s, 0, lead, Laid(ws, gaps));
    GapSkipped(s, 0, lead);
    WordsOfLaid(s, |lead|, ws, gaps);
  }
}
