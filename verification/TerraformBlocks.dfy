// Assignments as blocks that stand one behind the other in a text, and where a search finds them.

module TerraformBlocks {
  import opened Results
  import opened Texts
  import opened TextLines
  import opened JsonText
  import opened JsoncBlanking
  import opened ConfigScan
  import opened HclText

  // ---------------------------------------------------------------------------
  // A block in a text
  // ---------------------------------------------------------------------------

  /** A text that starts with a name behind blanks and does not end with white space. */
  predicate IsBlock(b: Text) {
    && b != [] && !IsSpace(b[|b| - 1])
    && SkipBlanks(b, 0) < |b| && IsNameChar(b[SkipBlanks(b, 0)])
  }

  /** Some line of the block assigns the name. */
  predicate Assigns(b: Text, n: Text) {
    exists k :: 0 <= k < |b| && AssignsAt(b, k, n)
  }

  /** The block stands at `o` as lines of its own, and what follows is no `=`. */
  ghost predicate StandsAt(t: Text, o: nat, b: Text) {
    && At(t, o, b) && o + |b| < |t| && t[o + |b|] == NEWLINE
    && (o == 0 || t[o - 1] == NEWLINE)
    && (SkipSpace(t, o + |b|) < |t| ==> t[SkipSpace(t, o + |b|)] != EQUALS)
  }

  lemma {:induction false} BlanksShift(t: Text, o: nat, b: Text, k: nat)
    requires At(t, o, b) && k <= |b| && SkipBlanks(b, k) < |b|
    ensures SkipBlanks(t, o + k) == o + SkipBlanks(b, k)
    decreases |b| - k
  {
    if k < |b| {
      AtElement(t, o, b, k);
      if b[k] == 0x20 || b[k] == 0x09 {
        BlanksShift(t, o, b, k + 1);
      }
    }
  }

  lemma {:induction false} SpaceShift(t: Text, o: nat, b: Text, k: nat)
    requires At(t, o, b) && k <= |b|
    ensures SkipSpace(b, k) < |b| ==> SkipSpace(t, o + k) == o + SkipSpace(b, k)
    ensures SkipSpace(b, k) >= |b| ==> SkipSpace(t, o + k) == SkipSpace(t, o + |b|)
    decreases |b| - k
  {
    hide IsSpace;
    if k < |b| {
      AtElement(t, o, b, k);
      if IsSpace(b[k]) {
        SpaceShift(t, o, b, k + 1);
      }
    }
  }

  /** The last character of a block is no white space, so blanks end inside it. */
  lemma {:induction false} BlanksEndInside(b: Text, k: nat)
    requires k < |b| && !IsSpace(b[|b| - 1])
    ensures SkipBlanks(b, k) < |b|
    decreases |b| - k
  {
    if b[k] == 0x20 || b[k] == 0x09 {
      BlanksEndInside(b, k + 1);
    }
  }

  lemma NameBeforeBreak(t: Text, p: nat, n: Text, e: nat)
    requires IsName(n) && Stands(t, p, n) && p <= e < |t| && t[e] == NEWLINE
    ensures p + |n| <= e
  {
    forall k | p <= k < p + |n| ensures t[k] != NEWLINE {
      assert t[k] == t[p..p + |n|][k - p] == n[k - p];
      assert IsNameChar(n[k - p]);
    }
  }

  lemma NameShift(t: Text, o: nat, b: Text, q: nat, n: Text)
    requires IsName(n) && At(t, o, b) && o + |b| < |t| && t[o + |b|] == NEWLINE && q < |b|
    ensures Stands(t, o + q, n) <==> Stands(b, q, n)
  {
    if Stands(b, q, n) {
      forall k | 0 <= k < |n| ensures t[o + q + k] == n[k] {
        assert n[k] == b[q..q + |n|][k] == b[q + k];
        AtElement(t, o, b, q + k);
      }
      assert t[o + q..o + q + |n|] == n;
    }
    if Stands(t, o + q, n) {
      NameBeforeBreak(t, o + q, n, o + |b|);
      forall k | 0 <= k < |n| ensures b[q + k] == n[k] {
        assert n[k] == t[o + q..o + q + |n|][k];
        AtElement(t, o, b, q + k);
      }
      assert b[q..q + |n|] == n;
    }
  }

  lemma StartShift(t: Text, o: nat, b: Text, k: nat)
    requires StandsAt(t, o, b) && IsBlock(b) && k <= |b|
    ensures IsLineStart(t, o + k) <==> k < |b| && IsLineStart(b, k)
  {
    hide SkipSpace, SkipBlanks;
    if k > 0 {
      AtElement(t, o, b, k - 1);
    }
  }

  /** Inside a block, the text assigns a name where the block does, with the same value start. */
  lemma AssignsShift(t: Text, o: nat, b: Text, k: nat, n: Text)
    requires StandsAt(t, o, b) && IsBlock(b) && IsName(n) && k <= |b|
    ensures AssignsAt(t, o + k, n) <==> k < |b| && AssignsAt(b, k, n)
    ensures k < |b| && AssignsAt(b, k, n) ==> EqualsAt(t, o + k, n) == o + EqualsAt(b, k, n)
  {
    hide At, IsSpace, SkipSpace, SkipBlanks, IsLineStart, Stands;
    StartShift(t, o, b, k);
    if k < |b| {
      BlanksEndInside(b, k);
      BlanksShift(t, o, b, k);
      var q := SkipBlanks(b, k);
      NameShift(t, o, b, q, n);
      if Stands(b, q, n) {
        StandsInside(b, q, n);
        SpaceShift(t, o, b, q + |n|);
        var r := SkipSpace(b, q + |n|);
        if r < |b| {
          AtElement(t, o, b, r);
        }
      }
    }
  }

  lemma StandsInside(b: Text, q: nat, n: Text)
    requires Stands(b, q, n)
    ensures q + |n| <= |b|
  {
  }

  /** A search passes over a block that does not assign the name. */
  lemma {:induction false} FindPasses(t: Text, o: nat, b: Text, n: Text, k: nat)
    requires StandsAt(t, o, b) && IsBlock(b) && IsName(n) && k <= |b| && !Assigns(b, n)
    ensures FindAssign(t, n, o + k) == FindAssign(t, n, o + |b| + 1)
    decreases |b| - k
  {
    hide SkipSpace, SkipBlanks, AssignsAt, IsBlock;
    AssignsShift(t, o, b, k, n);
    FindStep(t, n, o + k);
    if k < |b| {
      FindPasses(t, o, b, n, k + 1);
    }
  }

  lemma FindStep(t: Text, n: Text, p: nat)
    ensures FindAssign(t, n, p) ==
            if p >= |t| then None else if AssignsAt(t, p, n) then Some(p) else FindAssign(t, n, p + 1)
  {
  }

  // ---------------------------------------------------------------------------
  // Blocks one behind the other
  // ---------------------------------------------------------------------------

  function Offset(bs: seq<Text>, k: nat): nat
    requires k <= |bs|
  {
    if k == 0 then 0 else |bs[0]| + 1 + Offset(bs[1..], k - 1)
  }

  ghost predicate AreBlocks(bs: seq<Text>) {
    forall k :: 0 <= k < |bs| ==> IsBlock(bs[k])
  }

  /** The joined blocks end the text from `o` on, at the start of a line. */
  ghost predicate EndsWith(t: Text, o: nat, bs: seq<Text>) {
    At(t, o, JoinLines(bs)) && o + |JoinLines(bs)| == |t| && (o == 0 || t[o - 1] == NEWLINE)
  }

  lemma BlockChars(b: Text)
    requires IsBlock(b)
    ensures var q := SkipSpace(b, 0); q < |b| && b[q] != EQUALS && !IsSpace(b[q]) && IsNameChar(b[q])
  {
    BlanksAreSpace(b, 0);
  }

  lemma {:induction false} BlanksAreSpace(b: Text, k: nat)
    requires SkipBlanks(b, k) < |b| && !IsSpace(b[SkipBlanks(b, k)])
    ensures SkipSpace(b, k) == SkipBlanks(b, k)
    decreases |b| - k
  {
    if k < |b| && (b[k] == 0x20 || b[k] == 0x09) {
      BlanksAreSpace(b, k + 1);
    }
  }

  lemma JoinedSplit(t: Text, o: nat, bs: seq<Text>)
    requires bs != [] && At(t, o, JoinLines(bs))
    ensures At(t, o, bs[0]) && o + |bs[0]| < |t| && t[o + |bs[0]|] == NEWLINE
    ensures At(t, o + |bs[0]| + 1, JoinLines(bs[1..]))
    ensures |JoinLines(bs)| == |bs[0]| + 1 + |JoinLines(bs[1..])|
  {
    hide At;
    var b := bs[0];
    AtSplit(t, o, b + [NEWLINE], JoinLines(bs[1..]));
    AtSplit(t, o, b, [NEWLINE]);
    AtElement(t, o + |b|, [NEWLINE], 0);
    AtBound(t, o + |b|, [NEWLINE]);
  }

  /** The first of the joined blocks stands on its own, and the others behind it. */
  lemma FirstBlock(t: Text, o: nat, bs: seq<Text>)
    requires bs != [] && EndsWith(t, o, bs) && AreBlocks(bs)
    ensures StandsAt(t, o, bs[0]) && IsBlock(bs[0]) && EndsWith(t, o + |bs[0]| + 1, bs[1..]) && AreBlocks(bs[1..])
  {
    hide At, SkipSpace, IsBlock, JoinLines;
    var b := bs[0];
    JoinedSplit(t, o, bs);
    SkipsBreak(t, o + |b|);
    if |bs| > 1 {
      NextStarts(t, o + |b| + 1, bs[1..]);
    } else {
      JoinsNothing(bs[1..]);
      SkipAtEnd(t, o + |b| + 1);
    }
  }

  lemma JoinsNothing(bs: seq<Text>)
    requires |bs| == 0
    ensures JoinLines(bs) == []
  {
  }

  lemma SkipsBreak(t: Text, i: nat)
    requires i < |t| && t[i] == NEWLINE
    ensures SkipSpace(t, i) == SkipSpace(t, i + 1)
  {
  }

  lemma SkipAtEnd(t: Text, i: nat)
    requires i >= |t|
    ensures SkipSpace(t, i) == i
  {
  }

  lemma NextStarts(t: Text, o: nat, bs: seq<Text>)
    requires bs != [] && At(t, o, JoinLines(bs)) && IsBlock(bs[0])
    ensures var q := SkipSpace(t, o); q < |t| && t[q] != EQUALS && IsNameChar(t[q]) && !IsSpace(t[q])
    ensures SkipSpace(t, o) == o + SkipSpace(bs[0], 0)
  {
    hide At, SkipSpace, IsBlock;
    var b := bs[0];
    AtSplit(t, o, b + [NEWLINE], JoinLines(bs[1..]));
    AtSplit(t, o, b, [NEWLINE]);
    BlockChars(b);
    SpaceShift(t, o, b, 0);
    AtElement(t, o, b, SkipSpace(b, 0));
    AtBound(t, o, b);
  }

  /** The search finds the first block that assigns the name, if that one does so at its start. */
  lemma {:induction false} FindsBlock(t: Text, o: nat, bs: seq<Text>, k: nat, n: Text)
    requires EndsWith(t, o, bs) && AreBlocks(bs) && IsName(n) && k < |bs|
    requires (forall j :: 0 <= j < k ==> !Assigns(bs[j], n)) && AssignsAt(bs[k], 0, n)
    ensures FindAssign(t, n, o) == Some(o + Offset(bs, k))
    ensures StandsAt(t, o + Offset(bs, k), bs[k]) && IsBlock(bs[k])
    decreases k
  {
    hide At, SkipSpace, IsBlock, AssignsAt, Assigns, StandsAt, EndsWith, FindAssign;
    FirstBlock(t, o, bs);
    var b := bs[0];
    if k == 0 {
      AssignsShift(t, o, b, 0, n);
      BlockStarts(b);
      InText(t, o, b);
      FindStep(t, n, o);
      assert o + 0 == o;
    } else {
      FindPasses(t, o, b, n, 0);
      FindsBlock(t, o + |b| + 1, bs[1..], k - 1, n);
    }
  }

  lemma BlockStarts(b: Text)
    requires IsBlock(b)
    ensures b != []
  {
  }

  lemma InText(t: Text, o: nat, b: Text)
    requires StandsAt(t, o, b)
    ensures o < |t|
  {
  }

  lemma {:induction false} FindsNoBlock(t: Text, o: nat, bs: seq<Text>, n: Text)
    requires EndsWith(t, o, bs) && AreBlocks(bs) && IsName(n)
    requires forall j :: 0 <= j < |bs| ==> !Assigns(bs[j], n)
    ensures FindAssign(t, n, o) == None
    decreases |bs|
  {
    hide At, SkipSpace, IsBlock, AssignsAt, Assigns, StandsAt, FindAssign;
    if bs == [] {
      FindStep(t, n, o);
    } else {
      FirstBlock(t, o, bs);
      FindPasses(t, o, bs[0], n, 0);
      FindsNoBlock(t, o + |bs[0]| + 1, bs[1..], n);
    }
  }

  lemma {:induction false} RestStands(t: Text, o: nat, bs: seq<Text>, k: nat)
    requires EndsWith(t, o, bs) && AreBlocks(bs) && k <= |bs|
    ensures EndsWith(t, o + Offset(bs, k), bs[k..]) && AreBlocks(bs[k..])
    decreases k
  {
    hide At, IsBlock, StandsAt, EndsWith;
    if k > 0 {
      FirstBlock(t, o, bs);
      RestStands(t, o + |bs[0]| + 1, bs[1..], k - 1);
      assert bs[1..][k - 1..] == bs[k..];
    } else {
      assert bs[0..] == bs && o + 0 == o;
    }
  }

  /** Behind a block, the next one starts with a character of its name. */
  lemma NextBlock(bs: seq<Text>, k: nat)
    requires AreBlocks(bs) && k + 1 < |bs|
    ensures var t := JoinLines(bs);
            var q := SkipSpace(t, Offset(bs, k) + |bs[k]|);
            q < |t| && IsNameChar(t[q])
  {
    hide At, IsBlock, JoinLines, SkipSpace;
    var t, o := JoinLines(bs), Offset(bs, k);
    WholeText(bs);
    RestStands(t, 0, bs, k);
    FirstBlock(t, o, bs[k..]);
    SkipsBreak(t, o + |bs[k]|);
    assert bs[k..][1..] == bs[k + 1..];
    NextStarts(t, o + |bs[k]| + 1, bs[k + 1..]);
  }

  lemma WholeText(bs: seq<Text>)
    ensures EndsWith(JoinLines(bs), 0, bs)
  {
    AtWhole(JoinLines(bs));
  }

  // ---------------------------------------------------------------------------
  // Values of the kinds of blocks
  // ---------------------------------------------------------------------------

  /** Extracting the block's assignment from where it stands gives the block. */
  ghost predicate IsStable(b: Text, n: Text) {
    forall t: Text, o: nat :: StandsAt(t, o, b) ==> AssignmentAt(t, o, n) == Some(b)
  }

  lemma TrimEndKeeps(b: Text)
    requires b != [] && !IsSpace(b[|b| - 1])
    ensures TrimEnd(b) == b
  {
  }

  lemma {:induction false} BreakBehind(t: Text, i: nat, e: nat)
    requires i <= e < |t| && t[e] == NEWLINE && forall k :: i <= k < e ==> t[k] != NEWLINE
    ensures IndexOf(t, NEWLINE, i) == e
    decreases e - i
  {
    if i < e {
      BreakBehind(t, i + 1, e);
    }
  }

  /** A block whose value is no group and has no line break behind its start. */
  lemma PlainBlockStable(b: Text, n: Text)
    requires IsBlock(b) && IsName(n) && AssignsAt(b, 0, n)
    requires var v := ValueStart(b, 0, n);
             && v < |b| && b[v] != LBRACE && b[v] != LBRACKET
             && forall k :: v <= k < |b| ==> b[k] != NEWLINE
    ensures IsStable(b, n)
  {
    hide At, SkipSpace, SkipBlanks, IsBlock, AssignsAt, ValueStart;
    forall t: Text, o: nat | StandsAt(t, o, b) ensures AssignmentAt(t, o, n) == Some(b) {
      PlainBlockFound(t, o, b, n);
    }
  }

  lemma PlainBlockFound(t: Text, o: nat, b: Text, n: Text)
    requires StandsAt(t, o, b) && IsBlock(b) && IsName(n) && AssignsAt(b, 0, n)
    requires var v := ValueStart(b, 0, n);
             && v < |b| && b[v] != LBRACE && b[v] != LBRACKET
             && forall k :: v <= k < |b| ==> b[k] != NEWLINE
    ensures AssignmentAt(t, o, n) == Some(b)
  {
    hide At, SkipSpace, SkipBlanks, TrimEnd, AssignsAt, ValueStart;
    var v := ValueStart(b, 0, n);
    ValueShift(t, o, b, n);
    forall k | o + v <= k < o + |b| ensures t[k] != NEWLINE {
      AtElement(t, o, b, k - o);
    }
    BreakBehind(t, o + v, o + |b|);
    SliceIs(t, o, b);
    TrimEndKeeps(b);
  }

  /** A block whose value is a group that ends with the block. */
  lemma GroupBlockStable(b: Text, n: Text)
    requires IsBlock(b) && IsName(n) && AssignsAt(b, 0, n)
    requires var v := ValueStart(b, 0, n);
             && v < |b| && (b[v] == LBRACE || b[v] == LBRACKET)
             && CloseAt(b, v, b[v] == LBRACE, 0) == Ok(|b|)
    ensures IsStable(b, n)
  {
    hide At, SkipSpace, SkipBlanks, CloseAt, IsBlock, AssignsAt, ValueStart;
    forall t: Text, o: nat | StandsAt(t, o, b) ensures AssignmentAt(t, o, n) == Some(b) {
      GroupBlockFound(t, o, b, n);
    }
  }

  lemma ValueShift(t: Text, o: nat, b: Text, n: Text)
    requires StandsAt(t, o, b) && IsBlock(b) && IsName(n) && AssignsAt(b, 0, n) && ValueStart(b, 0, n) < |b|
    ensures ValueStart(t, o, n) == o + ValueStart(b, 0, n) && o + ValueStart(b, 0, n) < |t|
    ensures t[o + ValueStart(b, 0, n)] == b[ValueStart(b, 0, n)]
  {
    hide At, SkipSpace, SkipBlanks, IsBlock, AssignsAt, EqualsAt;
    AssignsShift(t, o, b, 0, n);
    BlockStarts(b);
    assert o + 0 == o;
    EqualsInside(b, n);
    SpaceShift(t, o, b, EqualsAt(b, 0, n) + 1);
    AtElement(t, o, b, ValueStart(b, 0, n));
    AtBound(t, o, b);
  }

  lemma EqualsInside(b: Text, n: Text)
    requires AssignsAt(b, 0, n)
    ensures EqualsAt(b, 0, n) < |b|
  {
  }

  lemma GroupBlockFound(t: Text, o: nat, b: Text, n: Text)
    requires StandsAt(t, o, b) && IsBlock(b) && IsName(n) && AssignsAt(b, 0, n)
    requires var v := ValueStart(b, 0, n);
             && v < |b| && (b[v] == LBRACE || b[v] == LBRACKET)
             && CloseAt(b, v, b[v] == LBRACE, 0) == Ok(|b|)
    ensures AssignmentAt(t, o, n) == Some(b)
  {
    hide At, SkipSpace, SkipBlanks, CloseAt, IsBlock, AssignsAt, ValueStart;
    var v := ValueStart(b, 0, n);
    ValueShift(t, o, b, n);
    CloseShift(t, o, b, v, b[v] == LBRACE, 0);
    SliceIs(t, o, b);
  }

  lemma {:induction false} StringShift(t: Text, o: nat, b: Text, i: nat)
    requires At(t, o, b) && StringEndAt(b, i).Some?
    ensures StringEndAt(t, o + i) == Some(o + StringEndAt(b, i).value)
    decreases |b| - i
  {
    hide At;
    AtElement(t, o, b, i);
    AtBound(t, o, b);
    if b[i] == BACKSLASH {
      StringShift(t, o, b, i + 2);
    } else if b[i] != QUOTE {
      StringShift(t, o, b, i + 1);
    }
  }

  lemma {:induction false} CloseShift(t: Text, o: nat, b: Text, i: nat, obj: bool, depth: int)
    requires At(t, o, b) && CloseAt(b, i, obj, depth).Ok?
    ensures CloseAt(t, o + i, obj, depth) == Ok(o + CloseAt(b, i, obj, depth).value)
    decreases |b| - i
  {
    hide At, StringEndAt;
    AtElement(t, o, b, i);
    AtBound(t, o, b);
    if b[i] == QUOTE {
      StringShift(t, o, b, i + 1);
      CloseShift(t, o, b, StringEndAt(b, i + 1).value, obj, depth);
    } else if b[i] == Opener(obj) {
      CloseShift(t, o, b, i + 1, obj, depth + 1);
    } else if b[i] == Closer(obj) {
      if depth != 1 {
        CloseShift(t, o, b, i + 1, obj, depth - 1);
      }
    } else {
      CloseShift(t, o, b, i + 1, obj, depth);
    }
  }
}
