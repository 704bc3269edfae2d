// Every match of an approval pattern begins with the name of its tool.

module ApprovalAnchoring {
  import opened Results
  import opened Texts
  import opened ApprovalSyntax
  import opened ApprovalWalk
  import opened ApprovalMatching
  import opened ApprovalTargets

  /** A fixed piece of a pattern: a literal character, or a word boundary. */
  datatype Item = Letter(c: Code) | Edge

  function ItemText(x: Item): (t: Text)
    ensures t != []
  {
    match x case Letter(c) => EscapeChar(c) case Edge => BOUNDARY
  }

  function ItemsText(xs: seq<Item>): Text {
    if xs == [] then [] else ItemText(xs[0]) + ItemsText(xs[1..])
  }

  function Letters(w: Text): seq<Item> {
    if w == [] then [] else [Letter(w[0])] + Letters(w[1..])
  }

  /** The characters that the pieces consume. */
  function Width(xs: seq<Item>): nat {
    if xs == [] then 0 else (if xs[0].Letter? then 1 else 0) + Width(xs[1..])
  }

  /** The pieces match at `i`: characters up to case, boundaries where they stand. */
  predicate Fits(s: Text, i: nat, xs: seq<Item>, e: Engine)
    decreases |xs|
  {
    if xs == [] then true
    else match xs[0]
         case Letter(c) => i < |s| && e.fold(c) == e.fold(s[i]) && Fits(s, i + 1, xs[1..], e)
         case Edge => Holds(WordBoundary, s, i) && Fits(s, i, xs[1..], e)
  }

  /**
   * Every match of `r` begins with the first `k` pieces; if pieces are left, the match ends right
   * behind these and so does the source text of `r`.
   */
  ghost predicate Eats(r: Regex, xs: seq<Item>, k: nat, e: Engine) {
    && k <= |xs| && (k < |xs| ==> |Source(r)| == |ItemsText(xs[..k])|)
    && forall s: Text, i: nat, n: nat :: i <= |s| && n < |Tries(r, s, i, false, e)|
         ==> HitFits(s, i, Tries(r, s, i, false, e)[n], xs, k, e)
  }

  predicate HitFits(s: Text, i: nat, t: Try, xs: seq<Item>, k: nat, e: Engine)
    requires k <= |xs|
  {
    t.Hit? ==> Fits(s, i, xs[..k], e) && i + Width(xs[..k]) <= t.end && (k < |xs| ==> t.end == i + Width(xs[..k]))
  }

  lemma {:induction false} FitsConcat(s: Text, i: nat, a: seq<Item>, b: seq<Item>, e: Engine)
    ensures Fits(s, i, a + b, e) <==> Fits(s, i, a, e) && Fits(s, i + Width(a), b, e)
    ensures Width(a + b) == Width(a) + Width(b)
    decreases |a|
  {
    if a == [] {
      assert a + b == b;
    } else {
      assert (a + b)[1..] == a[1..] + b;
      FitsConcat(s, if a[0].Letter? then i + 1 else i, a[1..], b, e);
    }
  }

  lemma {:induction false} TextConcat(a: seq<Item>, b: seq<Item>)
    ensures ItemsText(a + b) == ItemsText(a) + ItemsText(b)
    decreases |a|
  {
    if a == [] {
      assert a + b == b;
    } else {
      assert (a + b)[1..] == a[1..] + b;
      TextConcat(a[1..], b);
    }
  }

  lemma NothingEaten(r: Regex, xs: seq<Item>, e: Engine)
    requires xs == [] || (r.Empty? && Source(r) == [])
    ensures Eats(r, xs, 0, e)
  {
    hide Tries;
    assert xs[..0] == [];
    forall s: Text, i: nat, n: nat | i <= |s| && n < |Tries(r, s, i, false, e)|
      ensures HitFits(s, i, Tries(r, s, i, false, e)[n], xs, 0, e)
    {
      assert Onward(Tries(r, s, i, false, e)[n], s, i, false);
      if r.Empty? {
        assert Tries(r, s, i, false, e) == [Hit(i)] by { EmptyTries(s, i, e); }
      }
    }
  }

  lemma EmptyTries(s: Text, i: nat, e: Engine)
    requires i <= |s|
    ensures Tries(Empty, s, i, false, e) == [Hit(i)]
  {
  }

  /** A piece stands where an atom or an assertion stands: then it is that piece. */
  lemma EatsItem(r: Regex, xs: seq<Item>, e: Engine)
    requires xs != []
    requires match xs[0] case Edge => r == Assert(WordBoundary) case Letter(c) => r == Atom(EscapeChar(c))
    ensures Eats(r, xs, 1, e)
  {
    assert xs[..1] == [xs[0]] && xs[..1][1..] == [];
    assert ItemsText(xs[..1]) == ItemText(xs[0]) + [];
    forall s: Text, i: nat, n: nat | i <= |s| && n < |Tries(r, s, i, false, e)|
      ensures HitFits(s, i, Tries(r, s, i, false, e)[n], xs, 1, e)
    {
      ItemFits(s, i, xs[0], r, e);
      FitsOne(s, i, xs[0], e);
    }
  }

  lemma ItemFits(s: Text, i: nat, x: Item, r: Regex, e: Engine)
    requires i <= |s|
    requires match x case Edge => r == Assert(WordBoundary) case Letter(c) => r == Atom(EscapeChar(c))
    ensures Tries(r, s, i, false, e) ==
            match x
            case Edge => [if Holds(WordBoundary, s, i) then Hit(i) else Miss]
            case Letter(c) => [if i < |s| && e.fold(c) == e.fold(s[i]) then Hit(i + 1) else Miss]
  {
    if x.Letter? {
      assert LiteralOf(EscapeChar(x.c)) == Some(x.c);
    }
  }

  lemma FitsOne(s: Text, i: nat, x: Item, e: Engine)
    ensures Width([x]) == if x.Letter? then 1 else 0
    ensures Fits(s, i, [x], e) ==
            match x case Letter(c) => i < |s| && e.fold(c) == e.fold(s[i]) case Edge => Holds(WordBoundary, s, i)
  {
    assert [x][1..] == [];
    assert Fits(s, i, [], e) && Fits(s, i + 1, [], e) && Width([]) == 0;
  }

  /** An atom that stands where a piece stands is the piece's character. */
  lemma AtomIsItem(p: Text, i: nat, t: Text, x: Item)
    requires IsAtom(t) && At(p, i, t) && At(p, i, ItemText(x))
    ensures x.Letter? && t == EscapeChar(x.c)
  {
    hide At, IsClassBody;
    AtElement(p, i, t, 0);
    AtElement(p, i, ItemText(x), 0);
    if |ItemText(x)| > 1 && |t| > 1 {
      AtElement(p, i, t, 1);
      AtElement(p, i, ItemText(x), 1);
    }
  }

  lemma AnchorIsItem(p: Text, i: nat, a: Anchor, x: Item)
    requires At(p, i, AnchorText(a)) && At(p, i, ItemText(x))
    ensures a.WordBoundary? && x.Edge?
  {
    hide At;
    AtElement(p, i, AnchorText(a), 0);
    AtElement(p, i, ItemText(x), 0);
    if |ItemText(x)| > 1 && |AnchorText(a)| > 1 {
      AtElement(p, i, AnchorText(a), 1);
      AtElement(p, i, ItemText(x), 1);
    }
  }

  lemma ItemNoGroup(p: Text, i: nat, x: Item)
    requires At(p, i, ItemText(x))
    ensures i < |p| && p[i] != LPAREN && !StartsQuantifier(p[i])
  {
    hide At;
    AtElement(p, i, ItemText(x), 0);
    AtBound(p, i, ItemText(x));
  }

  lemma FirstItem(p: Text, i: nat, xs: seq<Item>)
    requires xs != [] && At(p, i, ItemsText(xs))
    ensures At(p, i, ItemText(xs[0])) && At(p, i + |ItemText(xs[0])|, ItemsText(xs[1..]))
  {
    hide At, ItemText;
    AtSplit(p, i, ItemText(xs[0]), ItemsText(xs[1..]));
  }

  /** No quantifier stands behind the pieces, if the last one is a character. */
  ghost predicate Unquantified(p: Text, i: nat, xs: seq<Item>) {
    xs != [] && xs[|xs| - 1].Letter? ==> NoQuantifierAt(p, i + |ItemsText(xs)|)
  }

  lemma NoQuantifierBehind(p: Text, i: nat, xs: seq<Item>)
    requires At(p, i, ItemsText(xs)) && (xs == [] ==> NoQuantifierAt(p, i))
    ensures NoQuantifierAt(p, i)
  {
    hide At, ItemText;
    if xs != [] {
      FirstItem(p, i, xs);
      ItemNoGroup(p, i, xs[0]);
    }
  }

  lemma GroupStarts(r: Regex)
    requires r.Parens? || r.Look?
    ensures Source(r) != [] && Source(r)[0] == LPAREN
  {
  }

  /** A quantified piece does not stand in front of further pieces. */
  lemma RepeatIsNoItem(p: Text, i: nat, x: Regex, q: Quantifier, xs: seq<Item>)
    requires IsPattern(Repeat(x, q)) && At(p, i, Source(Repeat(x, q))) && xs != [] && At(p, i, ItemsText(xs))
    ensures !Unquantified(p, i, xs)
  {
    hide *;
    RepeatIsAtom(p, i, x, q, xs);
    if Unquantified(p, i, xs) {
      AtomIsUnquantified(p, i, x, q, xs);
    }
  }

  lemma RepeatIsAtom(p: Text, i: nat, x: Regex, q: Quantifier, xs: seq<Item>)
    requires IsPattern(Repeat(x, q)) && At(p, i, Source(Repeat(x, q))) && xs != [] && At(p, i, ItemsText(xs))
    ensures x.Atom? && !NoQuantifierAt(p, i + |Source(x)|)
  {
    hide At, IsAtom, ItemText, ItemsText, QuantifierText, NoQuantifierAt;
    AtSplit(p, i, Source(x), QuantifierText(q));
    QuantifierStarts(p, i + |Source(x)|, q);
    FirstItem(p, i, xs);
    ItemNoGroup(p, i, xs[0]);
    if !x.Atom? {
      GroupStarts(x);
    }
  }

  lemma AtomIsUnquantified(p: Text, i: nat, x: Regex, q: Quantifier, xs: seq<Item>)
    requires IsPattern(Repeat(x, q)) && At(p, i, Source(Repeat(x, q))) && xs != [] && At(p, i, ItemsText(xs))
    requires Unquantified(p, i, xs) && x.Atom?
    ensures NoQuantifierAt(p, i + |Source(x)|)
  {
    hide At, IsAtom, ItemText, ItemsText, QuantifierText, NoQuantifierAt;
    AtSplit(p, i, Source(x), QuantifierText(q));
    FirstItem(p, i, xs);
    AtomIsItem(p, i, x.text, xs[0]);
    ItemsLength(xs);
    NoQuantifierBehind(p, i + |x.text|, xs[1..]);
  }

  lemma ItemsLength(xs: seq<Item>)
    requires xs != []
    ensures |ItemsText(xs)| == |ItemText(xs[0])| + |ItemsText(xs[1..])|
    ensures |xs| == 1 ==> |ItemsText(xs)| == |ItemText(xs[0])|
    ensures xs[0].Letter? ==> ItemText(xs[0]) == EscapeChar(xs[0].c)
  {
  }

  lemma QuantifierStarts(p: Text, i: nat, q: Quantifier)
    requires At(p, i, QuantifierText(q))
    ensures !NoQuantifierAt(p, i)
  {
    hide At;
    AtElement(p, i, QuantifierText(q), 0);
    AtBound(p, i, QuantifierText(q));
  }

  /** A pattern whose source text begins with the pieces, or is made of some of them, matches them first. */
  lemma {:induction false} Leads(p: Text, i: nat, r: Regex, xs: seq<Item>, e: Engine) returns (k: nat)
    requires IsPattern(r) && !r.Choice? && At(p, i, Source(r))
    requires At(p, i, ItemsText(xs)) && Unquantified(p, i, xs)
    ensures Eats(r, xs, k, e)
    decreases r
  {
    hide At, Eats, IsAtom, ItemText, ItemsText, AnchorText, NoQuantifierAt;
    if xs == [] {
      k := 0;
      NothingEaten(r, xs, e);
      return;
    }
    if !r.Sequence? && !r.Empty? {
      FirstItem(p, i, xs);
      ItemNoGroup(p, i, xs[0]);
    }
    match r {
      case Empty =>
        k := 0;
        NothingEaten(r, xs, e);
      case Assert(a) =>
        k := 1;
        AnchorIsItem(p, i, a, xs[0]);
        EatsItem(r, xs, e);
      case Atom(t) =>
        k := 1;
        AtomIsItem(p, i, t, xs[0]);
        EatsItem(r, xs, e);
      case Parens(_, _) =>
        GroupStarts(r);
        AtElement(p, i, Source(r), 0);
        assert false;
      case Look(_, _, _) =>
        GroupStarts(r);
        AtElement(p, i, Source(r), 0);
        assert false;
      case Repeat(x, q) =>
        RepeatIsNoItem(p, i, x, q, xs);
      case Sequence(a, b) =>
        AtSplit(p, i, Source(a), Source(b));
        var k1 := Leads(p, i, a, xs, e);
        EatsLength(a, xs, k1, e);
        if k1 == |xs| {
          k := k1;
          EatsMore(a, b, xs, e);
        } else {
          DropItems(p, i, xs, k1);
          assert Unquantified(p, i + |Source(a)|, xs[k1..]);
          var k2 := Leads(p, i + |Source(a)|, b, xs[k1..], e);
          k := k1 + k2;
          EatsBoth(a, b, xs, k1, k2, e);
        }
    }
  }

  lemma EatsLength(r: Regex, xs: seq<Item>, k: nat, e: Engine)
    requires Eats(r, xs, k, e)
    ensures k <= |xs| && (k < |xs| ==> |Source(r)| == |ItemsText(xs[..k])|)
  {
  }

  lemma DropItems(p: Text, i: nat, xs: seq<Item>, k: nat)
    requires k <= |xs| && At(p, i, ItemsText(xs))
    ensures At(p, i + |ItemsText(xs[..k])|, ItemsText(xs[k..]))
    ensures |ItemsText(xs)| == |ItemsText(xs[..k])| + |ItemsText(xs[k..])|
  {
    hide At, ItemsText;
    assert xs == xs[..k] + xs[k..];
    TextConcat(xs[..k], xs[k..]);
    AtSplit(p, i, ItemsText(xs[..k]), ItemsText(xs[k..]));
  }

  /** A match of a sequence comes from a match of its first part. */
  lemma {:induction false} ContinueComesFrom(r: Regex, s: Text, i: nat, ts: seq<Try>, e: Engine, n: nat)
    returns (m: nat, l: nat)
    requires i <= |s| && AllOnward(ts, s, i, false)
    requires n < |Continue(r, s, i, ts, false, e)| && Continue(r, s, i, ts, false, e)[n].Hit?
    ensures m < |ts| && ts[m].Hit? && i <= ts[m].end <= |s| && l < |Tries(r, s, ts[m].end, false, e)|
    ensures Continue(r, s, i, ts, false, e)[n] == Tries(r, s, ts[m].end, false, e)[l]
    decreases |ts|
  {
    hide Tries;
    var first := match ts[0] case Miss => [Miss] case Hit(j) => Tries(r, s, j, false, e);
    if n < |first| {
      m, l := 0, n;
      assert Onward(ts[0], s, i, false);
    } else {
      m, l := ContinueComesFrom(r, s, i, ts[1..], e, n - |first|);
      assert ts[1..][m] == ts[m + 1];
      m := m + 1;
    }
  }

  lemma SequenceTries(a: Regex, b: Regex, s: Text, i: nat, e: Engine)
    requires i <= |s|
    ensures Tries(Sequence(a, b), s, i, false, e) == Continue(b, s, i, Tries(a, s, i, false, e), false, e)
  {
    hide Continue;
  }

  lemma EatsMore(a: Regex, b: Regex, xs: seq<Item>, e: Engine)
    requires Eats(a, xs, |xs|, e)
    ensures Eats(Sequence(a, b), xs, |xs|, e)
  {
    hide Tries, Continue, Fits, Source, ItemsText, Width;
    var r := Sequence(a, b);
    forall s: Text, i: nat, n: nat | i <= |s| && n < |Tries(r, s, i, false, e)|
      ensures HitFits(s, i, Tries(r, s, i, false, e)[n], xs, |xs|, e)
    {
      SequenceTries(a, b, s, i, e);
      var ts := Tries(a, s, i, false, e);
      if Tries(r, s, i, false, e)[n].Hit? {
        var m, l := ContinueComesFrom(b, s, i, ts, e, n);
        assert HitFits(s, i, ts[m], xs, |xs|, e);
        assert Onward(Tries(b, s, ts[m].end, false, e)[l], s, ts[m].end, false);
      }
    }
  }

  lemma EatsBoth(a: Regex, b: Regex, xs: seq<Item>, k1: nat, k2: nat, e: Engine)
    requires k1 < |xs| && Eats(a, xs, k1, e) && Eats(b, xs[k1..], k2, e)
    ensures Eats(Sequence(a, b), xs, k1 + k2, e)
  {
    hide Tries, Continue, Fits, ItemsText, Width, HitFits;
    var r := Sequence(a, b);
    assert xs[..k1 + k2] == xs[..k1] + xs[k1..][..k2];
    TextConcat(xs[..k1], xs[k1..][..k2]);
    forall s: Text, i: nat, n: nat | i <= |s| && n < |Tries(r, s, i, false, e)|
      ensures HitFits(s, i, Tries(r, s, i, false, e)[n], xs, k1 + k2, e)
    {
      SequenceTries(a, b, s, i, e);
      var ts := Tries(a, s, i, false, e);
      if Tries(r, s, i, false, e)[n].Hit? {
        var m, l := ContinueComesFrom(b, s, i, ts, e, n);
        assert HitFits(s, i, ts[m], xs, k1, e);
        assert HitFits(s, ts[m].end, Tries(b, s, ts[m].end, false, e)[l], xs[k1..], k2, e);
        HitFitsBoth(s, i, ts[m], Tries(b, s, ts[m].end, false, e)[l], xs, k1, k2, e);
      } else {
        MissFits(s, i, xs, k1 + k2, e);
      }
    }
  }

  lemma MissFits(s: Text, i: nat, xs: seq<Item>, k: nat, e: Engine)
    requires k <= |xs|
    ensures HitFits(s, i, Miss, xs, k, e)
  {
  }

  lemma HitFitsBoth(s: Text, i: nat, t: Try, u: Try, xs: seq<Item>, k1: nat, k2: nat, e: Engine)
    requires k1 < |xs| && k1 + k2 <= |xs| && t.Hit? && u.Hit?
    requires HitFits(s, i, t, xs, k1, e) && HitFits(s, t.end, u, xs[k1..], k2, e)
    ensures HitFits(s, i, u, xs, k1 + k2, e)
  {
    hide Fits, Width;
    assert xs[..k1 + k2] == xs[..k1] + xs[k1..][..k2];
    FitsConcat(s, i, xs[..k1], xs[k1..][..k2], e);
  }

  // ---------------------------------------------------------------------------
  // The tool's name
  // ---------------------------------------------------------------------------

  /** The text `w` stands at `i`, up to case. */
  predicate FoldedAt(s: Text, i: nat, w: Text, e: Engine) {
    i + |w| <= |s| && forall k :: 0 <= k < |w| ==> e.fold(w[k]) == e.fold(s[i + k])
  }

  lemma FoldedStep(s: Text, i: nat, w: Text, e: Engine)
    requires w != []
    ensures FoldedAt(s, i, w, e) <==> i < |s| && e.fold(w[0]) == e.fold(s[i]) && FoldedAt(s, i + 1, w[1..], e)
  {
    if FoldedAt(s, i, w, e) {
      forall k | 0 <= k < |w| - 1 ensures e.fold(w[1..][k]) == e.fold(s[i + 1 + k]) {
        assert w[1..][k] == w[k + 1];
      }
    }
    if i < |s| && e.fold(w[0]) == e.fold(s[i]) && FoldedAt(s, i + 1, w[1..], e) {
      forall k | 0 <= k < |w| ensures e.fold(w[k]) == e.fold(s[i + k]) {
        if k > 0 {
          assert w[k] == w[1..][k - 1];
        }
      }
    }
  }

  lemma {:induction false} LettersText(w: Text)
    ensures Width(Letters(w)) == |w| && ItemsText(Letters(w)) == EscapeRegex(w)
    decreases |w|
  {
    if w != [] {
      assert Letters(w)[1..] == Letters(w[1..]);
      LettersText(w[1..]);
    }
  }

  lemma {:induction false} LettersFit(s: Text, i: nat, w: Text, e: Engine)
    requires i <= |s|
    ensures Fits(s, i, Letters(w), e) <==> FoldedAt(s, i, w, e)
    decreases |w|
  {
    hide FoldedAt;
    if w == [] {
      NothingFolded(s, i, e);
    } else {
      assert Letters(w)[1..] == Letters(w[1..]);
      FoldedStep(s, i, w, e);
      if i < |s| {
        LettersFit(s, i + 1, w[1..], e);
      }
    }
  }

  /** A word boundary, the tool's name, and a word boundary. */
  function ToolItems(binary: Text): seq<Item> {
    [Edge] + Letters(binary) + [Edge]
  }

  lemma ToolText(binary: Text)
    ensures ItemsText(ToolItems(binary)) == BOUNDARY + EscapeRegex(binary) + BOUNDARY
  {
    hide Letters, EscapeRegex;
    LettersText(binary);
    TextConcat([Edge] + Letters(binary), [Edge]);
    TextConcat([Edge], Letters(binary));
    EdgeText();
  }

  lemma EdgeText()
    ensures ItemsText([Edge]) == BOUNDARY
  {
    assert [Edge][1..] == [];
    assert ItemsText([]) == [];
    assert BOUNDARY + [] == BOUNDARY;
  }

  /** The tool's name stands at `i`, up to case, between word boundaries. */
  predicate Begins(s: Text, i: nat, binary: Text, e: Engine) {
    Holds(WordBoundary, s, i) && FoldedAt(s, i, binary, e) && Holds(WordBoundary, s, i + |binary|)
  }

  lemma ToolFits(s: Text, i: nat, binary: Text, e: Engine)
    requires i <= |s| && Fits(s, i, ToolItems(binary), e)
    ensures Begins(s, i, binary, e) && Width(ToolItems(binary)) == |binary|
  {
    hide Letters, Fits, Width;
    FitsConcat(s, i, [Edge] + Letters(binary), [Edge], e);
    FitsConcat(s, i, [Edge], Letters(binary), e);
    FitsOne(s, i, Edge, e);
    FitsOne(s, i + |binary|, Edge, e);
    LettersText(binary);
    LettersFit(s, i, binary, e);
  }

  /** If the source text of a pattern starts with the tool's name, so does every match. */
  lemma StartsWithTool(r: Regex, binary: Text, s: Text, i: nat, e: Engine, n: nat)
    requires IsPattern(r) && !r.Choice? && ItemsText(ToolItems(binary)) <= Source(r)
    requires i <= |s| && n < |Tries(r, s, i, false, e)| && Tries(r, s, i, false, e)[n].Hit?
    ensures Begins(s, i, binary, e) && i + |binary| <= Tries(r, s, i, false, e)[n].end
  {
    hide Tries, ItemsText, Source, IsPattern, Fits, Begins, Width, ToolItems, At;
    var p, xs := Source(r), ToolItems(binary);
    ToolEnd(binary);
    AtWhole(p);
    PrefixAt(p, ItemsText(xs));
    var k := Leads(p, 0, r, xs, e);
    assert HitFits(s, i, Tries(r, s, i, false, e)[n], xs, k, e);
    if k < |xs| {
      EatsLength(r, xs, k, e);
      ShorterText(xs, k);
    }
    assert xs[..k] == xs;
    ToolFits(s, i, binary, e);
  }

  lemma ToolEnd(binary: Text)
    ensures var xs := ToolItems(binary); xs[|xs| - 1] == Edge
  {
  }

  lemma PrefixAt(p: Text, t: Text)
    requires t <= p
    ensures At(p, 0, t)
  {
  }

  lemma ShorterText(xs: seq<Item>, k: nat)
    requires k < |xs|
    ensures |ItemsText(xs[..k])| < |ItemsText(xs)|
  {
    assert xs == xs[..k] + xs[k..];
    TextConcat(xs[..k], xs[k..]);
    ItemsLength(xs[k..]);
  }

  /**
   * A pattern that is accepted as targeting its tool matches only texts that begin with the tool's
   * name, up to case, between word boundaries.
   */
  lemma TargetedMatchesTool(r: Regex, binary: Text, s: Text, i: nat, e: Engine, n: nat)
    requires IsPattern(r) && TargetsTool(binary, Source(r))
    requires i <= |s| && n < |Tries(r, s, i, false, e)| && Tries(r, s, i, false, e)[n].Hit?
    ensures Begins(s, i, binary, e) && i + |binary| <= Tries(r, s, i, false, e)[n].end
  {
    hide Tries, Source, IsPattern, EscapeRegex, Begins, NoQuantifierAt, BarFrom;
    BarMeansChoice(r, true);
    ToolText(binary);
    StartsWithTool(r, binary, s, i, e, n);
  }

  // ---------------------------------------------------------------------------
  // Compiled commands
  // ---------------------------------------------------------------------------

  const SPACE_CLASS: Text := [BACKSLASH, 0x73]

  /** The words of a command: `command.trim().split(/\s+/).filter(Boolean)`. */
  function Words(command: Text): seq<Text> {
    WordsFrom(command, 0)
  }

  function WordEnd(s: Text, i: nat): (e: nat)
    requires i <= |s|
    ensures i <= e <= |s|
    ensures i < |s| && !IsSpace(s[i]) ==> i < e
    ensures forall k :: i <= k < e ==> !IsSpace(s[k])
    decreases |s| - i
  {
    if i < |s| && !IsSpace(s[i]) then WordEnd(s, i + 1) else i
  }

  function WordsFrom(s: Text, i: nat): (ws: seq<Text>)
    ensures forall k :: 0 <= k < |ws| ==> ws[k] != []
    decreases |s| - i
  {
    if i >= |s| then []
    else if IsSpace(s[i]) then WordsFrom(s, i + 1)
    else [s[i..WordEnd(s, i)]] + WordsFrom(s, WordEnd(s, i))
  }

  /** The escaped words, each but the first one behind `\s+`. */
  function JoinedText(ws: seq<Text>): Text
    requires ws != []
  {
    if |ws| == 1 then EscapeRegex(ws[0]) else EscapeRegex(ws[0]) + SPACE_CLASS + [PLUS] + JoinedText(ws[1..])
  }

  /** `(?:\b|(?=\s|$))`. */
  const END_TEXT: Text :=
    [LPAREN, QMARK, COLON, BACKSLASH, SMALL_B, PIPE, LPAREN, QMARK, EQUALS, BACKSLASH, 0x73, PIPE, DOLLAR, RPAREN,
     RPAREN]

  /** The pattern that compileApproval makes for a command. */
  function CompiledPattern(binary: Text, command: Text): Text {
    BOUNDARY + JoinedText([binary] + Words(command)) + END_TEXT
  }

  function Spelled(w: Text): Regex {
    if w == [] then Empty else Sequence(Atom(EscapeChar(w[0])), Spelled(w[1..]))
  }

  const GAP: Regex := Repeat(Atom(SPACE_CLASS), Quantifier(Bound.Plus, false))

  const SPACE_OR_END: Regex := Choice(Atom(SPACE_CLASS), Assert(InputEnd))
  const AHEAD: Regex := Look(false, false, SPACE_OR_END)
  const EDGE_OR_AHEAD: Regex := Choice(Assert(WordBoundary), AHEAD)
  const END: Regex := Parens(Opening.Plain, EDGE_OR_AHEAD)

  function Joined(ws: seq<Text>): Regex
    requires ws != []
  {
    if |ws| == 1 then Spelled(ws[0]) else Sequence(Spelled(ws[0]), Sequence(GAP, Joined(ws[1..])))
  }

  function Compiled(binary: Text, command: Text): Regex {
    Sequence(Assert(WordBoundary), Sequence(Joined([binary] + Words(command)), END))
  }

  lemma {:induction false} SpelledPrints(w: Text)
    ensures IsPattern(Spelled(w)) && Source(Spelled(w)) == EscapeRegex(w) && !Spelled(w).Choice?
  {
    if w != [] {
      SpelledPrints(w[1..]);
    }
  }

  lemma GapPrints()
    ensures IsPattern(GAP) && Source(GAP) == SPACE_CLASS + [PLUS]
  {
    assert QuantifierText(Quantifier(Bound.Plus, false)) == [PLUS];
    assert IsPattern(Atom(SPACE_CLASS));
  }

  lemma EndPrints()
    ensures IsPattern(END) && Source(END) == END_TEXT
  {
    assert IsPattern(Assert(InputEnd)) && IsPattern(Assert(WordBoundary)) && IsPattern(Atom(SPACE_CLASS));
    assert Source(SPACE_OR_END) == SPACE_CLASS + [PIPE] + [DOLLAR] && IsPattern(SPACE_OR_END);
    assert Source(AHEAD) == LookText(false, false) + Source(SPACE_OR_END) + [RPAREN] && IsPattern(AHEAD);
    assert LookText(false, false) == [LPAREN, QMARK, EQUALS];
    assert Source(EDGE_OR_AHEAD) == BOUNDARY + [PIPE] + Source(AHEAD) && IsPattern(EDGE_OR_AHEAD);
  }

  lemma {:induction false} JoinedPrints(ws: seq<Text>)
    requires ws != []
    ensures IsPattern(Joined(ws)) && Source(Joined(ws)) == JoinedText(ws) && !Joined(ws).Choice?
  {
    hide EscapeRegex, Spelled;
    SpelledPrints(ws[0]);
    GapPrints();
    if |ws| > 1 {
      JoinedPrints(ws[1..]);
      assert EscapeRegex(ws[0]) + (SPACE_CLASS + [PLUS] + JoinedText(ws[1..])) ==
             EscapeRegex(ws[0]) + SPACE_CLASS + [PLUS] + JoinedText(ws[1..]);
    }
  }

  /** The compiled text is the source text of a pattern. */
  lemma CompiledPrints(binary: Text, command: Text)
    ensures IsPattern(Compiled(binary, command)) && Source(Compiled(binary, command)) == CompiledPattern(binary, command)
  {
    hide JoinedText, Joined, Words;
    var ws := [binary] + Words(command);
    JoinedPrints(ws);
    EndPrints();
    assert BOUNDARY + (JoinedText(ws) + END_TEXT) == BOUNDARY + JoinedText(ws) + END_TEXT;
  }

  /** escapeRegex denotes exactly its text, up to case. */
  lemma {:induction false} SpelledMatches(w: Text, s: Text, i: nat, e: Engine)
    requires i <= |s|
    ensures Tries(Spelled(w), s, i, false, e) == [if FoldedAt(s, i, w, e) then Hit(i + |w|) else Miss]
    decreases |w|
  {
    hide Tries, FoldedAt, Continue;
    if w == [] {
      EmptyTries(s, i, e);
      NothingFolded(s, i, e);
    } else {
      var a, b := Atom(EscapeChar(w[0])), Spelled(w[1..]);
      SequenceTries(a, b, s, i, e);
      ItemFits(s, i, Letter(w[0]), a, e);
      var ts := Tries(a, s, i, false, e);
      ContinueOne(b, s, i, ts[0], e);
      FoldedStep(s, i, w, e);
      if ts[0].Hit? {
        SpelledMatches(w[1..], s, i + 1, e);
      }
    }
  }

  lemma NothingFolded(s: Text, i: nat, e: Engine)
    requires i <= |s|
    ensures FoldedAt(s, i, [], e)
  {
  }

  lemma ContinueOne(r: Regex, s: Text, i: nat, t: Try, e: Engine)
    requires i <= |s| && Onward(t, s, i, false)
    ensures Continue(r, s, i, [t], false, e) ==
            match t case Miss => [Miss] case Hit(j) => Tries(r, s, j, false, e)
  {
    hide Tries;
    assert [t][1..] == [];
    assert Continue(r, s, i, [], false, e) == [];
  }

  /** Between `i` and `j` there are words, up to case, one behind the other with white space between them. */
  ghost predicate SpelledOut(s: Text, i: nat, j: nat, ws: seq<Text>, e: Engine)
    decreases |ws|
  {
    if ws == [] then i == j
    else
      && FoldedAt(s, i, ws[0], e)
      && if |ws| == 1 then j == i + |ws[0]|
         else exists m: nat :: SpacesBetween(s, i + |ws[0]|, m, e) && SpelledOut(s, m, j, ws[1..], e)
  }

  predicate SpacesBetween(s: Text, i: nat, j: nat, e: Engine) {
    i < j <= |s| && forall k :: i <= k < j ==> e.inSet(SPACE_CLASS, s[k])
  }

  lemma {:induction false} RunMatches(s: Text, i: nat, from: nat, min: nat, e: Engine, n: nat)
    requires from <= i <= |s| && (forall k :: from <= k < i ==> e.inSet(SPACE_CLASS, s[k])) && (min > 0 || from < i)
    requires min <= 1
    requires var ts := Repeats(Atom(SPACE_CLASS), min, None, false, s, i, false, e); n < |ts| && ts[n].Hit?
    ensures SpacesBetween(s, from, Repeats(Atom(SPACE_CLASS), min, None, false, s, i, false, e)[n].end, e)
    decreases |s| - i
  {
    var x := Atom(SPACE_CLASS);
    var first := Tries(x, s, i, false, e);
    assert first == [first[0]] && first[1..] == [];
    assert Again(x, min, None, false, s, i, [], false, e) == [];
    var more := Again(x, min, None, false, s, i, first, false, e);
    if n < |more| && first[0].Hit? {
      assert more == Repeats(x, 0, None, false, s, i + 1, false, e) + [];
      RunMatches(s, i + 1, from, 0, e, n);
    }
  }

  lemma GapTries(s: Text, i: nat, e: Engine)
    requires i <= |s|
    ensures Tries(GAP, s, i, false, e) == Repeats(Atom(SPACE_CLASS), 1, None, false, s, i, false, e)
  {
    hide Repeats;
  }

  lemma {:induction false} JoinedMatches(ws: seq<Text>, s: Text, i: nat, e: Engine, n: nat)
    requires ws != [] && i <= |s|
    requires n < |Tries(Joined(ws), s, i, false, e)| && Tries(Joined(ws), s, i, false, e)[n].Hit?
    ensures SpelledOut(s, i, Tries(Joined(ws), s, i, false, e)[n].end, ws, e)
    decreases |ws|
  {
    hide Tries, FoldedAt, Continue, Repeats, Spelled, SpacesBetween;
    SpelledMatches(ws[0], s, i, e);
    if |ws| > 1 {
      var a, b := Spelled(ws[0]), Sequence(GAP, Joined(ws[1..]));
      SequenceTries(a, b, s, i, e);
      var t := Tries(a, s, i, false, e)[0];
      ContinueOne(b, s, i, t, e);
      var j := t.end;
      SequenceTries(GAP, Joined(ws[1..]), s, j, e);
      var m, l := ContinueComesFrom(Joined(ws[1..]), s, j, Tries(GAP, s, j, false, e), e, n);
      GapTries(s, j, e);
      RunMatches(s, j, j, 1, e, m);
      var k := Tries(GAP, s, j, false, e)[m].end;
      JoinedMatches(ws[1..], s, k, e, l);
    }
  }

  lemma EndTries(s: Text, i: nat, e: Engine)
    requires i <= |s|
    ensures Tries(END, s, i, false, e) ==
            [if Holds(WordBoundary, s, i) then Hit(i) else Miss] + Looked(Tries(SPACE_OR_END, s, i, false, e), i, false)
  {
    assert Tries(AHEAD, s, i, false, e) == Looked(Tries(SPACE_OR_END, s, i, false, e), i, false);
    assert Tries(EDGE_OR_AHEAD, s, i, false, e) ==
           Tries(Assert(WordBoundary), s, i, false, e) + Tries(AHEAD, s, i, false, e);
  }

  lemma EndStays(s: Text, i: nat, e: Engine, n: nat)
    requires i <= |s| && n < |Tries(END, s, i, false, e)| && Tries(END, s, i, false, e)[n].Hit?
    ensures Tries(END, s, i, false, e)[n].end == i
  {
    hide Tries;
    EndTries(s, i, e);
    MissesMiss(Tries(SPACE_OR_END, s, i, false, e));
  }
}
