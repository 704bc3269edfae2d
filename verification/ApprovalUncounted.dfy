// Alternatives that match at one place and are not counted: the factor stays one while the ways multiply.

module ApprovalUncounted {
  import opened Results
  import opened Texts
  import opened ApprovalSyntax
  import opened ApprovalScan
  import opened ApprovalWalk
  import opened ApprovalFlat
  import opened ApprovalMatching
  import opened ApprovalBounds
  import opened ApprovalTargets
  import opened ApprovalProbe
  import opened ApprovalShapes
  import opened ApprovalFactor

  predicate IsLetter(c: Code) {
    0x61 <= c <= 0x7A
  }

  const ANY: Quantifier := Quantifier(Bound.Star, false)

  /** `a*b` for two letters. */
  function Starred(a: Code, b: Code): Regex {
    Sequence(Repeat(Atom([a]), ANY), Atom([b]))
  }

  /** `(?:a*b|b)`. */
  function Body(a: Code, b: Code): Regex {
    Choice(Starred(a, b), Atom([b]))
  }

  /** `n` such groups in a row. */
  function Chain(a: Code, b: Code, n: nat): Regex {
    if n == 0 then Empty else Sequence(Parens(Plain, Body(a, b)), Chain(a, b, n - 1))
  }

  function Copies(b: Code, n: nat): Text {
    if n == 0 then [] else [b] + Copies(b, n - 1)
  }

  // ---------------------------------------------------------------------------
  // The factor
  // ---------------------------------------------------------------------------

  lemma LettersApart(a: Code, b: Code, e: Engine)
    requires IsLetter(a) && IsLetter(b) && e.fold(a) != e.fold(b)
    ensures !Overlap(ProbeOf(e)([a]), ProbeOf(e)([b]))
  {
    assert SaysAsciiOnly([a]) && SaysAsciiOnly([b]);
  }

  /** The two alternatives are not counted as ambiguous. */
  lemma NotCounted(a: Code, b: Code, e: Engine)
    requires IsLetter(a) && IsLetter(b) && e.fold(a) != e.fold(b)
    ensures IsPattern(Body(a, b)) && AlternativeFactor(Source(Body(a, b)), ProbeOf(e)) == 1
  {
    hide ShapeFrom, Overlap, SaysAsciiOnly, CharMatches, Source, Split, IsPattern;
    var chars := ProbeOf(e);
    BodyIsPattern(a, b);
    SplitsAlternatives(Body(a, b));
    var rs := [Starred(a, b), Atom([b])];
    assert [Starred(a, b)] + [Atom([b])] == rs;
    ShapesAre(rs, chars);
    ShapeOfBranch(Starred(a, b), chars);
    ShapeOfBranch(Atom([b]), chars);
    LettersApart(a, b, e);
    StarredShape(a, b, chars);
    var ss := Shapes(Sources(rs), chars);
    assert ss[0].domains[0] == chars([a]) && ss[1].domains[0] == chars([b]);
    assert !PrefixAmbiguous(ss[0], ss[1]);
    OnePair(ss);
  }

  lemma BodyIsPattern(a: Code, b: Code)
    requires IsLetter(a) && IsLetter(b)
    ensures IsPattern(Body(a, b)) && IsPattern(Starred(a, b)) && IsPattern(Atom([b])) && IsAtom([a]) && IsAtom([b])
  {
    assert IsAtom([a]) && IsAtom([b]);
    assert IsPattern(Atom([a])) && IsPattern(Atom([b])) && IsPattern(Repeat(Atom([a]), ANY));
    assert IsPattern(Starred(a, b));
  }

  lemma StarredShape(a: Code, b: Code, chars: Probe)
    ensures ShapeOf(Starred(a, b), chars) == Shape([chars([a]), chars([b])], false)
    ensures ShapeOf(Atom([b]), chars) == Shape([chars([b])], false)
  {
    assert QuantifierText(ANY) == [STAR];
    assert Collect(Repeat(Atom([a]), ANY), [], true, chars) == On([] + [chars([a])], true);
    assert Collect(Atom([b]), [] + [chars([a])], true, chars) == On([] + [chars([a])] + [chars([b])], false);
    assert Collect(Starred(a, b), [], true, chars) == On([] + [chars([a])] + [chars([b])], false);
    assert Collect(Atom([b]), [], true, chars) == On([] + [chars([b])], false);
    assert [] + [chars([a])] + [chars([b])] == [chars([a]), chars([b])];
  }

  lemma OnePair(ss: seq<Shape>)
    requires |ss| == 2 && !PrefixAmbiguous(ss[0], ss[1])
    ensures AmbiguousPairs(ss) == 0
  {
    hide PrefixAmbiguous;
    assert ss[1..] == [ss[1]] && [ss[1]][1..] == [];
    assert AmbiguousWith(ss[0], [ss[1]]) == AmbiguousWith(ss[0], []) == 0;
    assert AmbiguousPairs([ss[1]]) == AmbiguousWith(ss[1], []) + AmbiguousPairs([]) == 0;
  }

  lemma {:induction false} ChainFactor(a: Code, b: Code, n: nat, e: Engine)
    requires IsLetter(a) && IsLetter(b) && e.fold(a) != e.fold(b)
    ensures IsPattern(Chain(a, b, n)) && !Chain(a, b, n).Choice? && Factor(Chain(a, b, n), ProbeOf(e)) == 1
  {
    hide AlternativeFactor, Source, Body;
    if n > 0 {
      GroupCostsNothing(a, b, e);
      ChainFactor(a, b, n - 1, e);
    }
  }

  lemma GroupCostsNothing(a: Code, b: Code, e: Engine)
    requires IsLetter(a) && IsLetter(b) && e.fold(a) != e.fold(b)
    ensures IsPattern(Parens(Plain, Body(a, b))) && Factor(Parens(Plain, Body(a, b)), ProbeOf(e)) == 1
  {
    hide AlternativeFactor, Source;
    NotCounted(a, b, e);
    var chars := ProbeOf(e);
    assert Factor(Starred(a, b), chars) == Factor(Repeat(Atom([a]), ANY), chars) * Factor(Atom([b]), chars) == 1;
    assert Factor(Body(a, b), chars) == 1 && GroupFactor(Body(a, b), chars) == 1;
  }

  // ---------------------------------------------------------------------------
  // The ways
  // ---------------------------------------------------------------------------

  /** Both alternatives match the letter. */
  lemma BothMatch(a: Code, b: Code, s: Text, i: nat, e: Engine)
    requires IsLetter(a) && IsLetter(b) && e.fold(a) != e.fold(b) && i < |s| && s[i] == b
    ensures Tries(Body(a, b), s, i, false, e) == [Miss, Hit(i + 1), Hit(i + 1)]
  {
    assert Tries(Atom([a]), s, i, false, e) == [Miss] && Tries(Atom([b]), s, i, false, e) == [Hit(i + 1)];
    StarSkips(a, s, i, e);
    StarContinues(b, s, i, e);
  }

  lemma StarSkips(a: Code, s: Text, i: nat, e: Engine)
    requires i <= |s| && Tries(Atom([a]), s, i, false, e) == [Miss]
    ensures Tries(Repeat(Atom([a]), ANY), s, i, false, e) == [Miss, Hit(i)]
  {
    hide Again;
    MissAgain([a], 0, None, false, s, i, e);
    assert Repeats(Atom([a]), 0, None, false, s, i, false, e) == [Miss] + [Hit(i)];
  }

  lemma StarContinues(b: Code, s: Text, i: nat, e: Engine)
    requires i <= |s| && Tries(Atom([b]), s, i, false, e) == [Hit(i + 1)]
    ensures Continue(Atom([b]), s, i, [Miss, Hit(i)], false, e) == [Miss, Hit(i + 1)]
  {
    hide Tries;
    var ts := [Miss, Hit(i)];
    assert ts[1..] == [Hit(i)] && [Hit(i)][1..] == [];
    assert Continue(Atom([b]), s, i, [], false, e) == [];
    assert Continue(Atom([b]), s, i, [Hit(i)], false, e) == [Hit(i + 1)] + [];
  }

  lemma ContinueTwice(r: Regex, s: Text, i: nat, e: Engine)
    requires i < |s|
    ensures Hits(Continue(r, s, i, [Miss, Hit(i + 1), Hit(i + 1)], false, e)) == 2 * Hits(Tries(r, s, i + 1, false, e))
  {
    hide Tries, Hits;
    var t, h := Tries(r, s, i + 1, false, e), Hit(i + 1);
    assert [Miss, h, h][1..] == [h, h] && [h, h][1..] == [h] && [h][1..] == [];
    assert Continue(r, s, i, [], false, e) == [];
    assert Continue(r, s, i, [h], false, e) == t + [];
    assert Continue(r, s, i, [h, h], false, e) == t + (t + []);
    assert Continue(r, s, i, [Miss, h, h], false, e) == [Miss] + (t + (t + []));
    HitsConcat(t, []);
    HitsConcat(t, t + []);
    HitsConcat([Miss], t + (t + []));
    OneHit(0);
    NoHits([]);
  }

  lemma {:induction false} CopiesAre(b: Code, n: nat, i: nat)
    ensures |Copies(b, n)| == n && (i < n ==> Copies(b, n)[i] == b)
  {
    if n > 0 {
      CopiesAre(b, n - 1, if i == 0 then 0 else i - 1);
    }
  }

  lemma {:induction false} ChainHits(a: Code, b: Code, n: nat, m: nat, i: nat, e: Engine)
    requires IsLetter(a) && IsLetter(b) && e.fold(a) != e.fold(b) && i + n <= m == |Copies(b, m)|
    ensures Hits(Tries(Chain(a, b, n), Copies(b, m), i, false, e)) == Pow(2, n)
    decreases n
  {
    hide Hits, Continue, Copies, Body;
    var s := Copies(b, m);
    if n == 0 {
      OneHit(i);
    } else {
      CopiesAre(b, m, i);
      BothMatch(a, b, s, i, e);
      ChainHits(a, b, n - 1, m, i + 1, e);
      ContinueTwice(Chain(a, b, n - 1), s, i, e);
    }
  }

  // ---------------------------------------------------------------------------
  // The pattern is accepted
  // ---------------------------------------------------------------------------

  ghost predicate HasNoBackslash(t: Text) {
    forall k :: 0 <= k < |t| ==> t[k] != BACKSLASH
  }

  lemma {:induction false} ChainText(a: Code, b: Code, n: nat)
    requires IsLetter(a) && IsLetter(b)
    ensures HasNoBackslash(Source(Chain(a, b, n)))
  {
    hide HasNoBackslash;
    if n > 0 {
      ChainText(a, b, n - 1);
      BodyText(a, b);
      NothingIn(Source(Parens(Plain, Body(a, b))), Source(Chain(a, b, n - 1)));
    } else {
      NothingInEmpty();
    }
  }

  lemma NothingInEmpty()
    ensures HasNoBackslash([])
  {
  }

  lemma NothingIn(g: Text, t: Text)
    requires HasNoBackslash(g) && HasNoBackslash(t)
    ensures HasNoBackslash(g + t)
  {
  }

  lemma LetterText(c: Code)
    requires IsLetter(c)
    ensures HasNoBackslash(Source(Atom([c])))
  {
  }

  lemma MarksText()
    ensures HasNoBackslash(QuantifierText(ANY)) && HasNoBackslash(OpeningText(Plain))
    ensures HasNoBackslash([PIPE]) && HasNoBackslash([RPAREN])
  {
  }

  lemma SourceOfStar(x: Regex)
    ensures Source(Repeat(x, ANY)) == Source(x) + QuantifierText(ANY)
  {
    hide QuantifierText;
  }

  lemma SourceOfSequence(x: Regex, y: Regex)
    ensures Source(Sequence(x, y)) == Source(x) + Source(y)
  {
  }

  lemma SourceOfChoice(x: Regex, y: Regex)
    ensures Source(Choice(x, y)) == Source(x) + [PIPE] + Source(y)
  {
  }

  lemma SourceOfGroup(x: Regex)
    ensures Source(Parens(Plain, x)) == OpeningText(Plain) + Source(x) + [RPAREN]
  {
    hide OpeningText;
  }

  lemma BodyText(a: Code, b: Code)
    requires IsLetter(a) && IsLetter(b)
    ensures HasNoBackslash(Source(Parens(Plain, Body(a, b))))
  {
    hide HasNoBackslash, Source, OpeningText, QuantifierText, IsLetter;
    var x, y, body := Atom([a]), Atom([b]), Body(a, b);
    LetterText(a);
    LetterText(b);
    MarksText();
    SourceOfStar(x);
    NothingIn(Source(x), QuantifierText(ANY));
    SourceOfSequence(Repeat(x, ANY), y);
    NothingIn(Source(Repeat(x, ANY)), Source(y));
    SourceOfChoice(Starred(a, b), y);
    NothingIn(Source(Starred(a, b)), [PIPE]);
    NothingIn(Source(Starred(a, b)) + [PIPE], Source(y));
    SourceOfGroup(body);
    NothingIn(OpeningText(Plain), Source(body));
    NothingIn(OpeningText(Plain) + Source(body), [RPAREN]);
  }

  /** The frame remembers no quantified atom at its end. */
  predicate EndsPlainly(st: State) {
    st.frames[|st.frames| - 1].lastQuantified.None? && st.budget <= MAX_BUDGET
  }

  lemma AtomWalks(t: Text, quantified: bool, st: State, chars: Probe)
    requires |st.frames| > 1 && st.frames[|st.frames| - 1].lastQuantified.None?
    ensures WalkAtom(t, quantified, st, chars).Some?
    ensures var w := WalkAtom(t, quantified, st, chars).value;
            var n := |st.frames| - 1;
            && w.budget == st.budget && |w.frames| == n + 1
            && w.frames[n].lastQuantified == (if quantified then Some(chars(t)) else None)
            && w.frames[n].endsQuantified == st.frames[n].endsQuantified && w.frames[n].assertion == st.frames[n].assertion
            && w.frames[n - 1].lastQuantified == st.frames[n - 1].lastQuantified
  {
  }

  lemma UnquantifiedWalks(t: Text, st: State, chars: Probe)
    requires |st.frames| > 1
    ensures WalkAtom(t, false, st, chars).Some?
    ensures var w := WalkAtom(t, false, st, chars).value;
            var n := |st.frames| - 1;
            && w.budget == st.budget && |w.frames| == n + 1
            && w.frames[n].lastQuantified == None
            && w.frames[n].endsQuantified == st.frames[n].endsQuantified && w.frames[n].assertion == st.frames[n].assertion
            && w.frames[n - 1].lastQuantified == st.frames[n - 1].lastQuantified
  {
  }

  lemma BarWalks(fs: Frames)
    requires |fs| > 1 && fs[|fs| - 1].lastQuantified.None?
    ensures var gs, n := MarkBar(fs), |fs| - 1;
            && gs[n].lastQuantified.None? && gs[n].endsQuantified == fs[n].endsQuantified
            && gs[n].assertion == fs[n].assertion && gs[n - 1].lastQuantified == fs[n - 1].lastQuantified
  {
  }

  /** Behind the body, the group's frame remembers no quantified atom, and the frame below is as it was. */
  ghost predicate WalksPlainly(w: Option<State>, st: State) {
    && w.Some? && w.value.budget == st.budget && |w.value.frames| == |st.frames| + 1
    && w.value.frames[|st.frames|].lastQuantified.None? && w.value.frames[|st.frames|].endsQuantified.None?
    && !w.value.frames[|st.frames|].assertion
    && w.value.frames[|st.frames| - 1].lastQuantified == st.frames[|st.frames| - 1].lastQuantified
  }

  lemma BodyWalks(a: Code, b: Code, i: nat, st: State, chars: Probe)
    ensures WalksPlainly(Walk(Body(a, b), i, Opened(st, i, false), chars), st)
  {
    hide WalkAtom, MarkBar, Source;
    var st0 := Opened(st, i, false);
    AtomWalks([a], true, st0, chars);
    var st1 := WalkAtom([a], true, st0, chars).value;
    UnquantifiedWalks([b], st1, chars);
    var st2 := WalkAtom([b], false, st1, chars).value;
    assert Walk(Starred(a, b), i, st0, chars) == Some(st2);
    BarWalks(st2.frames);
    var st3 := st2.(frames := MarkBar(st2.frames));
    UnquantifiedWalks([b], st3, chars);
  }

  lemma GroupWalks(a: Code, b: Code, i: nat, st: State, e: Engine)
    requires IsLetter(a) && IsLetter(b) && e.fold(a) != e.fold(b) && EndsPlainly(st)
    ensures var w := WalkGroup(Body(a, b), i, false, false, st, ProbeOf(e)); w.Some? && EndsPlainly(w.value)
  {
    hide Walk, AlternativeFactor, Source, Body;
    NotCounted(a, b, e);
    BodyWalks(a, b, i, st, ProbeOf(e));
  }

  lemma {:induction false} ChainWalks(a: Code, b: Code, n: nat, i: nat, st: State, e: Engine)
    requires IsLetter(a) && IsLetter(b) && e.fold(a) != e.fold(b) && EndsPlainly(st)
    ensures Walk(Chain(a, b, n), i, st, ProbeOf(e)).Some?
    decreases n
  {
    hide WalkGroup, EndsPlainly, Source, Body;
    if n > 0 {
      var j := i + |OpeningText(Plain)|;
      GroupWalks(a, b, j, st, e);
      var st1 := WalkGroup(Body(a, b), j, false, false, st, ProbeOf(e)).value;
      ChainWalks(a, b, n - 1, i + |Source(Parens(Plain, Body(a, b)))|, st1, e);
    }
  }

  /**
   * For any number of such groups, the pattern is accepted and its factor is one, but it matches a
   * text of as many letters in two to the power of that number of ways.
   */
  lemma FactorMissesWays(a: Code, b: Code, n: nat, e: Engine)
    requires IsLetter(a) && IsLetter(b) && e.fold(a) != e.fold(b)
    ensures var r := Chain(a, b, n);
            && IsPattern(r) && !IsTooSlow(Source(r), ProbeOf(e)) && Factor(r, ProbeOf(e)) == 1
            && Hits(Tries(r, Copies(b, n), 0, false, e)) == Pow(2, n)
  {
    hide *;
    ChainFactor(a, b, n, e);
    ChainText(a, b, n);
    NoReferenceIn(Source(Chain(a, b, n)));
    StartsPlainly();
    ChainWalks(a, b, n, 0, ApprovalScan.START, e);
    TooSlowIsWalk(Chain(a, b, n), ProbeOf(e));
    CopiesAre(b, n, 0);
    ChainHits(a, b, n, n, 0, e);
  }

  lemma NoReferenceIn(t: Text)
    requires HasNoBackslash(t)
    ensures !HasReference(t, 0)
  {
    NoReference(t, 0);
  }

  lemma StartsPlainly()
    ensures EndsPlainly(ApprovalScan.START)
  {
  }
}
