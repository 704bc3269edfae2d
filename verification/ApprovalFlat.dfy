// An accepted approval pattern has no quantifier and no choice inside a quantified group, the product
// of its groups' alternative factors stays within the budget, and neighbouring quantified atoms share
// no character.

module ApprovalFlat {
  import opened Texts
  import opened ApprovalSyntax
  import opened ApprovalScan
  import opened ApprovalWalk

  // ---------------------------------------------------------------------------
  // What a walk over a piece does to the state
  // ---------------------------------------------------------------------------

  /** The product of the factors of the groups that have alternatives. */
  function Factor(r: Regex, chars: Probe): nat {
    match r
    case Parens(_, b) => Factor(b, chars) * GroupFactor(b, chars)
    case Look(_, _, b) => Factor(b, chars) * GroupFactor(b, chars)
    case Repeat(x, _) => Factor(x, chars)
    case Sequence(a, b) => Factor(a, chars) * Factor(b, chars)
    case Choice(a, b) => Factor(a, chars) * Factor(b, chars)
    case _ => 1
  }

  function GroupFactor(body: Regex, chars: Probe): nat {
    if body.Choice? then AlternativeFactor(Source(body), chars) else 1
  }

  /** The frame `g` comes from `f`: flags are set if and only if the piece gives reason to. */
  predicate Grows(f: Frame, g: Frame, quantifier: bool, choice: bool) {
    && g.bodyStart == f.bodyStart && g.assertion == f.assertion
    && g.hasQuantifier == (f.hasQuantifier || quantifier)
    && g.hasAlternative == (f.hasAlternative || choice)
  }

  /** What the frame of a group is marked with, the frame below it is marked with, too. */
  predicate FlagsReach(group: Frame, below: Frame) {
    (group.hasQuantifier ==> below.hasQuantifier) && (group.hasAlternative ==> below.hasAlternative)
  }

  ghost predicate AllGrow(fs: seq<Frame>, gs: seq<Frame>, quantifier: bool, choice: bool) {
    && |gs| == |fs|
    && forall k :: 0 <= k < |fs| ==> Grows(fs[k], gs[k], quantifier, choice)
  }

  /** Below the top, no frame's own choice is touched; the top has one if `choice`. */
  ghost predicate Direct(fs: seq<Frame>, gs: seq<Frame>, choice: bool) {
    && |gs| == |fs|
    && forall k :: 0 <= k < |fs| ==>
         gs[k].directAlternative == (fs[k].directAlternative || (choice && k == |fs| - 1))
  }

  ghost predicate Passed(r: Regex, st: State, st2: State, chars: Probe) {
    && AllGrow(st.frames, st2.frames, Quantifiers(r) > 0, HasChoice(r))
    && Direct(st.frames, st2.frames, r.Choice?)
    && st2.budget == st.budget * Factor(r, chars)
    && (st.budget <= MAX_BUDGET ==> st2.budget <= MAX_BUDGET)
    && IsFlat(r)
  }

  lemma MarkGrows(fs: Frames, quantified: bool, first: AtomChars, last: AtomChars)
    requires MarkAtom(fs, quantified, first, last).Some?
    ensures var gs := MarkAtom(fs, quantified, first, last).value;
            AllGrow(fs, gs, quantified, false) && Direct(fs, gs, false)
  {
    hide Overlaps;
  }

  lemma JoinGrows(fs: Frames, group: Frame, quantified: bool)
    requires JoinGroup(fs, group, quantified).Some? && FlagsReach(group, fs[|fs| - 1])
    ensures var gs := JoinGroup(fs, group, quantified).value;
            AllGrow(fs, gs, quantified, false) && Direct(fs, gs, false)
  {
    hide Overlaps, MarkAtom, CharsOr;
    if quantified {
      MarkGrows(fs, true, CharsOr(group, group.firstChars), CharsOr(group, group.lastChars));
    }
  }

  lemma BarGrows(fs: Frames)
    ensures AllGrow(fs, MarkBar(fs), false, true) && Direct(fs, MarkBar(fs), true)
  {
  }

  lemma GrowsTwice(fs: seq<Frame>, gs: seq<Frame>, hs: seq<Frame>, q1: bool, c1: bool, q2: bool, c2: bool)
    requires AllGrow(fs, gs, q1, c1) && AllGrow(gs, hs, q2, c2)
    ensures AllGrow(fs, hs, q1 || q2, c1 || c2)
  {
  }

  lemma DirectTwice(fs: seq<Frame>, gs: seq<Frame>, hs: seq<Frame>, c1: bool, c2: bool)
    requires Direct(fs, gs, c1) && Direct(gs, hs, c2)
    ensures Direct(fs, hs, c1 || c2)
  {
  }

  lemma StaysGrown(fs: seq<Frame>)
    ensures AllGrow(fs, fs, false, false) && Direct(fs, fs, false)
  {
  }

  /** The frames below the top grow with all of them; the top is the new group's. */
  lemma BelowTop(fs: seq<Frame>, f: Frame, gs: seq<Frame>, quantifier: bool, choice: bool, direct: bool)
    requires AllGrow(fs + [f], gs, quantifier, choice) && Direct(fs + [f], gs, direct)
    ensures |gs| == |fs| + 1 && AllGrow(fs, gs[..|fs|], quantifier, choice) && Direct(fs, gs[..|fs|], false)
    ensures Grows(f, gs[|fs|], quantifier, choice)
    ensures gs[|fs|].directAlternative == (f.directAlternative || direct)
    ensures |fs| > 0 && !f.hasQuantifier && !f.hasAlternative ==> FlagsReach(gs[|fs|], gs[|fs| - 1])
  {
    hide Grows, FlagsReach;
    var n := |fs|;
    assert (fs + [f])[n] == f;
    forall k | 0 <= k < n
      ensures Grows(fs[k], gs[..n][k], quantifier, choice)
      ensures gs[..n][k].directAlternative == fs[k].directAlternative
    {
      assert (fs + [f])[k] == fs[k];
    }
    if n > 0 && !f.hasQuantifier && !f.hasAlternative {
      FlagsBelow(f, gs[n], fs[n - 1], gs[..n][n - 1], quantifier, choice);
    }
  }

  lemma FlagsBelow(f: Frame, g: Frame, below: Frame, belowThen: Frame, quantifier: bool, choice: bool)
    requires Grows(f, g, quantifier, choice) && Grows(below, belowThen, quantifier, choice)
    requires !f.hasQuantifier && !f.hasAlternative
    ensures FlagsReach(g, belowThen)
  {
  }

  // ---------------------------------------------------------------------------
  // Flatness
  // ---------------------------------------------------------------------------

  lemma PassesGroup(r: Regex, body: Regex, st: State, st2: State, chars: Probe)
    requires r.Parens? || r.Look?
    requires r.body == body
    requires AllGrow(st.frames, st2.frames, Quantifiers(body) > 0, HasChoice(body))
    requires Direct(st.frames, st2.frames, false) && IsFlat(body)
    requires st2.budget == st.budget * (Factor(body, chars) * GroupFactor(body, chars))
    requires st.budget <= MAX_BUDGET ==> st2.budget <= MAX_BUDGET
    ensures Passed(r, st, st2, chars)
  {
    hide AllGrow, Direct, GroupFactor;
  }

  lemma PassesItem(x: Regex, q: Quantifier, st: State, st2: State, chars: Probe)
    requires AllGrow(st.frames, st2.frames, true, false) && Direct(st.frames, st2.frames, false)
    requires st2.budget == st.budget * Factor(x, chars) && (st.budget <= MAX_BUDGET ==> st2.budget <= MAX_BUDGET)
    requires Quantifiers(x) == 0 && !HasChoice(x)
    ensures Passed(Repeat(x, q), st, st2, chars)
  {
    hide AllGrow, Direct;
  }

  lemma Associates(m: nat, f: nat, g: nat, m1: nat, m2: nat)
    requires m1 == m * f && m2 == m1 * g
    ensures m2 == m * (f * g)
  {
  }

  lemma SequenceParts(a: Regex, b: Regex, chars: Probe)
    ensures var r := Sequence(a, b);
            && Factor(r, chars) == Factor(a, chars) * Factor(b, chars)
            && Quantifiers(r) == Quantifiers(a) + Quantifiers(b) && HasChoice(r) == (HasChoice(a) || HasChoice(b))
            && IsFlat(r) == (IsFlat(a) && IsFlat(b))
  {
  }

  lemma ChoiceParts(a: Regex, b: Regex, chars: Probe)
    ensures var r := Choice(a, b);
            && Factor(r, chars) == Factor(a, chars) * Factor(b, chars)
            && Quantifiers(r) == Quantifiers(a) + Quantifiers(b) && HasChoice(r)
            && IsFlat(r) == (IsFlat(a) && IsFlat(b))
  {
  }

  lemma PassesBoth(a: Regex, b: Regex, r: Regex, st: State, st1: State, st2: State, chars: Probe)
    requires r == Sequence(a, b) && !a.Choice? && !b.Choice?
    requires Passed(a, st, st1, chars) && Passed(b, st1, st2, chars)
    ensures Passed(r, st, st2, chars)
  {
    hide AllGrow, Direct, Factor, Quantifiers, HasChoice, IsFlat;
    SequenceParts(a, b, chars);
    GrowsTwice(st.frames, st1.frames, st2.frames, Quantifiers(a) > 0, HasChoice(a), Quantifiers(b) > 0, HasChoice(b));
    DirectTwice(st.frames, st1.frames, st2.frames, false, false);
    Associates(st.budget, Factor(a, chars), Factor(b, chars), st1.budget, st2.budget);
  }

  lemma PassesChoice(a: Regex, b: Regex, st: State, st1: State, bar: State, st2: State, chars: Probe)
    requires Passed(a, st, st1, chars) && Passed(b, bar, st2, chars) && bar == st1.(frames := MarkBar(st1.frames))
    ensures Passed(Choice(a, b), st, st2, chars)
  {
    hide AllGrow, Direct, MarkBar, Factor, Quantifiers, HasChoice, IsFlat;
    ChoiceParts(a, b, chars);
    BarGrows(st1.frames);
    GrowsTwice(st.frames, st1.frames, bar.frames, Quantifiers(a) > 0, HasChoice(a), false, true);
    GrowsTwice(st.frames, bar.frames, st2.frames, Quantifiers(a) > 0, true, Quantifiers(b) > 0, HasChoice(b));
    DirectTwice(st.frames, st1.frames, bar.frames, a.Choice?, true);
    DirectTwice(st.frames, bar.frames, st2.frames, true, b.Choice?);
    Associates(st.budget, Factor(a, chars), Factor(b, chars), st1.budget, st2.budget);
  }

  lemma Untouched(r: Regex, st: State, chars: Probe)
    requires r.Empty? || r.Assert?
    ensures Passed(r, st, st, chars)
  {
    StaysGrown(st.frames);
  }

  lemma AtomPasses(t: Text, quantified: bool, st: State, chars: Probe)
    requires WalkAtom(t, quantified, st, chars).Some?
    ensures var st2 := WalkAtom(t, quantified, st, chars).value;
            && AllGrow(st.frames, st2.frames, quantified, false) && Direct(st.frames, st2.frames, false)
            && st2.budget == st.budget
  {
    hide MarkAtom, AllGrow, Direct;
    MarkGrows(st.frames, quantified, chars(t), chars(t));
  }

  /** The state behind a closed group. */
  lemma ClosePasses(b: Regex, quantified: bool, st: State, chars: Probe)
    requires |st.frames| > 1 && Closed(b, quantified, st, chars).Some?
    requires st.frames[|st.frames| - 1].assertion ==> !quantified
    requires FlagsReach(st.frames[|st.frames| - 1], st.frames[|st.frames| - 2])
    ensures var group, rest := st.frames[|st.frames| - 1], st.frames[..|st.frames| - 1];
            var factor := if group.directAlternative then AlternativeFactor(Source(b), chars) else 1;
            var st2 := Closed(b, quantified, st, chars).value;
            && AllGrow(rest, st2.frames, quantified, false) && Direct(rest, st2.frames, false)
            && st2.budget == st.budget * factor && (st.budget <= MAX_BUDGET ==> st2.budget <= MAX_BUDGET)
            && (quantified ==> !group.hasQuantifier && !group.hasAlternative)
  {
    hide JoinGroup, AllGrow, Direct, AlternativeFactor, Source;
    var open, rest: Frames := st.frames[|st.frames| - 1], st.frames[..|st.frames| - 1];
    var group := open.(endsQuantified := OrElse(open.endsQuantified, open.lastQuantified));
    if open.assertion {
      StaysGrown(rest);
    } else {
      JoinGrows(rest, group, quantified);
    }
  }

  lemma {:induction false} GroupPasses(b: Regex, i: nat, assertion: bool, quantified: bool, st: State, chars: Probe)
    requires IsPattern(b) && WalkGroup(b, i, assertion, quantified, st, chars).Some? && (assertion ==> !quantified)
    ensures var st2 := WalkGroup(b, i, assertion, quantified, st, chars).value;
            && AllGrow(st.frames, st2.frames, Quantifiers(b) > 0 || quantified, HasChoice(b))
            && Direct(st.frames, st2.frames, false)
            && st2.budget == st.budget * (Factor(b, chars) * GroupFactor(b, chars))
            && (st.budget <= MAX_BUDGET ==> st2.budget <= MAX_BUDGET)
    ensures IsFlat(b) && (quantified ==> Quantifiers(b) == 0 && !HasChoice(b))
    decreases b, 2
  {
    hide AllGrow, Direct, AlternativeFactor, Source, IsPattern, IsFlat, Factor, Quantifiers, HasChoice, Walk, Closed;
    var n := |st.frames|;
    var st1 := Walk(b, i, Opened(st, i, assertion), chars).value;
    WalkPasses(b, i, Opened(st, i, assertion), chars);
    TopFrame(b, i, assertion, st, chars);
    BelowTop(st.frames, NewFrame(i, assertion), st1.frames, Quantifiers(b) > 0, HasChoice(b), b.Choice?);
    ClosePasses(b, quantified, st1, chars);
    var st2 := Closed(b, quantified, st1, chars).value;
    GrowsTwice(st.frames, st1.frames[..n], st2.frames, Quantifiers(b) > 0, HasChoice(b), quantified, false);
    DirectTwice(st.frames, st1.frames[..n], st2.frames, false, false);
    Associates(st.budget, Factor(b, chars), GroupFactor(b, chars), st1.budget, st2.budget);
  }

  /** A walk that does not reject a piece shows it flat, and leaves its effect on the state. */
  lemma {:induction false} WalkPasses(r: Regex, i: nat, st: State, chars: Probe)
    requires IsPattern(r) && Walk(r, i, st, chars).Some?
    ensures Passed(r, st, Walk(r, i, st, chars).value, chars)
    decreases r, 1
  {
    hide Passed, AllGrow, Direct, IsAtom, OpeningText, LookText, MarkBar, Source, WalkAtom, WalkGroup, Factor, IsFlat;
    var st2 := Walk(r, i, st, chars).value;
    match r {
      case Atom(t) =>
        AtomPasses(t, false, st, chars);
        PassesAtom(t, st, st2, chars);
      case Parens(o, b) =>
        GroupPasses(b, i + |OpeningText(o)|, false, false, st, chars);
        PassesGroup(r, b, st, st2, chars);
      case Look(behind, negative, b) =>
        GroupPasses(b, i + |LookText(behind, negative)|, true, false, st, chars);
        PassesGroup(r, b, st, st2, chars);
      case Repeat(x, q) =>
        match x {
          case Atom(t) =>
            AtomPasses(t, true, st, chars);
            PassesAtomItem(t, q, st, st2, chars);
          case Parens(o, b) =>
            GroupPasses(b, i + |OpeningText(o)|, false, true, st, chars);
            PassesGroupItem(o, b, q, st, st2, chars);
        }
      case Sequence(a, b) =>
        WalkPasses(a, i, st, chars);
        var st1 := Walk(a, i, st, chars).value;
        WalkPasses(b, i + |Source(a)|, st1, chars);
        PassesBoth(a, b, r, st, st1, st2, chars);
      case Choice(a, b) =>
        WalkPasses(a, i, st, chars);
        var st1 := Walk(a, i, st, chars).value;
        var bar: State := st1.(frames := MarkBar(st1.frames));
        WalkPasses(b, i + |Source(a)| + 1, bar, chars);
        PassesChoice(a, b, st, st1, bar, st2, chars);
      case _ =>
        Untouched(r, st, chars);
    }
  }

  lemma PassesAtom(t: Text, st: State, st2: State, chars: Probe)
    requires AllGrow(st.frames, st2.frames, false, false) && Direct(st.frames, st2.frames, false)
    requires st2.budget == st.budget
    ensures Passed(Atom(t), st, st2, chars)
  {
  }

  lemma PassesAtomItem(t: Text, q: Quantifier, st: State, st2: State, chars: Probe)
    requires AllGrow(st.frames, st2.frames, true, false) && Direct(st.frames, st2.frames, false)
    requires st2.budget == st.budget
    ensures Passed(Repeat(Atom(t), q), st, st2, chars)
  {
    hide AllGrow, Direct;
    PassesItem(Atom(t), q, st, st2, chars);
  }

  lemma PassesGroupItem(o: Opening, b: Regex, q: Quantifier, st: State, st2: State, chars: Probe)
    requires AllGrow(st.frames, st2.frames, Quantifiers(b) > 0 || true, HasChoice(b)) && Direct(st.frames, st2.frames, false)
    requires st2.budget == st.budget * (Factor(b, chars) * GroupFactor(b, chars))
    requires st.budget <= MAX_BUDGET ==> st2.budget <= MAX_BUDGET
    requires Quantifiers(b) == 0 && !HasChoice(b)
    ensures Passed(Repeat(Parens(o, b), q), st, st2, chars)
  {
    hide AllGrow, Direct, GroupFactor;
    PassesItem(Parens(o, b), q, st, st2, chars);
  }

  /**
   * An accepted pattern has no quantifier and no choice inside a quantified group, and the factors
   * of its groups multiply to at most 1024.
   */
  lemma AcceptedIsFlat(r: Regex, chars: Probe)
    requires IsPattern(r) && !IsTooSlow(Source(r), chars)
    ensures IsFlat(r) && Factor(r, chars) <= MAX_BUDGET
  {
    hide AllGrow, Direct, HasReference, IsPattern, IsFlat, Factor, Source, Walk, IsTooSlow;
    TooSlowIsWalk(r, chars);
    WalkPasses(r, 0, START, chars);
  }
}
