// Which approval patterns are rejected, said of their syntax alone.

module ApprovalRejection {
  import opened Results
  import opened Texts
  import opened ApprovalSyntax
  import opened ApprovalScan
  import opened ApprovalWalk
  import opened ApprovalFlat
  import opened ApprovalMatching
  import opened ApprovalProbe
  import opened ApprovalTargets
  import opened ApprovalShapes
  import opened ApprovalNeighbours

  // ---------------------------------------------------------------------------
  // The walk goes on exactly if nothing in the piece gives reason to reject it
  // ---------------------------------------------------------------------------

  /** The piece is not rejected behind a quantified item that ends with `before`, with this much budget used. */
  ghost predicate Passes(r: Regex, budget: nat, before: Option<Edge>, chars: Probe) {
    && IsFlat(r) && budget * Factor(r, chars) <= 1024 && IsSeparated(r, chars)
    && !Meets(before, QuantifiedStart(r), chars)
  }

  ghost predicate GroupAccepted(b: Regex, assertion: bool, quantified: bool, budget: nat, before: Option<Edge>, chars: Probe) {
    && IsFlat(b) && budget * (Factor(b, chars) * GroupFactor(b, chars)) <= 1024 && IsSeparated(b, chars)
    && (quantified ==> Quantifiers(b) == 0 && !HasChoice(b))
    && (!assertion ==> !Meets(before, if quantified then Some(EdgeOf(FirstText(b))) else QuantifiedStart(b), chars))
  }

  /** What precedes is remembered in the top frame. */
  predicate Precedes(before: Option<Edge>, st: State, chars: Probe) {
    Top(st.frames).lastQuantified == CharsOf(before, chars)
  }

  lemma {:induction false} FactorPositive(r: Regex, chars: Probe)
    ensures Factor(r, chars) >= 1 && GroupFactor(r, chars) >= 1
  {
    hide AlternativeFactor;
    match r {
      case Parens(_, b) =>
        FactorPositive(b, chars);
        PositiveProduct(Factor(b, chars), GroupFactor(b, chars));
      case Look(_, _, b) =>
        FactorPositive(b, chars);
        PositiveProduct(Factor(b, chars), GroupFactor(b, chars));
      case Repeat(x, _) => FactorPositive(x, chars);
      case Sequence(a, b) =>
        FactorPositive(a, chars);
        FactorPositive(b, chars);
        PositiveProduct(Factor(a, chars), Factor(b, chars));
      case Choice(a, b) =>
        FactorPositive(a, chars);
        FactorPositive(b, chars);
        PositiveProduct(Factor(a, chars), Factor(b, chars));
      case _ =>
    }
  }

  lemma ProductGrows(m: nat, f: nat, g: nat)
    requires g >= 1
    ensures m * (f * g) == m * f * g >= m * f
  {
    ProductKeeps(m * f, g);
  }

  lemma ProductKeeps(m: nat, g: nat)
    requires g >= 1
    ensures m * g >= m
  {
  }

  lemma {:induction false} PlainIsFlat(r: Regex)
    requires Quantifiers(r) == 0 && !HasChoice(r)
    ensures IsFlat(r)
  {
    match r {
      case Parens(_, b) => PlainIsFlat(b);
      case Look(_, _, b) => PlainIsFlat(b);
      case Sequence(a, b) =>
        PlainIsFlat(a);
        PlainIsFlat(b);
      case _ =>
    }
  }

  lemma NoneMeets(y: Option<Edge>, chars: Probe)
    ensures !Meets(None, y, chars) && !Meets(y, None, chars)
  {
  }

  lemma AtomAccepted(t: Text, q: Quantifier, st: State, before: Option<Edge>, chars: Probe)
    requires Precedes(before, st, chars)
    ensures WalkAtom(t, false, st, chars).Some?
    ensures WalkAtom(t, true, st, chars).Some? <==> !Meets(before, QuantifiedStart(Repeat(Atom(t), q)), chars)
  {
    hide Meets, Overlaps;
    assert QuantifiedStart(Repeat(Atom(t), q)) == Some(OneOf(t));
    OverlapsIsMeets(before, Some(OneOf(t)), chars);
  }

  /** Whether a closed group is joined to the frame below it. */
  lemma JoinAccepted(b: Regex, quantified: bool, st: State, chars: Probe)
    requires |st.frames| > 1
    ensures var group, below := st.frames[|st.frames| - 1], st.frames[|st.frames| - 2];
            Closed(b, quantified, st, chars).Some? <==>
            && (group.directAlternative ==> st.budget * AlternativeFactor(Source(b), chars) <= 1024)
            && (quantified ==> !group.hasQuantifier && !group.hasAlternative)
            && (group.assertion
                || (if quantified then !Overlaps(below.lastQuantified, Some(CharsOr(group, group.firstChars)))
                    else !group.hasAtom || !Overlaps(below.lastQuantified, group.startsQuantified)))
  {
    hide Overlaps, AlternativeFactor, Source;
    var rest: Frames := st.frames[..|st.frames| - 1];
    assert Top(rest) == st.frames[|st.frames| - 2];
  }

  /** Behind the body of a group, whether the group is accepted. */
  lemma CloseAccepted(b: Regex, i: nat, assertion: bool, quantified: bool, st: State, st1: State, before: Option<Edge>,
                      chars: Probe)
    requires IsPattern(b) && Precedes(before, st, chars) && (assertion ==> !quantified)
    requires Walk(b, i, Opened(st, i, assertion), chars) == Some(st1)
    requires st1.budget == st.budget * Factor(b, chars) && st1.budget <= 1024 && IsFlat(b) && IsSeparated(b, chars)
    ensures |st1.frames| == |st.frames| + 1
    ensures Closed(b, quantified, st1, chars).Some? <==> GroupAccepted(b, assertion, quantified, st.budget, before, chars)
  {
    hide Walk, Closed, IsPattern, Meets, Overlaps, Factor, AlternativeFactor, IsFlat, IsSeparated, Source, CharsOr,
         Remembers, RemembersFirst, RemembersEnds, QuantifiedStart, QuantifiedEnd, Quantifiers, HasChoice;
    var n := |st.frames|;
    GroupFrame(b, i, assertion, st, chars);
    WalkBehaves(b, i, Opened(st, i, assertion), chars);
    JoinAccepted(b, quantified, st1, chars);
    var group := Top(st1.frames);
    BudgetIs(b, st.budget, st1.budget, chars);
    assert st1.frames[n - 1].lastQuantified == CharsOf(before, chars);
    StartIs(b, i, group, chars);
    if quantified && Quantifiers(b) == 0 && !HasChoice(b) {
      EndIs(b, i, group, chars);
      OverlapsIsMeets(before, Some(EdgeOf(FirstText(b))), chars);
    } else if !quantified {
      OverlapsIsMeets(before, QuantifiedStart(b), chars);
      if IsSilent(b) {
        SilentHasNone(b);
        NoneMeets(before, chars);
      }
    }
  }

  lemma BudgetIs(b: Regex, m: nat, m1: nat, chars: Probe)
    requires m1 == m * Factor(b, chars) && m1 <= 1024
    ensures m * (Factor(b, chars) * GroupFactor(b, chars)) <= 1024 <==>
            (b.Choice? ==> m1 * AlternativeFactor(Source(b), chars) <= 1024)
  {
    hide Factor, AlternativeFactor, Source;
    FactorPositive(b, chars);
    ProductGrows(m, Factor(b, chars), GroupFactor(b, chars));
  }

  lemma StartIs(b: Regex, i: nat, group: Frame, chars: Probe)
    requires Behaves(b, NewFrame(i, group.assertion), group, chars)
    ensures group.startsQuantified == CharsOf(QuantifiedStart(b), chars) && group.hasAtom == !IsSilent(b)
  {
    hide QuantifiedStart, QuantifiedEnd, Remembers, RemembersEnds;
  }

  lemma EndIs(b: Regex, i: nat, group: Frame, chars: Probe)
    requires Behaves(b, NewFrame(i, group.assertion), group, chars) && !group.hasAlternative
    requires Quantifiers(b) == 0 && !HasChoice(b)
    ensures CharsOf(Some(EdgeOf(FirstText(b))), chars) == Some(CharsOr(group, group.firstChars))
  {
    hide QuantifiedStart, QuantifiedEnd, Remembers, RemembersFirst, Quantifiers, HasChoice;
  }

  lemma {:induction false} GroupAcceptedExactly(b: Regex, i: nat, assertion: bool, quantified: bool, st: State,
                                                before: Option<Edge>, chars: Probe)
    requires IsPattern(b) && Precedes(before, st, chars) && (assertion ==> !quantified)
    requires st.budget <= 1024
    ensures WalkGroup(b, i, assertion, quantified, st, chars).Some? <==>
            GroupAccepted(b, assertion, quantified, st.budget, before, chars)
    decreases b, 2
  {
    hide Walk, Closed, IsPattern, Meets, Factor, GroupFactor, IsFlat, IsSeparated, QuantifiedStart, Passed,
         Quantifiers, HasChoice;
    var st0 := Opened(st, i, assertion);
    WalkAcceptedExactly(b, i, st0, None, chars);
    NoneMeets(QuantifiedStart(b), chars);
    FactorPositive(b, chars);
    ProductGrows(st.budget, Factor(b, chars), GroupFactor(b, chars));
    if Walk(b, i, st0, chars).Some? {
      var st1 := Walk(b, i, st0, chars).value;
      WalkPasses(b, i, st0, chars);
      PassedBudget(b, st0, st1, chars);
      CloseAccepted(b, i, assertion, quantified, st, st1, before, chars);
    }
  }

  lemma PassedBudget(r: Regex, st: State, st2: State, chars: Probe)
    requires Passed(r, st, st2, chars)
    ensures st2.budget == st.budget * Factor(r, chars) && (st.budget <= 1024 ==> st2.budget <= 1024) && IsFlat(r)
  {
    hide AllGrow, Direct, Factor, IsFlat;
  }

  /** A walk rejects a piece exactly if the syntax gives reason to. */
  lemma {:induction false} WalkAcceptedExactly(r: Regex, i: nat, st: State, before: Option<Edge>, chars: Probe)
    requires IsPattern(r) && Precedes(before, st, chars) && st.budget <= 1024
    requires r.Choice? ==> StartsBranch(Top(st.frames)) && before.None?
    ensures Walk(r, i, st, chars).Some? <==> Passes(r, st.budget, before, chars)
    decreases r, 1
  {
    hide IsAtom, OpeningText, LookText, MarkBar, Source, WalkAtom, WalkGroup, Meets, Precedes, StartsBranch, Passes;
    match r {
      case Atom(t) =>
        AtomAccepted(t, ANY, st, before, chars);
        Harmless(r, st.budget, before, chars);
      case Parens(o, b) =>
        GroupAcceptedExactly(b, i + |OpeningText(o)|, false, false, st, before, chars);
        GroupPassesExactly(r, b, st.budget, before, chars);
      case Look(behind, negative, b) =>
        GroupAcceptedExactly(b, i + |LookText(behind, negative)|, true, false, st, before, chars);
        GroupPassesExactly(r, b, st.budget, before, chars);
      case Repeat(x, q) =>
        match x {
          case Atom(t) =>
            AtomAccepted(t, q, st, before, chars);
            AtomItemPasses(t, q, st.budget, before, chars);
          case Parens(o, b) =>
            GroupAcceptedExactly(b, i + |OpeningText(o)|, false, true, st, before, chars);
            GroupItemPasses(o, b, q, st.budget, before, chars);
        }
      case Sequence(a, b) =>
        SequenceAccepted(a, b, i, st, before, chars);
      case Choice(a, b) =>
        ChoiceAccepted(a, b, i, st, chars);
      case _ =>
        Harmless(r, st.budget, before, chars);
    }
  }

  lemma Harmless(r: Regex, budget: nat, before: Option<Edge>, chars: Probe)
    requires budget <= 1024 && (r.Empty? || r.Assert? || r.Atom?)
    ensures Passes(r, budget, before, chars)
  {
    NoneMeets(before, chars);
  }

  lemma AtomItemPasses(t: Text, q: Quantifier, budget: nat, before: Option<Edge>, chars: Probe)
    requires budget <= 1024
    ensures var r := Repeat(Atom(t), q);
            Passes(r, budget, before, chars) <==> !Meets(before, QuantifiedStart(r), chars)
  {
    hide Meets;
    var x := Atom(t);
    assert Factor(x, chars) == 1 && Quantifiers(x) == 0 && !HasChoice(x) && IsSeparated(x, chars);
  }

  lemma GroupPassesExactly(r: Regex, b: Regex, budget: nat, before: Option<Edge>, chars: Probe)
    requires (r.Parens? || r.Look?) && r.body == b
    ensures Passes(r, budget, before, chars) <==> GroupAccepted(b, r.Look?, false, budget, before, chars)
  {
    hide Meets, GroupFactor;
    NoneMeets(before, chars);
  }

  lemma GroupItemPasses(o: Opening, b: Regex, q: Quantifier, budget: nat, before: Option<Edge>, chars: Probe)
    ensures Passes(Repeat(Parens(o, b), q), budget, before, chars) <==>
            GroupAccepted(b, false, true, budget, before, chars)
  {
    hide Meets, GroupFactor;
    var x := Parens(o, b);
    assert Factor(x, chars) == Factor(b, chars) * GroupFactor(b, chars) && FirstText(x) == FirstText(b);
    assert Quantifiers(x) == Quantifiers(b) && HasChoice(x) == HasChoice(b) && IsSeparated(x, chars) == IsSeparated(b, chars);
    if Quantifiers(b) == 0 && !HasChoice(b) {
      PlainIsFlat(b);
    }
  }

  lemma {:induction false} SequenceAccepted(a: Regex, b: Regex, i: nat, st: State, before: Option<Edge>, chars: Probe)
    requires IsPattern(a) && IsPattern(b) && !a.Choice? && !b.Choice?
    requires Precedes(before, st, chars) && st.budget <= 1024
    ensures Walk(Sequence(a, b), i, st, chars).Some? <==> Passes(Sequence(a, b), st.budget, before, chars)
    decreases Sequence(a, b), 0
  {
    hide Walk, Source, IsPattern, Passes, Behaves, Passed, Precedes;
    WalkAcceptedExactly(a, i, st, before, chars);
    WalkSequence(a, b, i, st, chars);
    if Walk(a, i, st, chars).Some? {
      var st1 := Walk(a, i, st, chars).value;
      WalkPasses(a, i, st, chars);
      PassedBudget(a, st, st1, chars);
      WalkBehaves(a, i, st, chars);
      var between := if IsSilent(a) then before else QuantifiedEnd(a);
      BehindPiece(a, st, st1, before, chars);
      WalkAcceptedExactly(b, i + |Source(a)|, st1, between, chars);
      SequencePasses(a, b, st.budget, st1.budget, before, chars);
    } else {
      SequenceFails(a, b, st.budget, before, chars);
    }
  }

  lemma WalkSequence(a: Regex, b: Regex, i: nat, st: State, chars: Probe)
    ensures Walk(Sequence(a, b), i, st, chars) ==
            match Walk(a, i, st, chars)
            case None => None
            case Some(st1) => Walk(b, i + |Source(a)|, st1, chars)
  {
    hide Source, WalkAtom, WalkGroup, MarkBar, OpeningText, LookText;
  }

  lemma BehindPiece(a: Regex, st: State, st1: State, before: Option<Edge>, chars: Probe)
    requires !a.Choice? && Behaves(a, Top(st.frames), Top(st1.frames), chars) && Precedes(before, st, chars)
    ensures Precedes(if IsSilent(a) then before else QuantifiedEnd(a), st1, chars)
  {
    hide RemembersFirst, RemembersEnds, QuantifiedEnd, QuantifiedStart;
  }

  lemma SequencePasses(a: Regex, b: Regex, m: nat, m1: nat, before: Option<Edge>, chars: Probe)
    requires Passes(a, m, before, chars) && m1 == m * Factor(a, chars)
    ensures Passes(Sequence(a, b), m, before, chars) <==>
            Passes(b, m1, if IsSilent(a) then before else QuantifiedEnd(a), chars)
  {
    hide Meets, Factor, IsFlat, QuantifiedStart, QuantifiedEnd, Quantifiers, HasChoice;
    SequenceParts(a, b, chars);
    SequenceQuantified(a, b);
    FactorPositive(b, chars);
    ProductGrows(m, Factor(a, chars), Factor(b, chars));
    if IsSilent(a) {
      SilentHasNone(a);
      NoneMeets(QuantifiedStart(b), chars);
    }
  }

  lemma SequenceFails(a: Regex, b: Regex, m: nat, before: Option<Edge>, chars: Probe)
    requires !Passes(a, m, before, chars)
    ensures !Passes(Sequence(a, b), m, before, chars)
  {
    hide Meets, Factor, IsFlat, QuantifiedStart, QuantifiedEnd, Quantifiers, HasChoice;
    SequenceParts(a, b, chars);
    SequenceQuantified(a, b);
    FactorPositive(b, chars);
    ProductGrows(m, Factor(a, chars), Factor(b, chars));
    if IsSilent(a) {
      SilentHasNone(a);
      NoneMeets(before, chars);
    }
  }

  lemma {:induction false} ChoiceAccepted(a: Regex, b: Regex, i: nat, st: State, chars: Probe)
    requires IsPattern(a) && IsPattern(b) && st.budget <= 1024
    requires StartsBranch(Top(st.frames)) && Precedes(None, st, chars)
    ensures Walk(Choice(a, b), i, st, chars).Some? <==> Passes(Choice(a, b), st.budget, None, chars)
    decreases Choice(a, b), 0
  {
    hide Walk, Source, IsPattern, Passes, Passed;
    WalkAcceptedExactly(a, i, st, None, chars);
    WalkChoice(a, b, i, st, chars);
    if Walk(a, i, st, chars).Some? {
      var st1 := Walk(a, i, st, chars).value;
      WalkPasses(a, i, st, chars);
      PassedBudget(a, st, st1, chars);
      var bar: State := st1.(frames := MarkBar(st1.frames));
      WalkAcceptedExactly(b, i + |Source(a)| + 1, bar, None, chars);
    }
    ChoicePasses(a, b, st.budget, chars);
  }

  lemma ChoicePasses(a: Regex, b: Regex, m: nat, chars: Probe)
    ensures Passes(Choice(a, b), m, None, chars) <==>
            Passes(a, m, None, chars) && Passes(b, m * Factor(a, chars), None, chars)
  {
    hide Meets, Factor, IsFlat, QuantifiedStart, QuantifiedEnd, Quantifiers, HasChoice;
    ChoiceParts(a, b, chars);
    FactorPositive(b, chars);
    ProductGrows(m, Factor(a, chars), Factor(b, chars));
    NoneMeets(QuantifiedStart(a), chars);
    NoneMeets(QuantifiedStart(b), chars);
    NoneMeets(QuantifiedStart(Choice(a, b)), chars);
  }

  // ---------------------------------------------------------------------------
  // The factor of a group's alternatives
  // ---------------------------------------------------------------------------

  /**
   * Two alternatives may match at one place, as far as the atoms in front of their first groups tell:
   * one of them holds a group or shows no atom that must match, or all pairs of their atoms meet.
   */
  ghost predicate SeemAlike(a: Regex, b: Regex, chars: Probe) {
    || !IsLine(a) || !IsLine(b) || SeemsSkippable(a) || SeemsSkippable(b)
    || SpotsAlike(Spots(a), Spots(b), chars)
  }

  ghost predicate SpotsAlike(ss: seq<Spot>, us: seq<Spot>, chars: Probe) {
    forall k :: 0 <= k < |ss| && k < |us| ==> Meets(Some(OneOf(ss[k].atom)), Some(OneOf(us[k].atom)), chars)
  }

  ghost function AlikePairs(rs: seq<Regex>, chars: Probe): set<(nat, nat)> {
    set j: nat, k: nat | j < k < |rs| && SeemAlike(rs[j], rs[k], chars) :: (j, k)
  }

  /** The product over all groups of one more than the number of pairs of alternatives that seem alike. */
  ghost function Ambiguity(r: Regex, chars: Probe): nat {
    match r
    case Parens(_, b) => Ambiguity(b, chars) * (1 + |AlikePairs(Alternatives(b), chars)|)
    case Look(_, _, b) => Ambiguity(b, chars) * (1 + |AlikePairs(Alternatives(b), chars)|)
    case Repeat(x, _) => Ambiguity(x, chars)
    case Sequence(a, b) => Ambiguity(a, chars) * Ambiguity(b, chars)
    case Choice(a, b) => Ambiguity(a, chars) * Ambiguity(b, chars)
    case _ => 1
  }

  lemma AlikeExactly(a: Regex, b: Regex, chars: Probe)
    requires IsPattern(a) && !a.Choice? && IsPattern(b) && !b.Choice?
    ensures PrefixAmbiguous(ShapeFrom(Source(a), 0, [], true, chars), ShapeFrom(Source(b), 0, [], true, chars)) <==>
            SeemAlike(a, b, chars)
  {
    hide IsPattern, IsLine, SeemsSkippable, Spots, ShapeFrom, ShapeOf, Source, Domains, DomainsOverlap, SpotsAlike,
         PrefixAmbiguous;
    ShapeOfBranch(a, chars);
    ShapeOfBranch(b, chars);
    ShapeOfLine(a, chars);
    ShapeOfLine(b, chars);
    SpotsMeet(Spots(a), Spots(b), chars);
    AmbiguousMeans(ShapeOf(a, chars), ShapeOf(b, chars));
  }

  /** All compared domains overlap. */
  predicate DomainsOverlap(ds: seq<AtomChars>, es: seq<AtomChars>) {
    forall k :: 0 <= k < |ds| && k < |es| ==> Overlap(ds[k], es[k])
  }

  lemma AmbiguousMeans(x: Shape, y: Shape)
    ensures PrefixAmbiguous(x, y) <==> x.nullable || y.nullable || DomainsOverlap(x.domains, y.domains)
  {
    hide Overlap;
  }

  lemma SpotsMeet(ss: seq<Spot>, us: seq<Spot>, chars: Probe)
    ensures DomainsOverlap(Domains(ss, chars), Domains(us, chars)) <==> SpotsAlike(ss, us, chars)
  {
    hide Meets, Overlap, Domains;
    forall k | 0 <= k < |ss| && k < |us|
      ensures Overlap(Domains(ss, chars)[k], Domains(us, chars)[k]) <==>
              Meets(Some(OneOf(ss[k].atom)), Some(OneOf(us[k].atom)), chars)
    {
      AtomsMeet(ss[k].atom, us[k].atom, chars);
    }
  }

  lemma AtomsMeet(t: Text, u: Text, chars: Probe)
    ensures Overlap(chars(t), chars(u)) <==> Meets(Some(OneOf(t)), Some(OneOf(u)), chars)
  {
    hide Meets, Overlap;
    OverlapsIsMeets(Some(OneOf(t)), Some(OneOf(u)), chars);
  }

  /** The ambiguous ones among the pairs of `j` and a later shape from `k0` on. */
  function Row(ss: seq<Shape>, j: nat, k0: nat): set<(nat, nat)>
    requires j < |ss|
  {
    set k: nat | k0 <= k < |ss| && PrefixAmbiguous(ss[j], ss[k]) :: (j, k)
  }

  function Table(ss: seq<Shape>, from: nat): set<(nat, nat)> {
    set j: nat, k: nat | from <= j < k < |ss| && PrefixAmbiguous(ss[j], ss[k]) :: (j, k)
  }

  lemma {:induction false} RowCounts(ss: seq<Shape>, j: nat, k0: nat)
    requires j < |ss| && k0 <= |ss|
    ensures |Row(ss, j, k0)| == AmbiguousWith(ss[j], ss[k0..])
    decreases |ss| - k0
  {
    hide PrefixAmbiguous;
    if k0 < |ss| {
      RowCounts(ss, j, k0 + 1);
      assert ss[k0..][1..] == ss[k0 + 1..];
      if PrefixAmbiguous(ss[j], ss[k0]) {
        assert Row(ss, j, k0) == Row(ss, j, k0 + 1) + {(j, k0)};
      } else {
        assert Row(ss, j, k0) == Row(ss, j, k0 + 1);
      }
    } else {
      assert Row(ss, j, k0) == {};
    }
  }

  lemma {:induction false} TableCounts(ss: seq<Shape>, from: nat)
    requires from <= |ss|
    ensures |Table(ss, from)| == AmbiguousPairs(ss[from..])
    decreases |ss| - from
  {
    hide PrefixAmbiguous;
    if from < |ss| {
      TableCounts(ss, from + 1);
      RowCounts(ss, from, from + 1);
      assert ss[from..][1..] == ss[from + 1..];
      assert Table(ss, from) == Row(ss, from, from + 1) + Table(ss, from + 1);
      assert Row(ss, from, from + 1) !! Table(ss, from + 1);
    } else {
      assert Table(ss, from) == {};
    }
  }

  lemma {:induction false} ShapesAt(rs: seq<Regex>, chars: Probe)
    ensures |Shapes(Sources(rs), chars)| == |rs|
    ensures forall k :: 0 <= k < |rs| ==> Shapes(Sources(rs), chars)[k] == ShapeFrom(Source(rs[k]), 0, [], true, chars)
  {
    hide ShapeFrom, Source;
    if rs != [] {
      ShapesAt(rs[1..], chars);
      assert Sources(rs)[1..] == Sources(rs[1..]);
    }
  }

  lemma {:induction false} AlternativesAre(r: Regex)
    requires IsPattern(r)
    ensures forall k :: 0 <= k < |Alternatives(r)| ==> IsPattern(Alternatives(r)[k]) && !Alternatives(r)[k].Choice?
  {
    hide IsAtom;
    if r.Choice? {
      AlternativesAre(r.left);
      AlternativesAre(r.right);
    }
  }

  lemma FactorIsPairs(b: Regex, chars: Probe)
    requires IsPattern(b)
    ensures AlternativeFactor(Source(b), chars) == 1 + |AlikePairs(Alternatives(b), chars)|
  {
    hide IsPattern, Source, Split, Sources, Shapes, SeemAlike, PrefixAmbiguous, ShapeFrom, Alternatives;
    SplitsAlternatives(b);
    var rs := Alternatives(b);
    var ss := Shapes(Sources(rs), chars);
    ShapesAt(rs, chars);
    AlternativesAre(b);
    TableCounts(ss, 0);
    assert ss[0..] == ss;
    forall j: nat, k: nat | j < k < |rs| ensures PrefixAmbiguous(ss[j], ss[k]) <==> SeemAlike(rs[j], rs[k], chars) {
      AlikeExactly(rs[j], rs[k], chars);
    }
    assert Table(ss, 0) == AlikePairs(rs, chars);
  }

  lemma GroupFactorIs(b: Regex, chars: Probe)
    requires IsPattern(b)
    ensures GroupFactor(b, chars) == 1 + |AlikePairs(Alternatives(b), chars)|
  {
    hide IsPattern, AlternativeFactor, Source, SeemAlike;
    FactorIsPairs(b, chars);
    if !b.Choice? {
      assert Alternatives(b) == [b];
      assert AlikePairs([b], chars) == {};
    }
  }

  lemma {:induction false} FactorIsAmbiguity(r: Regex, chars: Probe)
    requires IsPattern(r)
    ensures Factor(r, chars) == Ambiguity(r, chars)
  {
    hide IsAtom, GroupFactor, AlikePairs;
    match r {
      case Parens(_, b) =>
        FactorIsAmbiguity(b, chars);
        GroupFactorIs(b, chars);
      case Look(_, _, b) =>
        FactorIsAmbiguity(b, chars);
        GroupFactorIs(b, chars);
      case Repeat(x, _) => FactorIsAmbiguity(x, chars);
      case Sequence(a, b) =>
        FactorIsAmbiguity(a, chars);
        FactorIsAmbiguity(b, chars);
      case Choice(a, b) =>
        FactorIsAmbiguity(a, chars);
        FactorIsAmbiguity(b, chars);
      case _ =>
    }
  }

  // ---------------------------------------------------------------------------
  // Rejection
  // ---------------------------------------------------------------------------

  /** A backslash and a digit other than 0, or a backslash, `k` and a name in angle brackets. */
  ghost predicate ReferenceStands(p: Text, i: nat) {
    && i + 1 < |p| && p[i] == BACKSLASH
    && (|| 0x31 <= p[i + 1] <= 0x39
        || (&& p[i + 1] == SMALL_K && i + 3 < |p| && p[i + 2] == LESS && p[i + 3] != GREATER
            && exists j :: i + 4 <= j < |p| && p[j] == GREATER))
  }

  ghost predicate ShowsReference(p: Text) {
    exists i: nat :: ReferenceStands(p, i)
  }

  lemma {:induction false} IndexOfExactly(p: Text, i: nat, c: Code)
    ensures IndexOf(p, i, c).Some? <==> exists j :: i <= j < |p| && p[j] == c
    decreases |p| - i
  {
    if i < |p| {
      IndexOfExactly(p, i + 1, c);
    }
  }

  lemma ReferenceAt(p: Text, i: nat)
    ensures IsReferenceAt(p, i) <==> ReferenceStands(p, i)
  {
    IndexOfExactly(p, i + 3, GREATER);
  }

  lemma {:induction false} ReferencesAre(p: Text, i: nat)
    ensures HasReference(p, i) <==> exists k: nat :: i <= k && ReferenceStands(p, k)
    decreases |p| - i
  {
    hide IsReferenceAt;
    ReferenceAt(p, i);
    if i < |p| {
      ReferencesAre(p, i + 1);
    }
  }

  /**
   * A printed pattern is rejected if and only if it shows a reference, a quantified group holds a
   * quantifier or a choice, the pairs of alternatives that seem alike multiply to more than 1024, or
   * a quantified item follows another one that may take one of its characters.
   */
  lemma TooSlowExactly(r: Regex, chars: Probe)
    requires IsPattern(r)
    ensures IsTooSlow(Source(r), chars) <==>
            ShowsReference(Source(r)) || !IsFlat(r) || Ambiguity(r, chars) > 1024 || !IsSeparated(r, chars)
  {
    hide HasReference, ReferenceStands, IsPattern, IsFlat, IsSeparated, Source, Walk, IsTooSlow, Ambiguity, Factor;
    TooSlowIsWalk(r, chars);
    ReferencesAre(Source(r), 0);
    WalkAcceptedExactly(r, 0, ApprovalScan.START, None, chars);
    FactorIsAmbiguity(r, chars);
    NoneMeets(QuantifiedStart(r), chars);
  }

  /**
   * Where the probe is right, a quantified item of an accepted pattern that follows another one, with
   * nothing but anchors, assertions and group borders between them, starts with an atom that matches
   * none of the characters that the atom at the other one's end matches.
   */
  lemma NeighboursShareNothing(r: Regex, chars: Probe, e: Engine)
    requires IsPattern(r) && !IsTooSlow(Source(r), chars) && IsSound(chars, e)
    ensures SharesNothing(r, e)
  {
    hide *;
    TooSlowExactly(r, chars);
    SeparatedSharesNothing(r, chars, e);
  }

  /** Two quantified atoms as alternatives, and the second one again behind them. */
  function SecondEnd(x: Text, y: Text): Regex {
    Sequence(Parens(Plain, Choice(Repeat(Atom(x), ONE_OR_MORE), Repeat(Atom(y), ONE_OR_MORE))), Repeat(Atom(y), ONE_OR_MORE))
  }

  /** Only the first alternative that ends with a quantified item is compared with what follows. */
  lemma SecondEndEscapes(x: Text, y: Text, chars: Probe)
    requires IsAtom(x) && IsAtom(y) && !Meets(Some(OneOf(x)), Some(OneOf(y)), chars)
    requires !ShowsReference(Source(SecondEnd(x, y)))
    ensures IsPattern(SecondEnd(x, y)) && !IsTooSlow(Source(SecondEnd(x, y)), chars)
  {
    hide IsAtom, Meets, ShowsReference, AlikePairs, IsPattern, IsSeparated, Ambiguity, IsFlat, QuantifiedStart, QuantifiedEnd;
    var a, b := Repeat(Atom(x), ONE_OR_MORE), Repeat(Atom(y), ONE_OR_MORE);
    var g := Parens(Plain, Choice(a, b));
    RepeatIs(x, chars);
    RepeatIs(y, chars);
    GroupIs(a, b, chars);
    BehindGroup(g, b, chars);
    TooSlowExactly(SecondEnd(x, y), chars);
  }

  /** A quantified atom. */
  lemma RepeatIs(x: Text, chars: Probe)
    requires IsAtom(x)
    ensures var a := Repeat(Atom(x), ONE_OR_MORE);
            && IsPattern(a) && IsFlat(a) && IsSeparated(a, chars) && Ambiguity(a, chars) == 1
            && QuantifiedStart(a) == Some(OneOf(x)) && QuantifiedEnd(a) == Some(OneOf(x))
  {
    hide IsAtom, Meets;
    var t := Atom(x);
    assert IsPattern(t) && IsSeparated(t, chars) && Ambiguity(t, chars) == 1 && FirstText(t) == LastText(t) == Some(x);
  }

  /** A group of two alternatives that end with a quantified item. */
  lemma GroupIs(a: Regex, b: Regex, chars: Probe)
    requires !a.Choice? && !b.Choice? && IsPattern(a) && IsPattern(b) && IsFlat(a) && IsFlat(b)
    requires IsSeparated(a, chars) && IsSeparated(b, chars) && Ambiguity(a, chars) == 1 && Ambiguity(b, chars) == 1
    requires QuantifiedEnd(a).Some?
    ensures var g := Parens(Plain, Choice(a, b));
            && IsPattern(g) && IsFlat(g) && IsSeparated(g, chars) && Ambiguity(g, chars) <= 2
            && QuantifiedEnd(g) == QuantifiedEnd(a)
  {
    hide IsAtom, Meets, AlikePairs;
    var c := Choice(a, b);
    assert IsPattern(c) && IsFlat(c) && IsSeparated(c, chars) && Ambiguity(c, chars) == 1;
    assert QuantifiedEnd(c) == QuantifiedEnd(a);
    OnePair(a, b, chars);
  }

  lemma BehindGroup(g: Regex, b: Regex, chars: Probe)
    requires !g.Choice? && !b.Choice? && IsPattern(g) && IsPattern(b) && IsFlat(g) && IsFlat(b)
    requires IsSeparated(g, chars) && IsSeparated(b, chars) && Ambiguity(g, chars) <= 2 && Ambiguity(b, chars) == 1
    requires !Meets(QuantifiedEnd(g), QuantifiedStart(b), chars)
    ensures var r := Sequence(g, b); IsPattern(r) && IsFlat(r) && IsSeparated(r, chars) && Ambiguity(r, chars) <= 1024
  {
    hide IsAtom, Meets, AlikePairs;
  }

  lemma OnePair(a: Regex, b: Regex, chars: Probe)
    requires !a.Choice? && !b.Choice?
    ensures |AlikePairs(Alternatives(Choice(a, b)), chars)| <= 1
  {
    hide SeemAlike;
    assert Alternatives(Choice(a, b)) == [a, b];
    assert forall p :: p in AlikePairs([a, b], chars) ==> p == (0, 1);
    Singleton(AlikePairs([a, b], chars), (0, 1));
  }

  lemma Singleton(s: set<(nat, nat)>, p: (nat, nat))
    requires forall q :: q in s ==> q == p
    ensures |s| <= 1
  {
    if s != {} {
      assert s == {p};
    }
  }
}
