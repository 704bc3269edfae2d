// What a group starts and ends with, what the frames remember of it, and where neighbours share no character.

module ApprovalNeighbours {
  import opened Results
  import opened Texts
  import opened ApprovalSyntax
  import opened ApprovalScan
  import opened ApprovalWalk
  import opened ApprovalFlat
  import opened ApprovalMatching
  import opened ApprovalProbe

  // ---------------------------------------------------------------------------
  // Neighbours in the syntax
  // ---------------------------------------------------------------------------

  /** A piece that takes no character: anchors, assertions and groups of such pieces. */
  predicate IsSilent(r: Regex) {
    match r
    case Empty => true
    case Assert(_) => true
    case Look(_, _, _) => true
    case Parens(_, b) => IsSilent(b)
    case Sequence(a, b) => IsSilent(a) && IsSilent(b)
    case Choice(a, b) => IsSilent(a) && IsSilent(b)
    case _ => false
  }

  /** The text of the first atom outside assertions, in a piece without choices and quantifiers. */
  function FirstText(r: Regex): Option<Text> {
    match r
    case Atom(t) => Some(t)
    case Parens(_, b) => FirstText(b)
    case Sequence(a, b) => if FirstText(a).Some? then FirstText(a) else FirstText(b)
    case _ => None
  }

  function LastText(r: Regex): Option<Text> {
    match r
    case Atom(t) => Some(t)
    case Parens(_, b) => LastText(b)
    case Sequence(a, b) => if LastText(b).Some? then LastText(b) else LastText(a)
    case _ => None
  }

  /** What the repeated item of a quantifier starts or ends with: an atom, or nothing that is known. */
  datatype Edge = OneOf(atom: Text) | Anything

  function EdgeOf(t: Option<Text>): Edge {
    match t case Some(u) => OneOf(u) case None => Anything
  }

  /**
   * What a piece that starts with a quantified item starts with; in a choice, its first alternative
   * that does so.
   */
  function QuantifiedStart(r: Regex): Option<Edge> {
    match r
    case Repeat(x, _) => Some(EdgeOf(FirstText(x)))
    case Parens(_, b) => QuantifiedStart(b)
    case Sequence(a, b) => if IsSilent(a) then QuantifiedStart(b) else QuantifiedStart(a)
    case Choice(a, b) => if QuantifiedStart(a).Some? then QuantifiedStart(a) else QuantifiedStart(b)
    case _ => None
  }

  /** What a piece that ends with a quantified item ends with; in a choice, its first alternative that does so. */
  function QuantifiedEnd(r: Regex): Option<Edge> {
    match r
    case Repeat(x, _) => Some(EdgeOf(LastText(x)))
    case Parens(_, b) => QuantifiedEnd(b)
    case Sequence(a, b) => if IsSilent(b) then QuantifiedEnd(a) else QuantifiedEnd(b)
    case Choice(a, b) => if QuantifiedEnd(a).Some? then QuantifiedEnd(a) else QuantifiedEnd(b)
    case _ => None
  }

  /** As far as the probe tells, the edge takes the character; 128 stands for all characters beyond ASCII. */
  predicate MayTake(x: Edge, c: nat, chars: Probe) {
    match x
    case OneOf(t) => if c < 128 then c in chars(t).ascii else !chars(t).asciiOnly
    case Anything => true
  }

  /** As far as the probe tells, some character can be taken by both. */
  ghost predicate Meets(x: Option<Edge>, y: Option<Edge>, chars: Probe) {
    x.Some? && y.Some? && exists c: nat :: c <= 128 && MayTake(x.value, c, chars) && MayTake(y.value, c, chars)
  }

  /** Wherever a quantified item follows another one, no character can be taken by both. */
  ghost predicate IsSeparated(r: Regex, chars: Probe) {
    match r
    case Parens(_, b) => IsSeparated(b, chars)
    case Look(_, _, b) => IsSeparated(b, chars)
    case Repeat(x, _) => IsSeparated(x, chars)
    case Sequence(a, b) =>
      && IsSeparated(a, chars) && IsSeparated(b, chars)
      && !Meets(QuantifiedEnd(a), QuantifiedStart(b), chars)
    case Choice(a, b) => IsSeparated(a, chars) && IsSeparated(b, chars)
    case _ => true
  }

  // ---------------------------------------------------------------------------
  // What the frames hold of an edge
  // ---------------------------------------------------------------------------

  function CharsOf(x: Option<Edge>, chars: Probe): Option<AtomChars> {
    match x
    case Some(OneOf(t)) => Some(chars(t))
    case Some(Anything) => Some(UNKNOWN)
    case None => None
  }

  /** The code's comparison finds out whether a character can be taken by both. */
  lemma OverlapsIsMeets(x: Option<Edge>, y: Option<Edge>, chars: Probe)
    ensures Overlaps(CharsOf(x, chars), CharsOf(y, chars)) <==> Meets(x, y, chars)
  {
    if x.Some? && y.Some? {
      var l, r := CharsOf(x, chars).value, CharsOf(y, chars).value;
      if !l.asciiOnly && !r.asciiOnly {
        assert MayTake(x.value, 128, chars) && MayTake(y.value, 128, chars);
      }
      if c :| c in l.ascii && c in r.ascii {
        assert c < 128 && MayTake(x.value, c, chars) && MayTake(y.value, c, chars);
      }
      if c: nat :| c <= 128 && MayTake(x.value, c, chars) && MayTake(y.value, c, chars) {
        assert c < 128 ==> c in l.ascii * r.ascii;
      }
    }
  }

  // ---------------------------------------------------------------------------
  // The frame of the piece and the frames below
  // ---------------------------------------------------------------------------

  function Top(fs: Frames): Frame {
    fs[|fs| - 1]
  }

  /** Only the flags that mark quantifiers and alternatives differ. */
  predicate SameButFlags(f: Frame, g: Frame) {
    f == g.(hasQuantifier := f.hasQuantifier, hasAlternative := f.hasAlternative)
  }

  ghost predicate SameBelow(fs: seq<Frame>, gs: seq<Frame>) {
    |gs| == |fs| && forall k :: 0 <= k < |fs| - 1 ==> SameButFlags(fs[k], gs[k])
  }

  lemma SameTwice(fs: seq<Frame>, gs: seq<Frame>, hs: seq<Frame>)
    requires SameBelow(fs, gs) && SameBelow(gs, hs)
    ensures SameBelow(fs, hs)
  {
  }

  lemma AtomSame(t: Text, quantified: bool, st: State, chars: Probe)
    requires WalkAtom(t, quantified, st, chars).Some?
    ensures SameBelow(st.frames, WalkAtom(t, quantified, st, chars).value.frames)
  {
    hide Overlaps;
  }

  lemma BarSame(fs: Frames)
    ensures SameBelow(fs, MarkBar(fs))
  {
  }

  lemma JoinSame(fs: Frames, group: Frame, quantified: bool)
    requires JoinGroup(fs, group, quantified).Some?
    ensures SameBelow(fs, JoinGroup(fs, group, quantified).value)
  {
    hide Overlaps, CharsOr;
  }

  lemma ClosedSame(b: Regex, quantified: bool, st: State, chars: Probe)
    requires |st.frames| > 1 && Closed(b, quantified, st, chars).Some?
    ensures SameBelow(st.frames[..|st.frames| - 1], Closed(b, quantified, st, chars).value.frames)
  {
    hide JoinGroup, AlternativeFactor, Source;
    var open, rest: Frames := st.frames[|st.frames| - 1], st.frames[..|st.frames| - 1];
    if !open.assertion {
      JoinSame(rest, open.(endsQuantified := OrElse(open.endsQuantified, open.lastQuantified)), quantified);
    }
  }

  /** Below an opened group, everything stays the same. */
  lemma OpenedSame(st: State, i: nat, assertion: bool, gs: seq<Frame>)
    requires SameBelow(Opened(st, i, assertion).frames, gs)
    ensures |gs| == |st.frames| + 1
    ensures SameBelow(st.frames, gs[..|st.frames|]) && SameButFlags(Top(st.frames), gs[|st.frames| - 1])
  {
    hide SameButFlags;
    var n := |st.frames|;
    forall k | 0 <= k < n ensures SameButFlags(st.frames[k], gs[k]) {
      assert Opened(st, i, assertion).frames[k] == st.frames[k];
    }
  }

  lemma {:induction false} WalkSame(r: Regex, i: nat, st: State, chars: Probe)
    requires Walk(r, i, st, chars).Some?
    ensures SameBelow(st.frames, Walk(r, i, st, chars).value.frames)
    decreases r, 1
  {
    hide WalkAtom, WalkGroup, MarkBar, Source, OpeningText, LookText, SameBelow;
    match r {
      case Atom(t) => AtomSame(t, false, st, chars);
      case Parens(o, b) => GroupSame(b, i + |OpeningText(o)|, false, false, st, chars);
      case Look(behind, negative, b) => GroupSame(b, i + |LookText(behind, negative)|, true, false, st, chars);
      case Repeat(x, _) =>
        match x {
          case Atom(t) => AtomSame(t, true, st, chars);
          case Parens(o, b) => GroupSame(b, i + |OpeningText(o)|, false, true, st, chars);
        }
      case Sequence(a, b) =>
        var st1 := Walk(a, i, st, chars).value;
        WalkSame(a, i, st, chars);
        WalkSame(b, i + |Source(a)|, st1, chars);
        SameTwice(st.frames, st1.frames, Walk(r, i, st, chars).value.frames);
      case Choice(a, b) =>
        var st1 := Walk(a, i, st, chars).value;
        var bar: State := st1.(frames := MarkBar(st1.frames));
        WalkSame(a, i, st, chars);
        BarSame(st1.frames);
        WalkSame(b, i + |Source(a)| + 1, bar, chars);
        SameTwice(st.frames, st1.frames, bar.frames);
        SameTwice(st.frames, bar.frames, Walk(r, i, st, chars).value.frames);
      case _ =>
        SameItself(st.frames);
    }
  }

  lemma SameItself(fs: seq<Frame>)
    ensures SameBelow(fs, fs)
  {
  }

  lemma {:induction false} GroupSame(b: Regex, i: nat, assertion: bool, quantified: bool, st: State, chars: Probe)
    requires WalkGroup(b, i, assertion, quantified, st, chars).Some?
    ensures SameBelow(st.frames, WalkGroup(b, i, assertion, quantified, st, chars).value.frames)
    decreases b, 2
  {
    hide Walk, Closed, SameBelow;
    var st1 := Walk(b, i, Opened(st, i, assertion), chars).value;
    WalkSame(b, i, Opened(st, i, assertion), chars);
    OpenedSame(st, i, assertion, st1.frames);
    ClosedSame(b, quantified, st1, chars);
    SameTwice(st.frames, st1.frames[..|st.frames|], Closed(b, quantified, st1, chars).value.frames);
  }

  // ---------------------------------------------------------------------------
  // What the frame remembers of quantified atoms
  // ---------------------------------------------------------------------------

  /** The frame behind a piece without alternatives at its top. */
  predicate Remembers(r: Regex, f: Frame, g: Frame, chars: Probe) {
    && g.endsQuantified == f.endsQuantified
    && g.lastQuantified == (if IsSilent(r) then f.lastQuantified else CharsOf(QuantifiedEnd(r), chars))
    && g.branchStart == (f.branchStart && IsSilent(r))
    && g.startsQuantified == (if f.branchStart && f.startsQuantified.None? then CharsOf(QuantifiedStart(r), chars)
                              else f.startsQuantified)
  }

  /** The frame behind alternatives, the first of which starts the frame or follows a bar. */
  predicate RemembersFirst(r: Regex, f: Frame, g: Frame, chars: Probe) {
    && g.startsQuantified == (if f.startsQuantified.None? then CharsOf(QuantifiedStart(r), chars)
                              else f.startsQuantified)
    && (if g.endsQuantified.Some? then g.endsQuantified else g.lastQuantified) ==
       (if f.endsQuantified.Some? then f.endsQuantified else CharsOf(QuantifiedEnd(r), chars))
  }

  predicate StartsBranch(f: Frame) {
    f.branchStart && f.lastQuantified.None?
  }

  function Probed(t: Option<Text>, chars: Probe): Option<AtomChars> {
    match t case Some(u) => Some(chars(u)) case None => None
  }

  predicate IsPlain(r: Regex) {
    Quantifiers(r) == 0 && !HasChoice(r)
  }

  /** The first and the last characters, which count for a group that is quantified. */
  predicate RemembersEnds(r: Regex, f: Frame, g: Frame, chars: Probe) {
    && g.firstChars == (if f.branchStart && f.firstChars.None? then Probed(FirstText(r), chars) else f.firstChars)
    && g.lastChars == (if LastText(r).Some? then Probed(LastText(r), chars) else f.lastChars)
  }

  predicate Behaves(r: Regex, f: Frame, g: Frame, chars: Probe) {
    && g.hasAtom == (f.hasAtom || !IsSilent(r))
    && (!r.Choice? ==> Remembers(r, f, g, chars))
    && (StartsBranch(f) ==> RemembersFirst(r, f, g, chars))
    && (IsPlain(r) ==> RemembersEnds(r, f, g, chars))
  }

  lemma {:induction false} SilentHasNone(r: Regex)
    requires IsSilent(r)
    ensures QuantifiedStart(r).None? && QuantifiedEnd(r).None?
    ensures IsPlain(r) ==> FirstText(r).None? && LastText(r).None?
  {
    match r {
      case Parens(_, b) => SilentHasNone(b);
      case Sequence(a, b) =>
        SilentHasNone(a);
        SilentHasNone(b);
      case Choice(a, b) =>
        SilentHasNone(a);
        SilentHasNone(b);
      case _ =>
    }
  }

  lemma {:induction false} PlainHasText(r: Regex)
    requires IsPlain(r) && !IsSilent(r)
    ensures FirstText(r).Some? && LastText(r).Some?
  {
    match r {
      case Parens(_, b) => PlainHasText(b);
      case Sequence(a, b) =>
        if !IsSilent(a) {
          PlainHasText(a);
        }
        if !IsSilent(b) {
          PlainHasText(b);
        }
      case _ =>
    }
  }

  lemma AtomBehaves(t: Text, quantified: bool, q: Quantifier, st: State, chars: Probe)
    requires WalkAtom(t, quantified, st, chars).Some?
    ensures var f, g := Top(st.frames), Top(WalkAtom(t, quantified, st, chars).value.frames);
            Behaves(if quantified then Repeat(Atom(t), q) else Atom(t), f, g, chars)
  {
    hide Overlaps;
    assert FirstText(Atom(t)) == Some(t) && LastText(Atom(t)) == Some(t);
  }

  lemma SequenceBehaves(a: Regex, b: Regex, f: Frame, g: Frame, h: Frame, chars: Probe)
    requires !a.Choice? && !b.Choice? && Behaves(a, f, g, chars) && Behaves(b, g, h, chars)
    ensures Behaves(Sequence(a, b), f, h, chars)
  {
    hide QuantifiedStart, QuantifiedEnd, IsPlain, FirstText, LastText;
    SequenceQuantified(a, b);
    if IsSilent(a) {
      SilentHasNone(a);
    } else if IsPlain(a) {
      PlainHasText(a);
    }
    if IsSilent(b) {
      SilentHasNone(b);
    }
  }

  lemma SequenceQuantified(a: Regex, b: Regex)
    ensures var r := Sequence(a, b);
            && QuantifiedStart(r) == (if IsSilent(a) then QuantifiedStart(b) else QuantifiedStart(a))
            && QuantifiedEnd(r) == (if IsSilent(b) then QuantifiedEnd(a) else QuantifiedEnd(b))
            && FirstText(r) == (if FirstText(a).Some? then FirstText(a) else FirstText(b))
            && LastText(r) == (if LastText(b).Some? then LastText(b) else LastText(a))
            && (IsPlain(r) <==> IsPlain(a) && IsPlain(b))
  {
  }

  lemma ChoiceBehaves(a: Regex, b: Regex, f: Frame, fs: Frames, h: Frame, chars: Probe)
    requires Behaves(a, f, Top(fs), chars) && Behaves(b, Top(MarkBar(fs)), h, chars)
    ensures Behaves(Choice(a, b), f, h, chars)
  {
    hide Remembers, RemembersEnds;
    assert StartsBranch(Top(MarkBar(fs)));
    assert !IsPlain(Choice(a, b));
  }

  /** The frame below a closed group, in terms of the group's own frame. */
  lemma CloseBehaves(b: Regex, quantified: bool, st: State, f: Frame, chars: Probe)
    requires |st.frames| > 1 && Closed(b, quantified, st, chars).Some?
    requires SameButFlags(f, st.frames[|st.frames| - 2]) && (st.frames[|st.frames| - 1].assertion ==> !quantified)
    ensures ClosedFrame(st.frames[|st.frames| - 1], quantified, f, Top(Closed(b, quantified, st, chars).value.frames))
  {
    hide Overlaps, AlternativeFactor, Source;
    var rest: Frames := st.frames[..|st.frames| - 1];
    assert Top(rest) == st.frames[|st.frames| - 2];
  }

  predicate ClosedFrame(group: Frame, quantified: bool, f: Frame, g: Frame) {
    if group.assertion || (!quantified && !group.hasAtom) then SameButFlags(f, g)
    else
      var first, last := CharsOr(group, group.firstChars), CharsOr(group, group.lastChars);
      && g.hasAtom && !g.branchStart && g.endsQuantified == f.endsQuantified
      && g.firstChars == (if f.branchStart && f.firstChars.None? then Some(first) else f.firstChars)
      && g.lastChars == Some(last)
      && g.startsQuantified == (if f.branchStart && f.startsQuantified.None?
                                then if quantified then Some(first) else group.startsQuantified
                                else f.startsQuantified)
      && g.lastQuantified == (if quantified then Some(last)
                              else if group.endsQuantified.Some? then group.endsQuantified else group.lastQuantified)
  }

  lemma {:induction false} GroupBehaves(o: Opening, b: Regex, i: nat, st: State, chars: Probe)
    requires IsPattern(b) && WalkGroup(b, i, false, false, st, chars).Some?
    ensures Behaves(Parens(o, b), Top(st.frames), Top(WalkGroup(b, i, false, false, st, chars).value.frames), chars)
    decreases b, 2
  {
    hide Walk, Closed, IsPattern, SameBelow, Behaves, ClosedFrame;
    var st0 := Opened(st, i, false);
    var st1 := Walk(b, i, st0, chars).value;
    GroupFrame(b, i, false, st, chars);
    WalkBehaves(b, i, st0, chars);
    CloseBehaves(b, false, st1, Top(st.frames), chars);
    JoinedBehaves(o, b, Top(st.frames), Top(st1.frames), Top(Closed(b, false, st1, chars).value.frames), chars);
  }

  /** Behind a group's body, the group's frame has the flags of the body, and the frame below is as before. */
  lemma GroupFrame(b: Regex, i: nat, assertion: bool, st: State, chars: Probe)
    requires IsPattern(b) && Walk(b, i, Opened(st, i, assertion), chars).Some?
    ensures Top(Opened(st, i, assertion).frames) == NewFrame(i, assertion)
    ensures var fs := Walk(b, i, Opened(st, i, assertion), chars).value.frames;
            && |fs| == |st.frames| + 1 && Top(fs).assertion == assertion && Top(fs).bodyStart == i
            && SameButFlags(Top(st.frames), fs[|fs| - 2])
            && Top(fs).hasQuantifier == (Quantifiers(b) > 0) && Top(fs).hasAlternative == HasChoice(b)
            && Top(fs).directAlternative == b.Choice?
  {
    hide Walk, IsPattern, SameBelow, SameButFlags, AllGrow, Direct, IsFlat, Factor, FlagsReach;
    var fs := Walk(b, i, Opened(st, i, assertion), chars).value.frames;
    WalkSame(b, i, Opened(st, i, assertion), chars);
    OpenedSame(st, i, assertion, fs);
    TopFrame(b, i, assertion, st, chars);
    WalkPasses(b, i, Opened(st, i, assertion), chars);
    BelowTop(st.frames, NewFrame(i, assertion), fs, Quantifiers(b) > 0, HasChoice(b), b.Choice?);
  }

  lemma JoinedBehaves(o: Opening, b: Regex, f: Frame, group: Frame, g: Frame, chars: Probe)
    requires Behaves(b, NewFrame(group.bodyStart, false), group, chars) && ClosedFrame(group, false, f, g)
    requires !group.assertion && group.hasAlternative == HasChoice(b)
    ensures Behaves(Parens(o, b), f, g, chars)
  {
    hide QuantifiedStart, QuantifiedEnd, IsPlain, FirstText, LastText;
    ParensQuantified(o, b);
    if IsSilent(b) {
      SilentHasNone(b);
    } else if IsPlain(b) {
      PlainHasText(b);
    }
  }

  lemma ParensQuantified(o: Opening, b: Regex)
    ensures var r := Parens(o, b);
            && QuantifiedStart(r) == QuantifiedStart(b) && QuantifiedEnd(r) == QuantifiedEnd(b)
            && FirstText(r) == FirstText(b) && LastText(r) == LastText(b)
            && (IsPlain(r) <==> IsPlain(b)) && (IsPlain(b) ==> !HasChoice(b))
  {
  }

  lemma {:induction false} RepeatBehaves(o: Opening, b: Regex, q: Quantifier, i: nat, st: State, chars: Probe)
    requires IsPattern(b) && WalkGroup(b, i, false, true, st, chars).Some?
    ensures Behaves(Repeat(Parens(o, b), q), Top(st.frames), Top(WalkGroup(b, i, false, true, st, chars).value.frames), chars)
    decreases b, 2
  {
    hide Walk, Closed, IsPattern, SameBelow, Behaves, ClosedFrame, IsFlat;
    var st0 := Opened(st, i, false);
    var st1 := Walk(b, i, st0, chars).value;
    GroupFrame(b, i, false, st, chars);
    GroupPasses(b, i, false, true, st, chars);
    WalkBehaves(b, i, st0, chars);
    CloseBehaves(b, true, st1, Top(st.frames), chars);
    RepeatedBehaves(o, b, q, Top(st.frames), Top(st1.frames), Top(Closed(b, true, st1, chars).value.frames), chars);
  }

  lemma RepeatedBehaves(o: Opening, b: Regex, q: Quantifier, f: Frame, group: Frame, g: Frame, chars: Probe)
    requires Behaves(b, NewFrame(group.bodyStart, false), group, chars) && ClosedFrame(group, true, f, g)
    requires !group.assertion && group.hasAlternative == HasChoice(b) && Quantifiers(b) == 0 && !HasChoice(b)
    ensures Behaves(Repeat(Parens(o, b), q), f, g, chars)
    ensures CharsOr(group, group.firstChars) == CharsOf(Some(EdgeOf(FirstText(b))), chars).value
  {
    hide Remembers, RemembersFirst;
    ParensQuantified(o, b);
    var r := Repeat(Parens(o, b), q);
    assert QuantifiedStart(r) == Some(EdgeOf(FirstText(b))) && QuantifiedEnd(r) == Some(EdgeOf(LastText(b)));
    assert CharsOr(group, group.firstChars) == CharsOf(Some(EdgeOf(FirstText(b))), chars).value;
    assert CharsOr(group, group.lastChars) == CharsOf(Some(EdgeOf(LastText(b))), chars).value;
    RepeatedRemembers(r, f, g, chars);
  }

  lemma RepeatedRemembers(r: Regex, f: Frame, g: Frame, chars: Probe)
    requires r.Repeat? && g.hasAtom && !g.branchStart && g.endsQuantified == f.endsQuantified
    requires g.lastQuantified == CharsOf(QuantifiedEnd(r), chars)
    requires g.startsQuantified == (if f.branchStart && f.startsQuantified.None? then CharsOf(QuantifiedStart(r), chars)
                                    else f.startsQuantified)
    ensures Remembers(r, f, g, chars) && (StartsBranch(f) ==> RemembersFirst(r, f, g, chars))
  {
    hide QuantifiedStart, QuantifiedEnd;
  }

  lemma {:induction false} LookBehaves(behind: bool, negative: bool, b: Regex, i: nat, st: State, chars: Probe)
    requires IsPattern(b) && WalkGroup(b, i, true, false, st, chars).Some?
    ensures Behaves(Look(behind, negative, b), Top(st.frames), Top(WalkGroup(b, i, true, false, st, chars).value.frames), chars)
    decreases b, 2
  {
    hide Walk, Closed, IsPattern, SameBelow;
    var st1 := Walk(b, i, Opened(st, i, true), chars).value;
    GroupFrame(b, i, true, st, chars);
    CloseBehaves(b, false, st1, Top(st.frames), chars);
  }

  lemma {:induction false} WalkBehaves(r: Regex, i: nat, st: State, chars: Probe)
    requires IsPattern(r) && Walk(r, i, st, chars).Some?
    ensures Behaves(r, Top(st.frames), Top(Walk(r, i, st, chars).value.frames), chars)
    decreases r, 1
  {
    hide Behaves, WalkAtom, WalkGroup, MarkBar, Source, OpeningText, LookText, IsAtom;
    match r {
      case Atom(t) =>
        AtomBehaves(t, false, ANY, st, chars);
      case Parens(o, b) =>
        GroupBehaves(o, b, i + |OpeningText(o)|, st, chars);
      case Look(behind, negative, b) =>
        LookBehaves(behind, negative, b, i + |LookText(behind, negative)|, st, chars);
      case Repeat(x, q) =>
        match x {
          case Atom(t) => AtomBehaves(t, true, q, st, chars);
          case Parens(o, b) => RepeatBehaves(o, b, q, i + |OpeningText(o)|, st, chars);
        }
      case Sequence(a, b) =>
        var st1 := Walk(a, i, st, chars).value;
        WalkBehaves(a, i, st, chars);
        WalkBehaves(b, i + |Source(a)|, st1, chars);
        SequenceBehaves(a, b, Top(st.frames), Top(st1.frames), Top(Walk(r, i, st, chars).value.frames), chars);
      case Choice(a, b) =>
        var st1 := Walk(a, i, st, chars).value;
        WalkBehaves(a, i, st, chars);
        WalkBehaves(b, i + |Source(a)| + 1, st1.(frames := MarkBar(st1.frames)), chars);
        ChoiceBehaves(a, b, Top(st.frames), st1.frames, Top(Walk(r, i, st, chars).value.frames), chars);
      case _ =>
        Untouched(r, Top(st.frames), chars);
    }
  }

  const ANY: Quantifier := Quantifier(Star, false)

  lemma Untouched(r: Regex, f: Frame, chars: Probe)
    requires r.Empty? || r.Assert?
    ensures Behaves(r, f, f, chars)
  {
  }

  // ---------------------------------------------------------------------------
  // The characters that are matched
  // ---------------------------------------------------------------------------

  predicate Takes(x: Edge, c: Code, e: Engine) {
    match x case OneOf(t) => CharMatches(t, c, e) case Anything => true
  }

  /** No character is matched by both edges, where there are two. */
  ghost predicate Apart(x: Option<Edge>, y: Option<Edge>, e: Engine) {
    x.Some? && y.Some? ==> forall c: Code :: !(Takes(x.value, c, e) && Takes(y.value, c, e))
  }

  /** Wherever a quantified item follows another one, no character is matched by both. */
  ghost predicate SharesNothing(r: Regex, e: Engine) {
    match r
    case Parens(_, b) => SharesNothing(b, e)
    case Look(_, _, b) => SharesNothing(b, e)
    case Repeat(x, _) => SharesNothing(x, e)
    case Sequence(a, b) => SharesNothing(a, e) && SharesNothing(b, e) && Apart(QuantifiedEnd(a), QuantifiedStart(b), e)
    case Choice(a, b) => SharesNothing(a, e) && SharesNothing(b, e)
    case _ => true
  }

  predicate IsAtomEdge(x: Option<Edge>) {
    x.Some? && x.value.OneOf? ==> IsAtom(x.value.atom)
  }

  lemma {:induction false} TextIsAtom(r: Regex)
    requires IsPattern(r)
    ensures FirstText(r).Some? ==> IsAtom(FirstText(r).value)
    ensures LastText(r).Some? ==> IsAtom(LastText(r).value)
  {
    hide IsAtom;
    match r {
      case Parens(_, b) => TextIsAtom(b);
      case Sequence(a, b) =>
        TextIsAtom(a);
        TextIsAtom(b);
      case _ =>
    }
  }

  lemma {:induction false} EdgesAreAtoms(r: Regex)
    requires IsPattern(r)
    ensures IsAtomEdge(QuantifiedStart(r)) && IsAtomEdge(QuantifiedEnd(r))
  {
    hide IsAtom, IsSilent, FirstText, LastText;
    match r {
      case Parens(_, b) => EdgesAreAtoms(b);
      case Repeat(x, _) => TextIsAtom(x);
      case Sequence(a, b) =>
        EdgesAreAtoms(a);
        EdgesAreAtoms(b);
      case Choice(a, b) =>
        EdgesAreAtoms(a);
        EdgesAreAtoms(b);
      case _ =>
    }
  }

  /** A sound probe finds out that a character is taken by both. */
  lemma SharedMeets(x: Option<Edge>, y: Option<Edge>, c: Code, chars: Probe, e: Engine)
    requires x.Some? && y.Some? && IsAtomEdge(x) && IsAtomEdge(y) && IsSound(chars, e)
    requires Takes(x.value, c, e) && Takes(y.value, c, e)
    ensures Meets(x, y, chars)
  {
    hide IsAtom, CharMatches;
    var d := if c < 128 then c else 128;
    assert MayTake(x.value, d, chars) && MayTake(y.value, d, chars);
  }

  lemma ApartOrMeets(x: Option<Edge>, y: Option<Edge>, chars: Probe, e: Engine)
    requires IsAtomEdge(x) && IsAtomEdge(y) && IsSound(chars, e)
    ensures Apart(x, y, e) || Meets(x, y, chars)
  {
    hide IsAtomEdge, CharMatches, Meets, Takes, IsSound;
    if !Apart(x, y, e) {
      var c: Code :| Takes(x.value, c, e) && Takes(y.value, c, e);
      SharedMeets(x, y, c, chars, e);
    }
  }

  lemma {:induction false} SeparatedSharesNothing(r: Regex, chars: Probe, e: Engine)
    requires IsPattern(r) && IsSeparated(r, chars) && IsSound(chars, e)
    ensures SharesNothing(r, e)
  {
    hide IsAtom, IsSound, Meets, Apart, IsAtomEdge, QuantifiedStart, QuantifiedEnd;
    match r {
      case Parens(_, b) => SeparatedSharesNothing(b, chars, e);
      case Look(_, _, b) => SeparatedSharesNothing(b, chars, e);
      case Repeat(x, _) => SeparatedSharesNothing(x, chars, e);
      case Choice(a, b) =>
        SeparatedSharesNothing(a, chars, e);
        SeparatedSharesNothing(b, chars, e);
      case Sequence(a, b) =>
        SeparatedSharesNothing(a, chars, e);
        SeparatedSharesNothing(b, chars, e);
        EdgesAreAtoms(a);
        EdgesAreAtoms(b);
        ApartOrMeets(QuantifiedEnd(a), QuantifiedStart(b), chars, e);
      case _ =>
    }
  }
}
