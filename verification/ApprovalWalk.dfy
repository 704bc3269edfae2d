// The scan of a pattern's text is a walk over its syntax.

module ApprovalWalk {
  import opened Results
  import opened Texts
  import opened ApprovalSyntax
  import opened ApprovalScan

  // ---------------------------------------------------------------------------
  // Tokens of a printed pattern
  // ---------------------------------------------------------------------------

  /** The character at `i` does not start a quantifier. */
  predicate NoQuantifierAt(p: Text, i: nat) {
    i < |p| ==> !StartsQuantifier(p[i])
  }

  lemma {:induction false} DigitsEndAt(p: Text, i: nat, ds: Text)
    requires At(p, i, ds) && (forall k :: 0 <= k < |ds| ==> IsDigit(ds[k]))
    requires i + |ds| < |p| && !IsDigit(p[i + |ds|])
    ensures DigitsEnd(p, i) == i + |ds|
    decreases |ds|
  {
    hide At;
    if ds != [] {
      AtElement(p, i, ds, 0);
      AtDrop(p, i, ds, 1);
      DigitsEndAt(p, i + 1, ds[1..]);
    }
  }

  lemma ExactEnd(p: Text, i: nat, low: Text)
    requires AllDigits(low) && At(p, i, [LBRACE] + low + [RBRACE])
    ensures BraceEnd(p, i) == Some(i + |low| + 2)
  {
    hide At, DigitsEnd;
    AtSplit(p, i, [LBRACE] + low, [RBRACE]);
    AtSplit(p, i, [LBRACE], low);
    AtElement(p, i + 1 + |low|, [RBRACE], 0);
    AtBound(p, i + 1 + |low|, [RBRACE]);
    DigitsEndAt(p, i + 1, low);
  }

  lemma OpenEnd(p: Text, i: nat, low: Text, high: Text)
    requires AllDigits(low) && (forall k :: 0 <= k < |high| ==> IsDigit(high[k]))
    requires At(p, i, [LBRACE] + low + [COMMA] + high + [RBRACE])
    ensures BraceEnd(p, i) == Some(i + |low| + |high| + 3)
  {
    hide At, DigitsEnd;
    var n := |low|;
    AtSplit(p, i, [LBRACE] + low + [COMMA] + high, [RBRACE]);
    AtSplit(p, i, [LBRACE] + low + [COMMA], high);
    AtSplit(p, i, [LBRACE] + low, [COMMA]);
    AtSplit(p, i, [LBRACE], low);
    AtElement(p, i + 1 + n, [COMMA], 0);
    AtElement(p, i + 2 + n + |high|, [RBRACE], 0);
    AtBound(p, i + 2 + n + |high|, [RBRACE]);
    DigitsEndAt(p, i + 1, low);
    DigitsEndAt(p, i + 2 + n, high);
  }

  lemma BraceEndAt(p: Text, i: nat, b: Bound)
    requires (b.Exactly? || b.AtLeast? || b.Between?) && IsBound(b) && At(p, i, BoundText(b))
    ensures p[i] == LBRACE && BraceEnd(p, i) == Some(i + |BoundText(b)|)
  {
    hide At, BraceEnd;
    AtElement(p, i, BoundText(b), 0);
    AtBound(p, i, BoundText(b));
    match b {
      case Exactly(low) => ExactEnd(p, i, low);
      case AtLeast(low) =>
        assert [LBRACE] + low + [COMMA] + [] + [RBRACE] == BoundText(b);
        OpenEnd(p, i, low, []);
      case Between(low, high) => OpenEnd(p, i, low, high);
    }
  }

  /** The text of an optional quantifier. */
  function MaybeText(q: Option<Quantifier>): Text {
    match q case None => [] case Some(v) => QuantifierText(v)
  }

  lemma QuantifierEndAt(p: Text, i: nat, q: Option<Quantifier>)
    requires q.Some? ==> IsBound(q.value.bound)
    requires At(p, i, MaybeText(q)) && NoQuantifierAt(p, i + |MaybeText(q)|)
    ensures QuantifierEnd(p, i) == if q.Some? then Some(i + |MaybeText(q)|) else None
    ensures i + |MaybeText(q)| <= |p|
  {
    hide At, BraceEnd;
    AtBound(p, i, MaybeText(q));
    if q.Some? {
      var b, t := q.value.bound, BoundText(q.value.bound);
      var lazy := if q.value.lazy then [QMARK] else [];
      AtSplit(p, i, t, lazy);
      AtElement(p, i, t, 0);
      if q.value.lazy {
        AtElement(p, i + |t|, [QMARK], 0);
        AtBound(p, i + |t|, [QMARK]);
      }
      if b.Exactly? || b.AtLeast? || b.Between? {
        BraceEndAt(p, i, b);
      }
    }
  }

  lemma {:induction false} ClassEndAt(p: Text, i: nat, body: Text)
    requires IsClassBody(body) && At(p, i, body) && i + |body| < |p| && p[i + |body|] == RBRACKET
    ensures ClassEnd(p, i) == i + |body| + 1
    decreases |body|
  {
    hide At;
    if body != [] {
      AtElement(p, i, body, 0);
      var n := if body[0] == BACKSLASH then 2 else 1;
      AtDrop(p, i, body, n);
      ClassEndAt(p, i + n, body[n..]);
    }
  }

  lemma EscapeEndAt(p: Text, i: nat, t: Text)
    requires IsEscape(t) && At(p, i, t)
    ensures EscapeEnd(p, i) == i + |t|
  {
    AtElement(p, i, t, 1);
    if |t| >= 4 {
      AtElement(p, i, t, 2);
      AtElement(p, i, t, 3);
    }
    if |t| == 6 {
      AtElement(p, i, t, 4);
      AtElement(p, i, t, 5);
    }
  }

  /** An atom's step: its end is found, and it is no escape that stands for an assertion. */
  lemma AtomStepAt(p: Text, i: nat, t: Text, st: State, chars: Probe)
    requires IsAtom(t) && At(p, i, t)
    ensures i < i + |t| <= |p| && StepAt(p, i, st, chars) == AtomStep(p, i, i + |t|, st, chars)
    ensures !StartsQuantifier(t[0])
  {
    hide At, AtomStep, CloseStep, ClassEnd, EscapeEnd, IsClassBody;
    AtElement(p, i, t, 0);
    AtBound(p, i, t);
    if IsEscape(t) {
      AtElement(p, i, t, 1);
      EscapeEndAt(p, i, t);
    } else if IsClass(t) {
      var body := t[1..|t| - 1];
      assert t == [LBRACKET] + body + [RBRACKET];
      AtSplit(p, i, [LBRACKET] + body, [RBRACKET]);
      AtSplit(p, i, [LBRACKET], body);
      AtElement(p, i + 1 + |body|, [RBRACKET], 0);
      ClassEndAt(p, i + 1, body);
    }
  }

  /** No source text starts with a quantifier. */
  lemma {:induction false} SourceStarts(r: Regex)
    requires IsPattern(r) && Source(r) != []
    ensures !StartsQuantifier(Source(r)[0])
  {
    match r {
      case Sequence(a, b) =>
        if Source(a) != [] {
          SourceStarts(a);
        } else {
          assert Source(r) == Source(b);
          SourceStarts(b);
        }
      case Choice(a, b) =>
        if Source(a) != [] {
          SourceStarts(a);
        }
      case Repeat(x, q) =>
        RepeatableStarts(x);
        SourceStarts(x);
      case _ =>
    }
  }

  lemma RepeatableStarts(x: Regex)
    requires IsPattern(x) && IsRepeatable(x)
    ensures Source(x) != []
  {
  }

  lemma NoQuantifierInFront(p: Text, i: nat, r: Regex)
    requires IsPattern(r) && At(p, i, Source(r)) && NoQuantifierAt(p, i + |Source(r)|)
    ensures NoQuantifierAt(p, i)
  {
    hide IsPattern, Source;
    if Source(r) != [] {
      SourceStarts(r);
      AtElement(p, i, Source(r), 0);
    }
  }

  // ---------------------------------------------------------------------------
  // The walk over the syntax
  // ---------------------------------------------------------------------------

  function WalkAtom(t: Text, quantified: bool, st: State, chars: Probe): (w: Option<State>)
    ensures w.Some? ==> |w.value.frames| == |st.frames|
  {
    match MarkAtom(st.frames, quantified, chars(t), chars(t))
    case None => None
    case Some(fs) => Some(st.(frames := fs))
  }

  function Opened(st: State, i: nat, assertion: bool): (r: State)
    ensures |r.frames| == |st.frames| + 1
  {
    st.(frames := st.frames + [NewFrame(i, assertion)])
  }

  /** The budget behind a group with this body. */
  function BudgetBehind(b: Regex, budget: nat, choice: bool, chars: Probe): nat {
    if choice then budget * AlternativeFactor(Source(b), chars) else budget
  }

  function Joined(fs: Frames, group: Frame, quantified: bool, budget: nat): (w: Option<State>)
    ensures w.Some? ==> |w.value.frames| == |fs|
  {
    if quantified && (group.hasQuantifier || group.hasAlternative) then None
    else if group.assertion then Some(State(fs, budget))
    else match JoinGroup(fs, group, quantified) case None => None case Some(gs) => Some(State(gs, budget))
  }

  /** A group with this body is closed: it costs budget, is checked and joined to the frame below. */
  function Closed(b: Regex, quantified: bool, st: State, chars: Probe): (w: Option<State>)
    requires |st.frames| > 1
    ensures w.Some? ==> |w.value.frames| == |st.frames| - 1
  {
    var open := st.frames[|st.frames| - 1];
    var budget := BudgetBehind(b, st.budget, open.directAlternative, chars);
    if open.directAlternative && budget > MAX_BUDGET then None
    else
      Joined(st.frames[..|st.frames| - 1], open.(endsQuantified := OrElse(open.endsQuantified, open.lastQuantified)),
             quantified, budget)
  }

  /** The effect of a piece that stands at `i` on the state; None if it is rejected. */
  function Walk(r: Regex, i: nat, st: State, chars: Probe): (w: Option<State>)
    ensures w.Some? ==> |w.value.frames| == |st.frames|
    decreases r, 1
  {
    match r
    case Empty => Some(st)
    case Assert(_) => Some(st)
    case Atom(t) => WalkAtom(t, false, st, chars)
    case Parens(o, b) => WalkGroup(b, i + |OpeningText(o)|, false, false, st, chars)
    case Look(behind, negative, b) => WalkGroup(b, i + |LookText(behind, negative)|, true, false, st, chars)
    case Repeat(x, _) =>
      (match x
       case Atom(t) => WalkAtom(t, true, st, chars)
       case Parens(o, b) => WalkGroup(b, i + |OpeningText(o)|, false, true, st, chars)
       case _ => None)
    case Sequence(a, b) =>
      (match Walk(a, i, st, chars)
       case None => None
       case Some(st1) => Walk(b, i + |Source(a)|, st1, chars))
    case Choice(a, b) =>
      match Walk(a, i, st, chars)
      case None => None
      case Some(st1) => Walk(b, i + |Source(a)| + 1, st1.(frames := MarkBar(st1.frames)), chars)
  }

  function WalkGroup(b: Regex, i: nat, assertion: bool, quantified: bool, st: State, chars: Probe): (w: Option<State>)
    ensures w.Some? ==> |w.value.frames| == |st.frames|
    decreases b, 2
  {
    match Walk(b, i, Opened(st, i, assertion), chars)
    case None => None
    case Some(st1) => Closed(b, quantified, st1, chars)
  }

  // ---------------------------------------------------------------------------
  // Frames keep where their group starts and what it is
  // ---------------------------------------------------------------------------

  predicate Kept(f: Frame, g: Frame) {
    g.bodyStart == f.bodyStart && g.assertion == f.assertion
  }

  ghost predicate AllKept(fs: seq<Frame>, gs: seq<Frame>) {
    |gs| == |fs| && forall k :: 0 <= k < |fs| ==> Kept(fs[k], gs[k])
  }

  lemma JoinKeeps(fs: Frames, group: Frame, quantified: bool)
    requires JoinGroup(fs, group, quantified).Some?
    ensures AllKept(fs, JoinGroup(fs, group, quantified).value)
  {
    hide Overlaps, CharsOr;
  }

  lemma ClosedKeeps(b: Regex, quantified: bool, st: State, chars: Probe)
    requires |st.frames| > 1 && Closed(b, quantified, st, chars).Some?
    ensures AllKept(st.frames[..|st.frames| - 1], Closed(b, quantified, st, chars).value.frames)
  {
    hide JoinGroup, AlternativeFactor, Source;
    var open, rest: Frames := st.frames[|st.frames| - 1], st.frames[..|st.frames| - 1];
    var group := open.(endsQuantified := OrElse(open.endsQuantified, open.lastQuantified));
    if !open.assertion {
      JoinKeeps(rest, group, quantified);
    }
  }

  lemma AtomKeeps(t: Text, quantified: bool, st: State, chars: Probe)
    requires WalkAtom(t, quantified, st, chars).Some?
    ensures AllKept(st.frames, WalkAtom(t, quantified, st, chars).value.frames)
  {
    hide Overlaps;
  }

  lemma BarKeeps(fs: Frames)
    ensures AllKept(fs, MarkBar(fs))
  {
  }

  lemma {:induction false} WalkKeeps(r: Regex, i: nat, st: State, chars: Probe)
    requires Walk(r, i, st, chars).Some?
    ensures AllKept(st.frames, Walk(r, i, st, chars).value.frames)
    decreases r, 1
  {
    hide WalkAtom, WalkGroup, MarkBar, Source, OpeningText, LookText;
    match r {
      case Atom(t) => AtomKeeps(t, false, st, chars);
      case Parens(o, b) => GroupKeeps(b, i + |OpeningText(o)|, false, false, st, chars);
      case Look(behind, negative, b) => GroupKeeps(b, i + |LookText(behind, negative)|, true, false, st, chars);
      case Repeat(x, _) =>
        match x {
          case Atom(t) => AtomKeeps(t, true, st, chars);
          case Parens(o, b) => GroupKeeps(b, i + |OpeningText(o)|, false, true, st, chars);
        }
      case Sequence(a, b) =>
        WalkKeeps(a, i, st, chars);
        WalkKeeps(b, i + |Source(a)|, Walk(a, i, st, chars).value, chars);
      case Choice(a, b) =>
        var st1 := Walk(a, i, st, chars).value;
        WalkKeeps(a, i, st, chars);
        BarKeeps(st1.frames);
        WalkKeeps(b, i + |Source(a)| + 1, st1.(frames := MarkBar(st1.frames)), chars);
      case _ =>
    }
  }

  lemma {:induction false} GroupKeeps(b: Regex, i: nat, assertion: bool, quantified: bool, st: State, chars: Probe)
    requires WalkGroup(b, i, assertion, quantified, st, chars).Some?
    ensures AllKept(st.frames, WalkGroup(b, i, assertion, quantified, st, chars).value.frames)
    decreases b, 2
  {
    hide Walk, Closed;
    var st1 := Walk(b, i, Opened(st, i, assertion), chars).value;
    WalkKeeps(b, i, Opened(st, i, assertion), chars);
    ClosedKeeps(b, quantified, st1, chars);
    assert forall k :: 0 <= k < |st.frames| ==> Opened(st, i, assertion).frames[k] == st.frames[k];
  }

  /** Behind a group's body, the top frame is still the group's. */
  lemma TopFrame(b: Regex, i: nat, assertion: bool, st: State, chars: Probe)
    requires Walk(b, i, Opened(st, i, assertion), chars).Some?
    ensures var fs := Walk(b, i, Opened(st, i, assertion), chars).value.frames;
            |fs| > 1 && fs[|fs| - 1].bodyStart == i && fs[|fs| - 1].assertion == assertion
  {
    hide Walk;
    WalkKeeps(b, i, Opened(st, i, assertion), chars);
    assert Opened(st, i, assertion).frames[|st.frames|] == NewFrame(i, assertion);
  }

  // ---------------------------------------------------------------------------
  // The scan of a printed pattern
  // ---------------------------------------------------------------------------

  /** Whether the rest of the text is rejected, after a walk that ended at `n`. */
  predicate Rest(p: Text, n: nat, w: Option<State>, chars: Probe) {
    match w case None => true case Some(st) => SlowFrom(p, n, st, chars)
  }

  lemma SlowStep(p: Text, i: nat, st: State, chars: Probe)
    requires i < |p|
    ensures SlowFrom(p, i, st, chars) ==
            match StepAt(p, i, st, chars) case Slow => true case Go(n, st1) => SlowFrom(p, n, st1, chars)
  {
    hide StepAt;
  }

  lemma ScanAtom(p: Text, i: nat, t: Text, q: Option<Quantifier>, st: State, chars: Probe)
    requires IsAtom(t) && (q.Some? ==> IsBound(q.value.bound))
    requires At(p, i, t) && At(p, i + |t|, MaybeText(q)) && NoQuantifierAt(p, i + |t| + |MaybeText(q)|)
    ensures SlowFrom(p, i, st, chars) == Rest(p, i + |t| + |MaybeText(q)|, WalkAtom(t, q.Some?, st, chars), chars)
  {
    hide At, StepAt, SlowFrom, MaybeText, QuantifierEnd, MarkAtom, IsAtom, Slice, NoQuantifierAt;
    AtomStepAt(p, i, t, st, chars);
    QuantifierEndAt(p, i + |t|, q);
    SlowStep(p, i, st, chars);
    NoText(q);
    SliceOf(p, i, t);
  }

  lemma NoText(q: Option<Quantifier>)
    ensures q.None? ==> MaybeText(q) == []
  {
  }

  lemma SliceOf(p: Text, i: nat, t: Text)
    requires At(p, i, t)
    ensures Slice(p, i, i + |t|) == t
  {
    hide At;
    SliceIs(p, i, t);
  }

  lemma {:induction false} IndexOfEnd(p: Text, i: nat, name: Text, c: Code)
    requires At(p, i, name) && (forall k :: 0 <= k < |name| ==> name[k] != c)
    requires i + |name| < |p| && p[i + |name|] == c
    ensures IndexOf(p, i, c) == Some(i + |name|)
    decreases |name|
  {
    hide At;
    if name != [] {
      AtElement(p, i, name, 0);
      AtDrop(p, i, name, 1);
      IndexOfEnd(p, i + 1, name[1..], c);
    }
  }

  lemma NamedParts(p: Text, i: nat, name: Text)
    requires name != [] && At(p, i, [LPAREN, QMARK, LESS] + name + [GREATER])
    ensures i + 4 + |name| <= |p| && p[i + 1] == QMARK && p[i + 2] == LESS && p[i + 3] == name[0]
    ensures At(p, i + 3, name) && p[i + 3 + |name|] == GREATER
  {
    hide *;
    var head := [LPAREN, QMARK, LESS];
    AtSplit(p, i, head + name, [GREATER]);
    AtSplit(p, i, head, name);
    AtElement(p, i, head, 1);
    AtElement(p, i, head, 2);
    AtBound(p, i + 3 + |name|, [GREATER]);
    AtElement(p, i + 3 + |name|, [GREATER], 0);
    AtElement(p, i + 3, name, 0);
  }

  lemma OpensNamed(p: Text, i: nat, name: Text)
    requires IsGroupName(name) && At(p, i, OpeningText(Named(name)))
    ensures GroupOpening(p, i) == (i + |OpeningText(Named(name))|, false)
  {
    hide At, IndexOf;
    NamedParts(p, i, name);
    IndexOfEnd(p, i + 3, name, GREATER);
  }

  /** What opens a group: the body starts behind it. */
  lemma Opens(p: Text, i: nat, o: Opening)
    requires (o.Named? ==> IsGroupName(o.name)) && At(p, i, OpeningText(o))
    requires NoQuantifierAt(p, i + |OpeningText(o)|)
    ensures i < |p| && p[i] == LPAREN && GroupOpening(p, i) == (i + |OpeningText(o)|, false)
  {
    hide At, IndexOf;
    AtElement(p, i, OpeningText(o), 0);
    AtBound(p, i, OpeningText(o));
    match o {
      case Capture =>
      case Plain =>
        AtElement(p, i, OpeningText(o), 1);
        AtElement(p, i, OpeningText(o), 2);
      case Named(name) => OpensNamed(p, i, name);
    }
  }

  lemma OpensLook(p: Text, i: nat, behind: bool, negative: bool)
    requires At(p, i, LookText(behind, negative))
    ensures i < |p| && p[i] == LPAREN && GroupOpening(p, i) == (i + |LookText(behind, negative)|, true)
  {
    hide At, IndexOf;
    var t := LookText(behind, negative);
    AtBound(p, i, t);
    AtElement(p, i, t, 0);
    AtElement(p, i, t, 1);
    AtElement(p, i, t, 2);
    if behind {
      AtElement(p, i, t, 3);
    }
  }

  lemma OpenStep(p: Text, i: nat, st: State, chars: Probe)
    requires i < |p| && p[i] == LPAREN
    ensures var (body, assertion) := GroupOpening(p, i);
            SlowFrom(p, i, st, chars) == SlowFrom(p, body, Opened(st, body, assertion), chars)
  {
    hide GroupOpening, SlowFrom;
    SlowStep(p, i, st, chars);
  }

  lemma CloseStepIs(p: Text, j: nat, b: Regex, q: Option<Quantifier>, st: State, chars: Probe)
    requires j < |p| && p[j] == RPAREN && |st.frames| > 1
    requires Slice(p, st.frames[|st.frames| - 1].bodyStart, j) == Source(b)
    requires (q.Some? ==> IsBound(q.value.bound)) && At(p, j + 1, MaybeText(q))
    requires NoQuantifierAt(p, j + 1 + |MaybeText(q)|)
    ensures CloseStep(p, j, st, chars) ==
            match Closed(b, q.Some?, st, chars)
            case None => Slow
            case Some(st1) => Go(j + 1 + |MaybeText(q)|, st1)
  {
    hide At, MaybeText, QuantifierEnd, JoinGroup, Slice, NoQuantifierAt, AlternativeFactor, Source;
    QuantifierEndAt(p, j + 1, q);
    NoText(q);
  }

  lemma ScanClose(p: Text, j: nat, b: Regex, q: Option<Quantifier>, st: State, chars: Probe)
    requires j < |p| && p[j] == RPAREN && |st.frames| > 1
    requires Slice(p, st.frames[|st.frames| - 1].bodyStart, j) == Source(b)
    requires (q.Some? ==> IsBound(q.value.bound)) && At(p, j + 1, MaybeText(q))
    requires NoQuantifierAt(p, j + 1 + |MaybeText(q)|)
    ensures SlowFrom(p, j, st, chars) == Rest(p, j + 1 + |MaybeText(q)|, Closed(b, q.Some?, st, chars), chars)
  {
    hide At, SlowFrom, MaybeText, CloseStep, Closed, Slice, NoQuantifierAt, Source;
    CloseStepIs(p, j, b, q, st, chars);
    SlowStep(p, j, st, chars);
  }

  lemma BarStep(p: Text, i: nat, st: State, chars: Probe)
    requires i < |p| && p[i] == PIPE
    ensures SlowFrom(p, i, st, chars) == SlowFrom(p, i + 1, st.(frames := MarkBar(st.frames)), chars)
  {
    hide SlowFrom, MarkBar;
    SlowStep(p, i, st, chars);
  }

  lemma AnchorStep(p: Text, i: nat, a: Anchor, st: State, chars: Probe)
    requires At(p, i, AnchorText(a))
    ensures SlowFrom(p, i, st, chars) == SlowFrom(p, i + |AnchorText(a)|, st, chars)
  {
    hide At, SlowFrom, AtomStep, CloseStep;
    AtBound(p, i, AnchorText(a));
    AtElement(p, i, AnchorText(a), 0);
    if a.WordBoundary? || a.NoWordBoundary? {
      AtElement(p, i, AnchorText(a), 1);
    }
    SlowStep(p, i, st, chars);
  }

  /** The scan of a printed piece is the walk over its syntax, whether it rejects or goes on behind the piece. */
  lemma {:induction false} ScanIs(p: Text, i: nat, r: Regex, st: State, chars: Probe)
    requires IsPattern(r) && At(p, i, Source(r)) && NoQuantifierAt(p, i + |Source(r)|)
    ensures SlowFrom(p, i, st, chars) == Rest(p, i + |Source(r)|, Walk(r, i, st, chars), chars)
    decreases r, 1
  {
    hide At, SlowFrom, NoQuantifierAt, IsAtom, MaybeText, OpeningText, LookText, AnchorText, QuantifierText, MarkBar,
         WalkAtom, WalkGroup;
    match r {
      case Empty =>
      case Assert(a) =>
        AnchorStep(p, i, a, st, chars);
      case Atom(t) =>
        NoMore(p, i, t);
        ScanAtom(p, i, t, None, st, chars);
      case Parens(o, b) =>
        NoMore(p, i, Source(r));
        ScanParens(p, i, o, b, None, st, chars);
      case Look(behind, negative, b) =>
        ScanLook(p, i, behind, negative, b, st, chars);
      case Repeat(x, q) =>
        AtSplit(p, i, Source(x), QuantifierText(q));
        SomeText(q);
        match x {
          case Atom(t) =>
            ScanAtom(p, i, t, Some(q), st, chars);
          case Parens(o, b) =>
            ScanParens(p, i, o, b, Some(q), st, chars);
        }
      case Sequence(a, b) =>
        AtSplit(p, i, Source(a), Source(b));
        NoQuantifierInFront(p, i + |Source(a)|, b);
        ScanIs(p, i, a, st, chars);
        if Walk(a, i, st, chars).Some? {
          ScanIs(p, i + |Source(a)|, b, Walk(a, i, st, chars).value, chars);
        }
      case Choice(a, b) =>
        ScanChoice(p, i, a, b, st, chars);
    }
  }

  lemma NoMore(p: Text, i: nat, t: Text)
    requires At(p, i, t)
    ensures At(p, i + |t|, MaybeText(None)) && MaybeText(None) == []
  {
  }

  lemma SomeText(q: Quantifier)
    ensures MaybeText(Some(q)) == QuantifierText(q)
  {
  }

  lemma {:induction false} ScanChoice(p: Text, i: nat, a: Regex, b: Regex, st: State, chars: Probe)
    requires IsPattern(a) && IsPattern(b) && At(p, i, Source(Choice(a, b)))
    requires NoQuantifierAt(p, i + |Source(Choice(a, b))|)
    ensures SlowFrom(p, i, st, chars) == Rest(p, i + |Source(Choice(a, b))|, Walk(Choice(a, b), i, st, chars), chars)
    decreases Choice(a, b), 0
  {
    hide At, SlowFrom, MarkBar, IsPattern, Walk, Source, NoQuantifierAt, StartsQuantifier;
    var n := i + |Source(a)|;
    ChoiceStands(p, i, a, b);
    WalkChoice(a, b, i, st, chars);
    ScanIs(p, i, a, st, chars);
    if Walk(a, i, st, chars).Some? {
      var st1 := Walk(a, i, st, chars).value;
      BarStep(p, n, st1, chars);
      ScanIs(p, n + 1, b, st1.(frames := MarkBar(st1.frames)), chars);
    }
  }

  lemma ChoiceStands(p: Text, i: nat, a: Regex, b: Regex)
    requires At(p, i, Source(Choice(a, b)))
    ensures var n := i + |Source(a)|;
            && At(p, i, Source(a)) && n < |p| && p[n] == PIPE && NoQuantifierAt(p, n) && At(p, n + 1, Source(b))
            && i + |Source(Choice(a, b))| == n + 1 + |Source(b)|
  {
    hide At;
    var n := i + |Source(a)|;
    AtSplit(p, i, Source(a) + [PIPE], Source(b));
    AtSplit(p, i, Source(a), [PIPE]);
    AtBound(p, n, [PIPE]);
    AtElement(p, n, [PIPE], 0);
  }

  lemma WalkChoice(a: Regex, b: Regex, i: nat, st: State, chars: Probe)
    ensures Walk(Choice(a, b), i, st, chars) ==
            match Walk(a, i, st, chars)
            case None => None
            case Some(st1) => Walk(b, i + |Source(a)| + 1, st1.(frames := MarkBar(st1.frames)), chars)
  {
    hide Source, MarkBar;
  }

  /** A group's body and its closing parenthesis, from the state in which the group has been opened. */
  lemma {:induction false} ScanGroup(p: Text, i: nat, b: Regex, assertion: bool, q: Option<Quantifier>, st: State,
                                     chars: Probe)
    requires At(p, i, Source(b)) && At(p, i + |Source(b)|, [RPAREN]) && IsPattern(b)
    requires (q.Some? ==> IsBound(q.value.bound)) && At(p, i + |Source(b)| + 1, MaybeText(q))
    requires NoQuantifierAt(p, i + |Source(b)| + 1 + |MaybeText(q)|)
    ensures SlowFrom(p, i, Opened(st, i, assertion), chars) ==
            Rest(p, i + |Source(b)| + 1 + |MaybeText(q)|, WalkGroup(b, i, assertion, q.Some?, st, chars), chars)
    decreases b, 2
  {
    hide At, SlowFrom, MaybeText, Slice, NoQuantifierAt, Source, IsPattern, Walk, Closed, Opened;
    var j := i + |Source(b)|;
    AtElement(p, j, [RPAREN], 0);
    AtBound(p, j, [RPAREN]);
    ClosesHere(p, j);
    ScanIs(p, i, b, Opened(st, i, assertion), chars);
    if Walk(b, i, Opened(st, i, assertion), chars).Some? {
      TopFrame(b, i, assertion, st, chars);
      SliceOf(p, i, Source(b));
      ScanClose(p, j, b, q, Walk(b, i, Opened(st, i, assertion), chars).value, chars);
    }
  }

  lemma {:induction false} ScanParens(p: Text, i: nat, o: Opening, b: Regex, q: Option<Quantifier>, st: State,
                                      chars: Probe)
    requires (o.Named? ==> IsGroupName(o.name)) && IsPattern(b) && (q.Some? ==> IsBound(q.value.bound))
    requires At(p, i, Source(Parens(o, b))) && At(p, i + |Source(Parens(o, b))|, MaybeText(q))
    requires NoQuantifierAt(p, i + |Source(Parens(o, b))| + |MaybeText(q)|)
    ensures SlowFrom(p, i, st, chars) ==
            Rest(p, i + |Source(Parens(o, b))| + |MaybeText(q)|,
                 WalkGroup(b, i + |OpeningText(o)|, false, q.Some?, st, chars), chars)
    decreases Parens(o, b), 0
  {
    hide At, SlowFrom, MaybeText, OpeningText, NoQuantifierAt, IsPattern, WalkGroup, GroupOpening, Opened;
    var open, body := OpeningText(o), Source(b);
    var j := i + |open|;
    AtSplit(p, i, open + body, [RPAREN]);
    AtSplit(p, i, open, body);
    ClosesHere(p, j + |body|);
    NoQuantifierInFront(p, j, b);
    Opens(p, i, o);
    OpenStep(p, i, st, chars);
    ScanGroup(p, j, b, false, q, st, chars);
  }

  lemma {:induction false} ScanLook(p: Text, i: nat, behind: bool, negative: bool, b: Regex, st: State, chars: Probe)
    requires IsPattern(b) && At(p, i, Source(Look(behind, negative, b)))
    requires NoQuantifierAt(p, i + |Source(Look(behind, negative, b))|)
    ensures SlowFrom(p, i, st, chars) ==
            Rest(p, i + |Source(Look(behind, negative, b))|,
                 WalkGroup(b, i + |LookText(behind, negative)|, true, false, st, chars), chars)
    decreases Look(behind, negative, b), 0
  {
    hide At, SlowFrom, MaybeText, LookText, NoQuantifierAt, IsPattern, WalkGroup, GroupOpening, Opened;
    var open, body := LookText(behind, negative), Source(b);
    var j := i + |open|;
    AtSplit(p, i, open + body, [RPAREN]);
    AtSplit(p, i, open, body);
    ClosesHere(p, j + |body|);
    NoQuantifierInFront(p, j, b);
    OpensLook(p, i, behind, negative);
    OpenStep(p, i, st, chars);
    NoMore(p, j + |body|, [RPAREN]);
    ScanGroup(p, j, b, true, None, st, chars);
  }

  lemma ClosesHere(p: Text, i: nat)
    requires At(p, i, [RPAREN])
    ensures NoQuantifierAt(p, i)
  {
    AtElement(p, i, [RPAREN], 0);
  }

  /** A pattern is rejected if and only if it holds a reference or the walk over its syntax rejects it. */
  lemma TooSlowIsWalk(r: Regex, chars: Probe)
    requires IsPattern(r)
    ensures IsTooSlow(Source(r), chars) <==> HasReference(Source(r), 0) || Walk(r, 0, START, chars).None?
  {
    hide At, HasReference, IsPattern, Source, Walk;
    var p := Source(r);
    AtWhole(p);
    ScanIs(p, 0, r, START, chars);
    NothingSlow(p, Walk(r, 0, START, chars), chars);
  }

  lemma NothingSlow(p: Text, w: Option<State>, chars: Probe)
    ensures Rest(p, |p|, w, chars) <==> w.None?
  {
  }
}
