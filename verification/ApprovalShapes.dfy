// What the comparison of a group's alternatives finds out: which of them may match at one place.

module ApprovalShapes {
  import opened Results
  import opened Texts
  import opened ApprovalSyntax
  import opened ApprovalScan
  import opened ApprovalWalk
  import opened ApprovalMatching
  import opened ApprovalProbe
  import opened ApprovalAnchoring

  // ---------------------------------------------------------------------------
  // The shape of a branch, from its syntax
  // ---------------------------------------------------------------------------

  /** How far the atoms of a piece have been collected: to its end, or up to a group. */
  datatype Collected = On(domains: seq<AtomChars>, nullable: bool) | Stopped(domains: seq<AtomChars>)

  function Collect(r: Regex, ds: seq<AtomChars>, nullable: bool, chars: Probe): Collected {
    match r
    case Empty => On(ds, nullable)
    case Assert(_) => On(ds, nullable)
    case Atom(t) => On(ds + [chars(t)], false)
    case Repeat(x, q) =>
      if x.Atom? then On(ds + [chars(x.text)], nullable && !AsksForOne(QuantifierText(q))) else Stopped(ds)
    case Sequence(a, b) =>
      (match Collect(a, ds, nullable, chars)
       case On(ds1, nullable1) => Collect(b, ds1, nullable1, chars)
       case Stopped(ds1) => Stopped(ds1))
    case _ => Stopped(ds)
  }

  function ShapeOf(r: Regex, chars: Probe): Shape {
    match Collect(r, [], true, chars)
    case On(ds, nullable) => if ds != [] then Shape(ds, nullable) else Shape([UNKNOWN], true)
    case Stopped(ds) => Shape(DomainsOr(ds), true)
  }

  /** What the scan of the branch's text does behind a piece. */
  function Behind(p: Text, n: nat, c: Collected, chars: Probe): Shape {
    match c
    case On(ds, nullable) => ShapeFrom(p, n, ds, nullable, chars)
    case Stopped(ds) => Shape(DomainsOr(ds), true)
  }

  lemma AtomEndAt(p: Text, i: nat, t: Text)
    requires IsAtom(t) && At(p, i, t)
    ensures i < |p| && p[i] == t[0] && AtomEnd(p, i) == i + |t|
    ensures t[0] != CARET && t[0] != DOLLAR && !StopsShape(t[0])
    ensures t[0] == BACKSLASH ==> !IsAt(p, i + 1, SMALL_B) && !IsAt(p, i + 1, LARGE_B)
  {
    hide At, ClassEnd, EscapeEnd, IsClassBody;
    AtElement(p, i, t, 0);
    AtBound(p, i, t);
    if IsEscape(t) {
      AtElement(p, i, t, 1);
      EscapeEndAt(p, i, t);
    } else if IsClass(t) {
      var body := t[1..|t| - 1];
      assert t == [LBRACKET] + body + [RBRACKET];
      AtSplit(p, i, [LBRACKET] + body, [RBRACKET]);
      AtSplit(p, i, [LBRACKET], body);
      AtElement(p, i + 1 + |body|, [RBRACKET], 0);
      ClassEndAt(p, i + 1, body);
    }
  }

  lemma ShapesAtom(p: Text, i: nat, t: Text, q: Option<Quantifier>, ds: seq<AtomChars>, nullable: bool, chars: Probe)
    requires IsAtom(t) && (q.Some? ==> IsBound(q.value.bound))
    requires At(p, i, t) && At(p, i + |t|, MaybeText(q)) && NoQuantifierAt(p, i + |t| + |MaybeText(q)|)
    ensures ShapeFrom(p, i, ds, nullable, chars) ==
            ShapeFrom(p, i + |t| + |MaybeText(q)|, ds + [chars(t)],
                      q.Some? && nullable && !AsksForOne(MaybeText(q)), chars)
  {
    hide At, IsAtom, MaybeText, QuantifierEnd, Slice, NoQuantifierAt, AtomEnd, StopsShape, AsksForOne;
    AtomEndAt(p, i, t);
    QuantifierEndAt(p, i + |t|, q);
    SliceOf(p, i, t);
    SliceOf(p, i + |t|, MaybeText(q));
    NoText(q);
  }

  lemma ShapesAnchor(p: Text, i: nat, a: Anchor, ds: seq<AtomChars>, nullable: bool, chars: Probe)
    requires At(p, i, AnchorText(a))
    ensures ShapeFrom(p, i, ds, nullable, chars) == ShapeFrom(p, i + |AnchorText(a)|, ds, nullable, chars)
  {
    hide At, AtomEnd, QuantifierEnd, DomainsOr, AsksForOne, StopsShape;
    AtBound(p, i, AnchorText(a));
    AtElement(p, i, AnchorText(a), 0);
    if a.WordBoundary? || a.NoWordBoundary? {
      AtElement(p, i, AnchorText(a), 1);
    }
  }

  lemma ShapesGroup(p: Text, i: nat, r: Regex, ds: seq<AtomChars>, nullable: bool, chars: Probe)
    requires (r.Parens? || r.Look?) && At(p, i, Source(r))
    ensures ShapeFrom(p, i, ds, nullable, chars) == Shape(DomainsOr(ds), true)
  {
    hide At, Source;
    GroupStarts(r);
    AtElement(p, i, Source(r), 0);
    AtBound(p, i, Source(r));
  }

  /** The scan of a printed branch collects what its syntax holds. */
  lemma {:induction false} ShapeIs(p: Text, i: nat, r: Regex, ds: seq<AtomChars>, nullable: bool, chars: Probe)
    requires IsPattern(r) && !r.Choice? && At(p, i, Source(r)) && NoQuantifierAt(p, i + |Source(r)|)
    ensures ShapeFrom(p, i, ds, nullable, chars) ==
            Behind(p, i + |Source(r)|, Collect(r, ds, nullable, chars), chars)
    decreases r
  {
    hide At, ShapeFrom, NoQuantifierAt, IsAtom, MaybeText, OpeningText, LookText, AnchorText, QuantifierText, AsksForOne;
    match r {
      case Empty =>
      case Assert(a) =>
        ShapesAnchor(p, i, a, ds, nullable, chars);
      case Atom(t) =>
        NoMore(p, i, t);
        ShapesAtom(p, i, t, None, ds, nullable, chars);
      case Parens(_, _) =>
        ShapesGroup(p, i, r, ds, nullable, chars);
      case Look(_, _, _) =>
        ShapesGroup(p, i, r, ds, nullable, chars);
      case Repeat(x, q) =>
        AtSplit(p, i, Source(x), QuantifierText(q));
        SomeText(q);
        if x.Atom? {
          ShapesAtom(p, i, x.text, Some(q), ds, nullable, chars);
        } else {
          ShapesGroup(p, i, x, ds, nullable, chars);
        }
      case Sequence(a, b) =>
        AtSplit(p, i, Source(a), Source(b));
        NoQuantifierInFront(p, i + |Source(a)|, b);
        ShapeIs(p, i, a, ds, nullable, chars);
        var c := Collect(a, ds, nullable, chars);
        if c.On? {
          ShapeIs(p, i + |Source(a)|, b, c.domains, c.nullable, chars);
        }
    }
  }

  lemma ShapeOfBranch(r: Regex, chars: Probe)
    requires IsPattern(r) && !r.Choice?
    ensures ShapeFrom(Source(r), 0, [], true, chars) == ShapeOf(r, chars)
  {
    hide At, IsPattern, Source, Collect;
    AtWhole(Source(r));
    ShapeIs(Source(r), 0, r, [], true, chars);
    ShapeEnds(Source(r), Collect(r, [], true, chars), chars);
  }

  lemma ShapeEnds(p: Text, c: Collected, chars: Probe)
    ensures Behind(p, |p|, c, chars) ==
            match c
            case On(ds, nullable) => if ds != [] then Shape(ds, nullable) else Shape([UNKNOWN], true)
            case Stopped(ds) => Shape(DomainsOr(ds), true)
  {
  }

  // ---------------------------------------------------------------------------
  // Branches that are lines of atoms
  // ---------------------------------------------------------------------------

  /** Atoms, quantified or not, and anchors, in a row. */
  predicate IsLine(r: Regex) {
    match r
    case Empty => true
    case Assert(_) => true
    case Atom(_) => true
    case Repeat(x, _) => x.Atom?
    case Sequence(a, b) => IsLine(a) && IsLine(b)
    case _ => false
  }

  /** An atom of a branch: whether it is quantified, whether it must match, and whether its text shows that. */
  datatype Spot = Spot(atom: Text, quantified: bool, needed: bool, asks: bool)

  /** The quantifier is a greedy `+`, or a range whose lower bound does not start with `0`. */
  predicate ShowsNeed(q: Quantifier) {
    match q.bound
    case Plus => !q.lazy
    case Exactly(low) => low != [] && low[0] != 0x30
    case AtLeast(low) => low != [] && low[0] != 0x30
    case Between(low, _) => low != [] && low[0] != 0x30
    case _ => false
  }

  lemma AsksIsNeed(q: Quantifier)
    requires IsBound(q.bound)
    ensures AsksForOne(QuantifierText(q)) <==> ShowsNeed(q)
  {
    var b, t := q.bound, BoundText(q.bound);
    if b.Exactly? || b.AtLeast? || b.Between? {
      assert t[0] == LBRACE && t[1] == b.low[0] && IsDigit(b.low[0]);
      assert QuantifierText(q)[0] == t[0] && QuantifierText(q)[1] == t[1];
    } else {
      assert t[0] != LBRACE && QuantifierText(q)[0] == t[0];
    }
  }

  function Spots(r: Regex): seq<Spot> {
    match r
    case Atom(t) => [Spot(t, false, true, true)]
    case Repeat(x, q) => if x.Atom? then [Spot(x.text, true, Limits(q.bound).0 > 0, ShowsNeed(q))] else []
    case Sequence(a, b) => Spots(a) + Spots(b)
    case _ => []
  }

  function Domains(ss: seq<Spot>, chars: Probe): (ds: seq<AtomChars>)
    ensures |ds| == |ss| && forall k :: 0 <= k < |ss| ==> ds[k] == chars(ss[k].atom)
  {
    if ss == [] then [] else [chars(ss[0].atom)] + Domains(ss[1..], chars)
  }

  /** As far as the code can tell, every atom may be skipped. */
  predicate SeemsSkippable(r: Regex) {
    forall k :: 0 <= k < |Spots(r)| ==> Spots(r)[k].quantified && !Spots(r)[k].asks
  }

  lemma {:induction false} DomainsConcat(a: seq<Spot>, b: seq<Spot>, chars: Probe)
    ensures Domains(a + b, chars) == Domains(a, chars) + Domains(b, chars)
  {
  }

  lemma {:induction false} CollectsLine(r: Regex, ds: seq<AtomChars>, nullable: bool, chars: Probe)
    requires IsPattern(r) && IsLine(r)
    ensures Collect(r, ds, nullable, chars) == On(ds + Domains(Spots(r), chars), nullable && SeemsSkippable(r))
  {
    hide AsksForOne, QuantifierText, SeemsSkippable, Domains, IsAtom, ShowsNeed;
    if r.Sequence? {
      var a, b := r.left, r.right;
      CollectsLine(a, ds, nullable, chars);
      CollectsLine(b, ds + Domains(Spots(a), chars), nullable && SeemsSkippable(a), chars);
      DomainsConcat(Spots(a), Spots(b), chars);
      SkippableParts(a, b);
      assert ds + Domains(Spots(a), chars) + Domains(Spots(b), chars) == ds + (Domains(Spots(a), chars) + Domains(Spots(b), chars));
    } else {
      CollectsSpot(r, ds, nullable, chars);
    }
  }

  lemma CollectsSpot(r: Regex, ds: seq<AtomChars>, nullable: bool, chars: Probe)
    requires IsPattern(r) && IsLine(r) && !r.Sequence?
    ensures Collect(r, ds, nullable, chars) == On(ds + Domains(Spots(r), chars), nullable && SeemsSkippable(r))
  {
    hide AsksForOne, QuantifierText, ShowsNeed, IsAtom;
    if r.Repeat? {
      AsksIsNeed(r.quantifier);
    }
    if r.Atom? || r.Repeat? {
      assert Spots(r)[1..] == [] && Domains([], chars) == [];
    }
    assert ds + [] == ds;
  }

  lemma SkippableParts(a: Regex, b: Regex)
    ensures SeemsSkippable(Sequence(a, b)) <==> SeemsSkippable(a) && SeemsSkippable(b)
  {
    hide ShowsNeed;
    var ss := Spots(a) + Spots(b);
    assert Spots(Sequence(a, b)) == ss;
    forall k | 0 <= k < |Spots(b)| ensures Spots(b)[k] == ss[|Spots(a)| + k] {
    }
    forall k | 0 <= k < |Spots(a)| ensures Spots(a)[k] == ss[k] {
    }
  }

  /** A branch that holds a group counts as skippable. */
  lemma {:induction false} GroupsStop(r: Regex, ds: seq<AtomChars>, nullable: bool, chars: Probe)
    requires IsPattern(r) && !IsLine(r)
    ensures Collect(r, ds, nullable, chars).Stopped?
  {
    hide IsAtom;
    match r {
      case Sequence(a, b) =>
        if IsLine(a) {
          CollectsLine(a, ds, nullable, chars);
          var c := Collect(a, ds, nullable, chars);
          GroupsStop(b, c.domains, c.nullable, chars);
        } else {
          GroupsStop(a, ds, nullable, chars);
        }
      case _ =>
    }
  }

  /** A branch's shape: the atoms of a line, and whether the branch counts as skippable. */
  lemma ShapeOfLine(r: Regex, chars: Probe)
    requires IsPattern(r)
    ensures ShapeOf(r, chars).nullable <==> !IsLine(r) || SeemsSkippable(r)
    ensures !ShapeOf(r, chars).nullable ==> Spots(r) != [] && ShapeOf(r, chars).domains == Domains(Spots(r), chars)
  {
    hide Collect, SeemsSkippable, IsPattern;
    if !IsLine(r) {
      GroupsStop(r, [], true, chars);
    } else {
      CollectsLine(r, [], true, chars);
      NoSpots(r);
      assert [] + Domains(Spots(r), chars) == Domains(Spots(r), chars);
    }
  }

  lemma NoSpots(r: Regex)
    ensures Spots(r) == [] ==> SeemsSkippable(r)
  {
  }

  // ---------------------------------------------------------------------------
  // What a match of a line says
  // ---------------------------------------------------------------------------

  /** A repetition that must match once matches its atom at its start. */
  lemma RepeatMatches(t: Text, q: Quantifier, s: Text, i: nat, e: Engine, n: nat)
    requires IsBound(q.bound) && Limits(q.bound).0 > 0 && i <= |s|
    requires var ts := Tries(Repeat(Atom(t), q), s, i, false, e); n < |ts| && ts[n].Hit?
    ensures i < |s| && CharMatches(t, s[i], e)
  {
    hide CharMatches, Decimal;
    var (min, max) := Limits(q.bound);
    assert max != Some(0);
    if !(i < |s| && CharMatches(t, s[i], e)) {
      NoMatchMisses(t, q, s, i, e);
    }
  }

  lemma NoMatchMisses(t: Text, q: Quantifier, s: Text, i: nat, e: Engine)
    requires Limits(q.bound).0 > 0 && Limits(q.bound).1 != Some(0) && i <= |s| && !(i < |s| && CharMatches(t, s[i], e))
    ensures Tries(Repeat(Atom(t), q), s, i, false, e) == [Miss]
  {
    hide CharMatches, Decimal;
    hide Again, Limits;
    var (min, max) := Limits(q.bound);
    assert Tries(Atom(t), s, i, false, e) == [Miss];
    MissAgain(t, min, max, q.lazy, s, i, e);
    assert Repeats(Atom(t), min, max, q.lazy, s, i, false, e) == [Miss];
  }

  lemma MissAgain(t: Text, min: nat, max: Option<nat>, lazy: bool, s: Text, i: nat, e: Engine)
    requires i <= |s|
    ensures Again(Atom(t), min, max, lazy, s, i, [Miss], false, e) == [Miss]
  {
    assert [Miss][1..] == [];
    assert Again(Atom(t), min, max, lazy, s, i, [], false, e) == [];
  }

  predicate AllExact(r: Regex) {
    forall k :: 0 <= k < |Spots(r)| ==> !Spots(r)[k].quantified
  }

  lemma SpotsParts(a: Regex, b: Regex, k: nat)
    ensures |Spots(Sequence(a, b))| == |Spots(a)| + |Spots(b)|
    ensures k < |Spots(a)| ==> Spots(Sequence(a, b))[k] == Spots(a)[k]
    ensures |Spots(a)| <= k < |Spots(a)| + |Spots(b)| ==> Spots(Sequence(a, b))[k] == Spots(b)[k - |Spots(a)|]
  {
    hide Limits, ShowsNeed;
  }

  /** A line without quantifiers takes one character for each of its atoms. */
  lemma {:induction false} ExactEnds(r: Regex, s: Text, i: nat, e: Engine, n: nat)
    requires IsLine(r) && AllExact(r) && i <= |s|
    requires n < |Tries(r, s, i, false, e)| && Tries(r, s, i, false, e)[n].Hit?
    ensures Tries(r, s, i, false, e)[n].end == i + |Spots(r)|
    decreases r
  {
    hide CharMatches, Continue;
    if r.Sequence? {
      var a, b := r.left, r.right;
      forall k | 0 <= k < |Spots(r)| ensures Spots(r)[k] == if k < |Spots(a)| then Spots(a)[k] else Spots(b)[k - |Spots(a)|] {
        SpotsParts(a, b, k);
      }
      ExactParts(a, b);
      var m, l := ContinueComesFrom(b, s, i, Tries(a, s, i, false, e), e, n);
      ExactEnds(a, s, i, e, m);
      ExactEnds(b, s, Tries(a, s, i, false, e)[m].end, e, l);
    } else if r.Repeat? {
      RepeatIsInexact(r);
    }
  }

  lemma RepeatIsInexact(r: Regex)
    requires r.Repeat? && IsLine(r)
    ensures !AllExact(r)
  {
    assert Spots(r)[0].quantified;
  }

  lemma ExactParts(a: Regex, b: Regex)
    ensures AllExact(Sequence(a, b)) <==> AllExact(a) && AllExact(b)
  {
    var ss := Spots(a) + Spots(b);
    assert Spots(Sequence(a, b)) == ss;
    forall k | 0 <= k < |Spots(a)| ensures Spots(a)[k] == ss[k] {
    }
    forall k | 0 <= k < |Spots(b)| ensures Spots(b)[k] == ss[|Spots(a)| + k] {
    }
  }

  /** The unquantified atoms in front of an atom of a sequence, seen from the part that holds it. */
  lemma SpotInParts(a: Regex, b: Regex, k: nat)
    requires k < |Spots(Sequence(a, b))| && forall j :: 0 <= j < k ==> !Spots(Sequence(a, b))[j].quantified
    ensures |Spots(Sequence(a, b))| == |Spots(a)| + |Spots(b)|
    ensures k < |Spots(a)| ==>
              && Spots(Sequence(a, b))[k] == Spots(a)[k]
              && forall j :: 0 <= j < k ==> !Spots(a)[j].quantified
    ensures k >= |Spots(a)| ==>
              && Spots(Sequence(a, b))[k] == Spots(b)[k - |Spots(a)|]
              && AllExact(a)
              && forall j :: 0 <= j < k - |Spots(a)| ==> !Spots(b)[j].quantified
  {
    hide Spots;
    SpotsParts(a, b, k);
    forall j | 0 <= j < k && j < |Spots(a)| ensures !Spots(a)[j].quantified {
      SpotsParts(a, b, j);
    }
    forall j | 0 <= j < k - |Spots(a)| ensures !Spots(b)[j].quantified {
      SpotsParts(a, b, |Spots(a)| + j);
    }
  }

  /** Behind unquantified atoms, an atom that must match does so at its place. */
  lemma {:induction false} SpotMatches(r: Regex, s: Text, i: nat, e: Engine, n: nat, k: nat)
    requires IsPattern(r) && IsLine(r) && i <= |s|
    requires n < |Tries(r, s, i, false, e)| && Tries(r, s, i, false, e)[n].Hit?
    requires k < |Spots(r)| && Spots(r)[k].needed && forall j :: 0 <= j < k ==> !Spots(r)[j].quantified
    ensures i + k < |s| && CharMatches(Spots(r)[k].atom, s[i + k], e)
    decreases r
  {
    hide CharMatches, Continue, IsAtom, Tries;
    if r.Sequence? {
      var a, b := r.left, r.right;
      TriesOfSequence(a, b, s, i, e);
      var m, l := ContinueComesFrom(b, s, i, Tries(a, s, i, false, e), e, n);
      SpotInParts(a, b, k);
      if k < |Spots(a)| {
        SpotMatches(a, s, i, e, m, k);
      } else {
        ExactEnds(a, s, i, e, m);
        SpotMatches(b, s, i + |Spots(a)|, e, l, k - |Spots(a)|);
      }
    } else if r.Repeat? {
      RepeatMatches(r.item.text, r.quantifier, s, i, e, n);
    } else {
      AtomMatches(r, s, i, e, n);
    }
  }

  lemma TriesOfSequence(a: Regex, b: Regex, s: Text, i: nat, e: Engine)
    requires i <= |s|
    ensures Tries(Sequence(a, b), s, i, false, e) == Continue(b, s, i, Tries(a, s, i, false, e), false, e)
  {
  }

  lemma AtomMatches(r: Regex, s: Text, i: nat, e: Engine, n: nat)
    requires r.Atom? && i <= |s|
    requires n < |Tries(r, s, i, false, e)| && Tries(r, s, i, false, e)[n].Hit?
    ensures i < |s| && CharMatches(r.text, s[i], e)
  {
    hide CharMatches;
  }

  // ---------------------------------------------------------------------------
  // Branches that match at one place
  // ---------------------------------------------------------------------------

  /** Among the first `n` atoms, at most the last is quantified, and it must match. */
  predicate IsExactUpTo(ss: seq<Spot>, n: nat)
    requires n <= |ss|
  {
    forall k :: 0 <= k < n ==> ss[k].needed && (k < n - 1 ==> !ss[k].quantified)
  }

  /** The atoms that are compared tell where the branches match. */
  predicate IsComparable(a: Regex, b: Regex) {
    IsLine(a) && IsLine(b) && !SeemsSkippable(a) && !SeemsSkippable(b) ==>
      var n := if |Spots(a)| < |Spots(b)| then |Spots(a)| else |Spots(b)|;
      IsExactUpTo(Spots(a), n) && IsExactUpTo(Spots(b), n)
  }

  /**
   * Two alternatives that match at one place are counted as ambiguous, if none of the compared atoms
   * but the last is quantified, and the last must match.
   */
  lemma MatchesAreAmbiguous(a: Regex, b: Regex, s: Text, i: nat, e: Engine, chars: Probe, n: nat, m: nat)
    requires IsPattern(a) && !a.Choice? && IsPattern(b) && !b.Choice? && IsComparable(a, b) && IsSound(chars, e)
    requires i <= |s|
    requires n < |Tries(a, s, i, false, e)| && Tries(a, s, i, false, e)[n].Hit?
    requires m < |Tries(b, s, i, false, e)| && Tries(b, s, i, false, e)[m].Hit?
    ensures PrefixAmbiguous(ShapeFrom(Source(a), 0, [], true, chars), ShapeFrom(Source(b), 0, [], true, chars))
  {
    hide Tries, CharMatches, IsSound, IsPattern, IsLine, SeemsSkippable, Overlap, Spots, ShapeFrom, ShapeOf, Source;
    ShapeOfBranch(a, chars);
    ShapeOfBranch(b, chars);
    var x, y := ShapeOf(a, chars), ShapeOf(b, chars);
    if !x.nullable && !y.nullable {
      ShapeOfLine(a, chars);
      ShapeOfLine(b, chars);
      forall k | 0 <= k < |x.domains| && k < |y.domains| ensures Overlap(x.domains[k], y.domains[k]) {
        SpotMatches(a, s, i, e, n, k);
        SpotMatches(b, s, i, e, m, k);
        SpotIsAtom(a, k);
        SpotIsAtom(b, k);
        SharedOverlaps(Spots(a)[k].atom, Spots(b)[k].atom, s[i + k], chars, e);
      }
    }
  }

  lemma {:induction false} SpotIsAtom(r: Regex, k: nat)
    requires IsPattern(r) && k < |Spots(r)|
    ensures IsAtom(Spots(r)[k].atom)
  {
    hide IsAtom;
    if r.Sequence? {
      SpotsParts(r.left, r.right, k);
      if k < |Spots(r.left)| {
        SpotIsAtom(r.left, k);
      } else {
        SpotIsAtom(r.right, k - |Spots(r.left)|);
      }
    }
  }
}
