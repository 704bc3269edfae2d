// What the factor of a group's alternatives bounds, and what it does not.

module ApprovalFactor {
  import opened Texts
  import opened ApprovalSyntax
  import opened ApprovalScan
  import opened ApprovalFlat
  import opened ApprovalMatching
  import opened ApprovalBounds
  import opened ApprovalTargets
  import opened ApprovalProbe
  import opened ApprovalShapes

  // ---------------------------------------------------------------------------
  // Pairs
  // ---------------------------------------------------------------------------

  function CountTrue(hs: seq<bool>): nat {
    if hs == [] then 0 else (if hs[0] then 1 else 0) + CountTrue(hs[1..])
  }

  lemma {:induction false} AmbiguousWithAll(x: Shape, ss: seq<Shape>, hs: seq<bool>)
    requires |ss| == |hs| && forall k :: 0 <= k < |ss| && hs[k] ==> PrefixAmbiguous(x, ss[k])
    ensures AmbiguousWith(x, ss) >= CountTrue(hs)
  {
    hide PrefixAmbiguous;
    if ss != [] {
      AmbiguousWithAll(x, ss[1..], hs[1..]);
    }
  }

  /** If the marked shapes are ambiguous in pairs, there is at most one more of them than ambiguous pairs. */
  lemma {:induction false} PairsBound(ss: seq<Shape>, hs: seq<bool>)
    requires |ss| == |hs|
    requires forall j, k :: 0 <= j < k < |ss| && hs[j] && hs[k] ==> PrefixAmbiguous(ss[j], ss[k])
    ensures CountTrue(hs) <= 1 + AmbiguousPairs(ss)
  {
    hide PrefixAmbiguous;
    if ss != [] {
      PairsBound(ss[1..], hs[1..]);
      if hs[0] {
        AmbiguousWithAll(ss[0], ss[1..], hs[1..]);
      }
    }
  }

  // ---------------------------------------------------------------------------
  // The matches of a group with alternatives
  // ---------------------------------------------------------------------------

  function TriesOfAll(rs: seq<Regex>, s: Text, i: nat, e: Engine): seq<Try>
    requires i <= |s|
  {
    if rs == [] then [] else Tries(rs[0], s, i, false, e) + TriesOfAll(rs[1..], s, i, e)
  }

  function Hitting(rs: seq<Regex>, s: Text, i: nat, e: Engine): (hs: seq<bool>)
    requires i <= |s|
    ensures |hs| == |rs| && forall k :: 0 <= k < |rs| ==> hs[k] == (Hits(Tries(rs[k], s, i, false, e)) > 0)
  {
    if rs == [] then [] else [Hits(Tries(rs[0], s, i, false, e)) > 0] + Hitting(rs[1..], s, i, e)
  }

  lemma {:induction false} TriesConcat(a: seq<Regex>, b: seq<Regex>, s: Text, i: nat, e: Engine)
    requires i <= |s|
    ensures TriesOfAll(a + b, s, i, e) == TriesOfAll(a, s, i, e) + TriesOfAll(b, s, i, e)
    decreases |a|
  {
    hide Tries;
    if a == [] {
      assert a + b == b;
    } else {
      assert (a + b)[1..] == a[1..] + b;
      TriesConcat(a[1..], b, s, i, e);
    }
  }

  lemma {:induction false} ChoiceTries(r: Regex, s: Text, i: nat, e: Engine)
    requires i <= |s|
    ensures Tries(r, s, i, false, e) == TriesOfAll(Alternatives(r), s, i, e)
    decreases r
  {
    if r.Choice? {
      ChoiceTries(r.left, s, i, e);
      ChoiceTries(r.right, s, i, e);
      TriesConcat(Alternatives(r.left), Alternatives(r.right), s, i, e);
    } else {
      assert [r][1..] == [] && TriesOfAll([], s, i, e) == [];
    }
  }

  lemma {:induction false} HitsOfAll(rs: seq<Regex>, s: Text, i: nat, e: Engine, m: nat)
    requires i <= |s| && forall k :: 0 <= k < |rs| ==> Hits(Tries(rs[k], s, i, false, e)) <= m
    ensures Hits(TriesOfAll(rs, s, i, e)) <= CountTrue(Hitting(rs, s, i, e)) * m
  {
    hide Tries, Hits;
    if rs != [] {
      HitsOfAll(rs[1..], s, i, e, m);
      HitsConcat(Tries(rs[0], s, i, false, e), TriesOfAll(rs[1..], s, i, e));
      Distributes(CountTrue(Hitting(rs[1..], s, i, e)), m);
    } else {
      assert Hits([]) == 0;
    }
  }

  lemma {:induction false} SomeHit(ts: seq<Try>) returns (n: nat)
    requires Hits(ts) > 0
    ensures n < |ts| && ts[n].Hit?
  {
    if ts[0].Hit? {
      n := 0;
    } else {
      n := SomeHit(ts[1..]);
      n := n + 1;
    }
  }

  /** Any two of the alternatives are comparable. */
  predicate AllComparable(rs: seq<Regex>) {
    forall j, k :: 0 <= j < k < |rs| ==> IsComparable(rs[j], rs[k])
  }

  lemma {:induction false} AlternativesAre(r: Regex, k: nat)
    requires IsPattern(r) && k < |Alternatives(r)|
    ensures IsPattern(Alternatives(r)[k]) && !Alternatives(r)[k].Choice?
  {
    if r.Choice? {
      if k < |Alternatives(r.left)| {
        AlternativesAre(r.left, k);
      } else {
        AlternativesAre(r.right, k - |Alternatives(r.left)|);
      }
    }
  }

  lemma {:induction false} ShapesAre(rs: seq<Regex>, chars: Probe)
    ensures |Shapes(Sources(rs), chars)| == |rs|
    ensures forall k :: 0 <= k < |rs| ==> Shapes(Sources(rs), chars)[k] == ShapeFrom(Source(rs[k]), 0, [], true, chars)
  {
    hide Source, ShapeFrom;
    if rs != [] {
      ShapesAre(rs[1..], chars);
    }
  }

  /** At most as many comparable alternatives match at one place as the group's factor says. */
  lemma MatchingAlternatives(b: Regex, s: Text, i: nat, e: Engine, chars: Probe)
    requires IsPattern(b) && AllComparable(Alternatives(b)) && IsSound(chars, e) && i <= |s|
    ensures CountTrue(Hitting(Alternatives(b), s, i, e)) <= AlternativeFactor(Source(b), chars)
  {
    hide Tries, Hits, IsPattern, IsComparable, PrefixAmbiguous, ShapeFrom, Source, Alternatives, IsSound, Shapes, Sources, Split;
    var rs := Alternatives(b);
    var hs := Hitting(rs, s, i, e);
    SplitsAlternatives(b);
    ShapesAre(rs, chars);
    var ss := Shapes(Sources(rs), chars);
    forall j, k | 0 <= j < k < |ss| && hs[j] && hs[k] ensures PrefixAmbiguous(ss[j], ss[k]) {
      AlternativesAre(b, j);
      AlternativesAre(b, k);
      var n := SomeHit(Tries(rs[j], s, i, false, e));
      var m := SomeHit(Tries(rs[k], s, i, false, e));
      MatchesAreAmbiguous(rs[j], rs[k], s, i, e, chars, n, m);
    }
    PairsBound(ss, hs);
  }

  // ---------------------------------------------------------------------------
  // The bound by the factor
  // ---------------------------------------------------------------------------

  /** Every group's alternatives are comparable, outside assertions, which match once at most. */
  predicate IsCharged(r: Regex) {
    match r
    case Parens(_, b) => IsCharged(b) && (b.Choice? ==> AllComparable(Alternatives(b)))
    case Sequence(a, b) => IsCharged(a) && IsCharged(b)
    case Choice(a, b) => IsCharged(a) && IsCharged(b)
    case _ => true
  }

  lemma {:induction false} FactorPositive(r: Regex, chars: Probe)
    ensures Factor(r, chars) >= 1
  {
    hide AlternativeFactor;
    match r {
      case Parens(_, b) => FactorPositive(b, chars); AtLeastOne(Factor(b, chars), GroupFactor(b, chars));
      case Look(_, _, b) => FactorPositive(b, chars); AtLeastOne(Factor(b, chars), GroupFactor(b, chars));
      case Repeat(x, _) => FactorPositive(x, chars);
      case Sequence(a, b) =>
        FactorPositive(a, chars);
        FactorPositive(b, chars);
        AtLeastOne(Factor(a, chars), Factor(b, chars));
      case Choice(a, b) =>
        FactorPositive(a, chars);
        FactorPositive(b, chars);
        AtLeastOne(Factor(a, chars), Factor(b, chars));
      case _ =>
    }
  }

  /** The factor of a piece times one factor for every quantifier. */
  function Charge(r: Regex, chars: Probe, b: nat): nat {
    Factor(r, chars) * Pow(b, Quantifiers(r))
  }

  lemma ChargePositive(r: Regex, chars: Probe, b: nat)
    requires b >= 1
    ensures Charge(r, chars, b) >= 1
  {
    FactorPositive(r, chars);
    PowPositive(b, Quantifiers(r));
    AtLeastOne(Factor(r, chars), Pow(b, Quantifiers(r)));
  }

  lemma ChargeParts(a: Regex, b: Regex, chars: Probe, n: nat)
    requires n >= 1
    ensures Charge(Sequence(a, b), chars, n) == Charge(a, chars, n) * Charge(b, chars, n)
    ensures Charge(Choice(a, b), chars, n) == Charge(a, chars, n) * Charge(b, chars, n)
    ensures Charge(a, chars, n) <= Charge(a, chars, n) * Charge(b, chars, n)
    ensures Charge(b, chars, n) <= Charge(a, chars, n) * Charge(b, chars, n)
  {
    hide Charge;
    ChargeProduct(a, b, chars, n);
    ChargePositive(a, chars, n);
    ChargePositive(b, chars, n);
    Widens(Charge(a, chars, n), Charge(b, chars, n));
    Widens(Charge(b, chars, n), Charge(a, chars, n));
    assert Charge(a, chars, n) * Charge(b, chars, n) == Charge(b, chars, n) * Charge(a, chars, n);
  }

  lemma Widens(a: nat, b: nat)
    requires b >= 1
    ensures a <= a * b
  {
  }

  lemma ChargeProduct(a: Regex, b: Regex, chars: Probe, n: nat)
    ensures Charge(Sequence(a, b), chars, n) == Charge(a, chars, n) * Charge(b, chars, n)
    ensures Charge(Choice(a, b), chars, n) == Charge(a, chars, n) * Charge(b, chars, n)
  {
    hide Factor, Pow, Quantifiers, HasChoice, IsFlat;
    PowSum(n, Quantifiers(a), Quantifiers(b));
    SequenceParts(a, b, chars);
    ChoiceParts(a, b, chars);
    Rearranges(Factor(a, chars), Factor(b, chars), Pow(n, Quantifiers(a)), Pow(n, Quantifiers(b)));
  }

  lemma ChargeGroup(o: Opening, b: Regex, chars: Probe, n: nat)
    ensures Charge(Parens(o, b), chars, n) == GroupFactor(b, chars) * Charge(b, chars, n)
  {
    hide GroupFactor, Pow;
    var f, g, p := Factor(b, chars), GroupFactor(b, chars), Pow(n, Quantifiers(b));
    assert f * g * p == g * (f * p);
  }

  lemma {:induction false} AlternativeWithin(b: Regex, s: Text, i: nat, e: Engine, chars: Probe, k: nat)
    requires IsPattern(b) && IsFlat(b) && IsCharged(b) && IsSound(chars, e) && i <= |s| && k < |Alternatives(b)|
    ensures Hits(Tries(Alternatives(b)[k], s, i, false, e)) <= Charge(b, chars, |s| + 1)
    decreases b, 2
  {
    hide Tries, Hits, Charge, IsSound;
    if b.Choice? {
      var n := |Alternatives(b.left)|;
      ChargeParts(b.left, b.right, chars, |s| + 1);
      if k < n {
        AlternativeWithin(b.left, s, i, e, chars, k);
      } else {
        AlternativeWithin(b.right, s, i, e, chars, k - n);
      }
    } else {
      WithinFactor(b, s, i, e, chars);
    }
  }

  lemma {:induction false} GroupWithin(o: Opening, b: Regex, s: Text, i: nat, e: Engine, chars: Probe)
    requires IsPattern(b) && IsFlat(b) && IsCharged(Parens(o, b)) && IsSound(chars, e) && i <= |s|
    ensures Hits(Tries(b, s, i, false, e)) <= Charge(Parens(o, b), chars, |s| + 1)
    decreases Parens(o, b), 0
  {
    hide Tries, Hits, Charge, IsSound, IsPattern, IsFlat, AllComparable, Alternatives, AlternativeFactor;
    ChargeGroup(o, b, chars, |s| + 1);
    if b.Choice? {
      var rs, m := Alternatives(b), Charge(b, chars, |s| + 1);
      forall k | 0 <= k < |rs| ensures Hits(Tries(rs[k], s, i, false, e)) <= m {
        AlternativeWithin(b, s, i, e, chars, k);
      }
      ChoiceTries(b, s, i, e);
      HitsOfAll(rs, s, i, e, m);
      MatchingAlternatives(b, s, i, e, chars);
      ProductGrows(CountTrue(Hitting(rs, s, i, e)), GroupFactor(b, chars), m);
    } else {
      WithinFactor(b, s, i, e, chars);
    }
  }

  /** From any start, a piece whose groups have comparable alternatives matches at most as often as its charge. */
  lemma {:induction false} WithinFactor(r: Regex, s: Text, i: nat, e: Engine, chars: Probe)
    requires IsPattern(r) && !r.Choice? && IsFlat(r) && IsCharged(r) && IsSound(chars, e) && i <= |s|
    ensures Hits(Tries(r, s, i, false, e)) <= Charge(r, chars, |s| + 1)
    decreases r, 1
  {
    hide Continue, Repeats, Pow, Hits, Charge, Looked, Factor, IsSound, AllComparable;
    ChargePositive(r, chars, |s| + 1);
    match r {
      case Empty => OneHit(i);
      case Assert(_) => OneHit(i);
      case Atom(_) => OneHit(i + 1);
      case Parens(o, b) =>
        GroupWithin(o, b, s, i, e, chars);
      case Look(behind, negative, b) =>
        LookedBound(Tries(b, s, i, behind, e), i, negative);
      case Repeat(x, q) =>
        var (min, max) := Limits(q.bound);
        RepeatsBound(x, min, max, q.lazy, s, i, false, e);
        ChargeRepeat(x, q, chars, |s| + 1);
      case Sequence(a, b) =>
        SequenceWithin(a, b, s, i, e, chars);
        ChargeParts(a, b, chars, |s| + 1);
    }
  }

  lemma ChargeRepeat(x: Regex, q: Quantifier, chars: Probe, n: nat)
    requires IsStraight(x) && n >= 1
    ensures n <= Charge(Repeat(x, q), chars, n)
  {
    FactorPositive(Repeat(x, q), chars);
    ChargeIs(x, q, chars, n);
    hide Factor;
    var f := Factor(Repeat(x, q), chars);
    Widens(n, f);
    assert f * n == n * f;
  }

  lemma ChargeIs(x: Regex, q: Quantifier, chars: Probe, n: nat)
    requires IsStraight(x)
    ensures Charge(Repeat(x, q), chars, n) == Factor(Repeat(x, q), chars) * n
  {
    hide Factor;
    assert Pow(n, 1) == n * Pow(n, 0) == n;
  }

  lemma {:induction false} SequenceWithin(a: Regex, b: Regex, s: Text, i: nat, e: Engine, chars: Probe)
    requires IsPattern(Sequence(a, b)) && IsFlat(Sequence(a, b)) && IsCharged(Sequence(a, b)) && IsSound(chars, e) && i <= |s|
    ensures Hits(Continue(b, s, i, Tries(a, s, i, false, e), false, e)) <=
            Charge(a, chars, |s| + 1) * Charge(b, chars, |s| + 1)
    decreases Sequence(a, b), 0
  {
    hide Continue, Tries, Limit, Hits, Charge, IsSound;
    var m, h := Limit(b, |s| + 2), Charge(b, chars, |s| + 1);
    var ts := Tries(a, s, i, false, e);
    WithinFactor(a, s, i, e, chars);
    forall j: nat | j <= |s| ensures |Tries(b, s, j, false, e)| <= m && Hits(Tries(b, s, j, false, e)) <= h {
      TriesBound(b, s, j, false, e);
      WithinFactor(b, s, j, e, chars);
    }
    LimitPositive(b, |s| + 2);
    ContinueBound(b, s, i, ts, false, e, m, h);
    ProductGrows(Hits(ts), Charge(a, chars, |s| + 1), h);
  }

  /**
   * On an input of length n, an accepted pattern with q quantifiers whose groups have comparable
   * alternatives matches from any start in at most F (n + 1)^q ways, where F, at most 1024, is the
   * product of its groups' factors. Bars at the top of a pattern are not charged, so there are none.
   */
  lemma WithinBudget(r: Regex, chars: Probe, s: Text, i: nat, e: Engine)
    requires IsPattern(r) && !r.Choice? && !IsTooSlow(Source(r), chars) && IsCharged(r) && IsSound(chars, e) && i <= |s|
    ensures Hits(Tries(r, s, i, false, e)) <= Factor(r, chars) * Pow(|s| + 1, Quantifiers(r))
    ensures Factor(r, chars) <= MAX_BUDGET
  {
    hide Tries, Hits, Pow, Factor, IsPattern, Source, IsTooSlow, IsSound, IsCharged;
    AcceptedIsFlat(r, chars);
    WithinFactor(r, s, i, e, chars);
  }
}
