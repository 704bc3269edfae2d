// An accepted pattern is tried from one start in polynomially many ways.

module ApprovalBounds {
  import opened Results
  import opened Texts
  import opened ApprovalSyntax
  import opened ApprovalScan
  import opened ApprovalFlat
  import opened ApprovalMatching

  function Hits(ts: seq<Try>): (n: nat)
    ensures n <= |ts|
  {
    if ts == [] then 0 else (if ts[0].Hit? then 1 else 0) + Hits(ts[1..])
  }

  function Pow(b: nat, n: nat): nat {
    if n == 0 then 1 else b * Pow(b, n - 1)
  }

  lemma {:induction false} HitsConcat(a: seq<Try>, b: seq<Try>)
    ensures Hits(a + b) == Hits(a) + Hits(b)
    decreases |a|
  {
    if a == [] {
      assert a + b == b;
    } else {
      assert (a + b)[1..] == a[1..] + b;
      HitsConcat(a[1..], b);
    }
  }

  lemma {:induction false} PowPositive(b: nat, n: nat)
    requires b >= 1
    ensures Pow(b, n) >= 1
  {
    if n > 0 {
      PowPositive(b, n - 1);
      AtLeastOne(b, Pow(b, n - 1));
    }
  }

  lemma AtLeastOne(a: nat, b: nat)
    requires a >= 1 && b >= 1
    ensures a * b >= 1
  {
  }

  lemma {:induction false} PowSum(b: nat, m: nat, n: nat)
    ensures Pow(b, m + n) == Pow(b, m) * Pow(b, n)
    decreases m
  {
    if m > 0 {
      PowSum(b, m - 1, n);
      Regroups(b, Pow(b, m - 1), Pow(b, n));
    }
  }

  lemma Regroups(a: nat, b: nat, c: nat)
    ensures a * (b * c) == a * b * c
  {
  }

  /** The tries of an assertion end with its first match. */
  lemma LookedBound(ts: seq<Try>, i: nat, negative: bool)
    ensures |Looked(ts, i, negative)| <= |ts| && (|ts| == 1 ==> |Looked(ts, i, negative)| == 1)
    ensures Hits(Looked(ts, i, negative)) <= 1
  {
    var n := Misses(ts);
    MissesMiss(ts);
    if n == |ts| {
      NoHits(ts);
      if negative && n > 0 {
        NoHits(ts[..n - 1]);
        HitsConcat(ts[..n - 1], [Hit(i)]);
      }
    } else {
      NoHits(ts[..n]);
      HitsConcat(ts[..n], [if negative then Miss else Hit(i)]);
    }
  }

  lemma {:induction false} NoHits(ts: seq<Try>)
    requires forall k :: 0 <= k < |ts| ==> ts[k].Miss?
    ensures Hits(ts) == 0
  {
    if ts != [] {
      NoHits(ts[1..]);
    }
  }

  // ---------------------------------------------------------------------------
  // Pieces without quantifiers and choices
  // ---------------------------------------------------------------------------

  predicate IsStraight(r: Regex) {
    Quantifiers(r) == 0 && !HasChoice(r)
  }

  /** A piece without quantifiers and choices is tried in one way. */
  lemma {:induction false} OneTry(r: Regex, s: Text, i: nat, back: bool, e: Engine)
    requires i <= |s| && IsStraight(r)
    ensures |Tries(r, s, i, back, e)| == 1
    decreases r, 1
  {
    match r {
      case Parens(_, b) =>
        OneTry(b, s, i, back, e);
      case Look(behind, negative, b) =>
        OneTry(b, s, i, behind, e);
        LookedBound(Tries(b, s, i, behind, e), i, negative);
      case Sequence(a, b) =>
        OneContinues(r, if back then b else a, if back then a else b, s, i, back, e);
      case _ =>
    }
  }

  lemma {:induction false} OneContinues(r: Regex, a: Regex, b: Regex, s: Text, i: nat, back: bool, e: Engine)
    requires r == Sequence(a, b) || r == Sequence(b, a)
    requires i <= |s| && IsStraight(a) && IsStraight(b)
    ensures |Continue(b, s, i, Tries(a, s, i, back, e), back, e)| == 1
    decreases r, 0
  {
    OneTry(a, s, i, back, e);
    var ts := Tries(a, s, i, back, e);
    assert ts == [ts[0]];
    assert Continue(b, s, i, [], back, e) == [];
    if ts[0].Hit? {
      OneTry(b, s, ts[0].end, back, e);
    }
  }

  /** Repeating such a piece is tried once for every number of repetitions that make progress. */
  lemma {:induction false} RepeatsBound(x: Regex, min: nat, max: Option<nat>, lazy: bool, s: Text, i: nat, back: bool,
                                        e: Engine)
    requires i <= |s| && IsStraight(x)
    ensures var ts := Repeats(x, min, max, lazy, s, i, back, e);
            |ts| <= Room(s, i, back) + 2 && Hits(ts) <= Room(s, i, back) + 1
    decreases min, Room(s, i, back)
  {
    hide Tries, IsStraight;
    var ts := Repeats(x, min, max, lazy, s, i, back, e);
    if max == Some(0) {
      OneHit(i);
    } else {
      var first := Tries(x, s, i, back, e);
      OneTry(x, s, i, back, e);
      assert first == [first[0]];
      var more := Again(x, min, max, lazy, s, i, first, back, e);
      NoneAgain(x, min, max, lazy, s, i, first[0], back, e);
      OneHit(i);
      if first[0].Hit? && !(min == 0 && first[0].end == i) {
        RepeatsBound(x, if min == 0 then 0 else min - 1, Pred(max), lazy, s, first[0].end, back, e);
      }
      HitsConcat([Hit(i)], more);
      HitsConcat(more, [Hit(i)]);
    }
  }

  lemma OneHit(i: nat)
    ensures Hits([Hit(i)]) == 1 && Hits([Miss]) == 0
  {
    assert [Hit(i)][1..] == [] && [Miss][1..] == [];
  }

  lemma NoneAgain(x: Regex, min: nat, max: Option<nat>, lazy: bool, s: Text, i: nat, t: Try, back: bool, e: Engine)
    requires i <= |s| && Onward(t, s, i, back)
    ensures Again(x, min, max, lazy, s, i, [t], back, e) ==
            match t
            case Miss => [Miss]
            case Hit(j) =>
              if min == 0 && j == i then [Miss]
              else Repeats(x, if min == 0 then 0 else min - 1, Pred(max), lazy, s, j, back, e)
  {
    hide Repeats, Tries;
    assert [t][1..] == [];
    assert Again(x, min, max, lazy, s, i, [], back, e) == [];
  }

  // ---------------------------------------------------------------------------
  // The bound
  // ---------------------------------------------------------------------------

  /** At most `m` tries and `h` matches from every start. */
  ghost predicate Bounded(r: Regex, s: Text, back: bool, e: Engine, m: nat, h: nat) {
    forall j: nat :: j <= |s| ==> |Tries(r, s, j, back, e)| <= m && Hits(Tries(r, s, j, back, e)) <= h
  }

  lemma {:induction false} ContinueBound(r: Regex, s: Text, i: nat, ts: seq<Try>, back: bool, e: Engine, m: nat, h: nat)
    requires i <= |s| && AllOnward(ts, s, i, back) && m >= 1 && Bounded(r, s, back, e, m, h)
    ensures |Continue(r, s, i, ts, back, e)| <= |ts| * m
    ensures Hits(Continue(r, s, i, ts, back, e)) <= Hits(ts) * h
    decreases |ts|
  {
    hide Tries;
    if ts != [] {
      ContinueBound(r, s, i, ts[1..], back, e, m, h);
      var first := match ts[0] case Miss => [Miss] case Hit(j) => Tries(r, s, j, back, e);
      HitsConcat(first, Continue(r, s, i, ts[1..], back, e));
      OneHit(0);
      Distributes(|ts[1..]|, m);
      Distributes(Hits(ts[1..]), h);
    }
  }

  lemma Distributes(n: nat, m: nat)
    ensures (n + 1) * m == n * m + m
  {
  }

  /** The bound for a piece: its branches times one factor for every quantifier. */
  function Limit(r: Regex, b: nat): nat {
    Branches(r) * Pow(b, Quantifiers(r))
  }

  lemma LimitPositive(r: Regex, b: nat)
    requires b >= 1
    ensures Limit(r, b) >= 1
  {
    PowPositive(b, Quantifiers(r));
    AtLeastOne(Branches(r), Pow(b, Quantifiers(r)));
  }

  lemma LimitSequence(a: Regex, b: Regex, n: nat)
    ensures Limit(Sequence(a, b), n) == Limit(a, n) * Limit(b, n) == Limit(b, n) * Limit(a, n)
  {
    PowSum(n, Quantifiers(a), Quantifiers(b));
    Rearranges(Branches(a), Branches(b), Pow(n, Quantifiers(a)), Pow(n, Quantifiers(b)));
  }

  lemma Rearranges(a: nat, b: nat, x: nat, y: nat)
    ensures a * b * (x * y) == a * x * (b * y)
  {
    assert a * b * (x * y) == a * (b * x) * y == a * (x * b) * y;
  }

  lemma LimitChoice(a: Regex, b: Regex, n: nat)
    requires n >= 1
    ensures Limit(a, n) + Limit(b, n) <= Limit(Choice(a, b), n)
  {
    var x, y := Pow(n, Quantifiers(a)), Pow(n, Quantifiers(b));
    PowSum(n, Quantifiers(a), Quantifiers(b));
    PowPositive(n, Quantifiers(a));
    PowPositive(n, Quantifiers(b));
    Weakens(Branches(a), x, y);
    Weakens(Branches(b), y, x);
    assert (Branches(a) + Branches(b)) * (x * y) == Branches(a) * (x * y) + Branches(b) * (x * y);
    assert y * x == x * y;
  }

  lemma Weakens(a: nat, x: nat, y: nat)
    requires y >= 1
    ensures a * x <= a * (x * y)
  {
    assert x <= x * y;
  }

  lemma {:induction false} ProductGrows(a: nat, b: nat, m: nat)
    requires a <= b
    ensures a * m <= b * m
  {
    assert b * m == a * m + (b - a) * m;
  }

  lemma {:induction false} TriesBound(r: Regex, s: Text, i: nat, back: bool, e: Engine)
    requires i <= |s| && IsFlat(r)
    ensures |Tries(r, s, i, back, e)| <= Limit(r, |s| + 2)
    ensures Hits(Tries(r, s, i, back, e)) <= Limit(r, |s| + 1)
    decreases r, 1
  {
    hide Continue, Repeats, Pow, Hits, Branches, Limit, Looked;
    LimitPositive(r, |s| + 2);
    LimitPositive(r, |s| + 1);
    match r {
      case Empty => OneHit(i);
      case Assert(_) => OneHit(i);
      case Atom(_) =>
        OneHit(i + 1);
        OneHit(if i > 0 then i - 1 else 0);
      case Parens(o, b) =>
        TriesBound(b, s, i, back, e);
        LimitInside(o, b, |s| + 2);
        LimitInside(o, b, |s| + 1);
      case Look(behind, negative, b) =>
        TriesBound(b, s, i, behind, e);
        LookedBound(Tries(b, s, i, behind, e), i, negative);
        LimitLook(behind, negative, b, |s| + 2);
      case Repeat(x, q) =>
        var (min, max) := Limits(q.bound);
        RepeatsBound(x, min, max, q.lazy, s, i, back, e);
        LimitRepeat(x, q, |s| + 2);
        LimitRepeat(x, q, |s| + 1);
      case Sequence(a, b) =>
        if back {
          BoundsSequence(r, b, a, s, i, back, e);
        } else {
          BoundsSequence(r, a, b, s, i, back, e);
        }
        LimitSequence(a, b, |s| + 2);
        LimitSequence(a, b, |s| + 1);
      case Choice(a, b) =>
        TriesBound(a, s, i, back, e);
        TriesBound(b, s, i, back, e);
        HitsConcat(Tries(a, s, i, back, e), Tries(b, s, i, back, e));
        LimitChoice(a, b, |s| + 2);
        LimitChoice(a, b, |s| + 1);
    }
  }

  lemma LimitInside(o: Opening, b: Regex, n: nat)
    ensures Limit(Parens(o, b), n) == Limit(b, n)
  {
    hide Pow;
  }

  lemma LimitLook(behind: bool, negative: bool, b: Regex, n: nat)
    ensures Limit(Look(behind, negative, b), n) == Limit(b, n)
  {
    hide Pow;
  }

  lemma {:induction false} StraightBranches(x: Regex)
    requires !HasChoice(x)
    ensures Branches(x) == 1
  {
    match x {
      case Parens(_, b) => StraightBranches(b);
      case Look(_, _, b) => StraightBranches(b);
      case Repeat(y, _) => StraightBranches(y);
      case Sequence(a, b) =>
        StraightBranches(a);
        StraightBranches(b);
      case _ =>
    }
  }

  lemma LimitRepeat(x: Regex, q: Quantifier, n: nat)
    requires IsStraight(x)
    ensures Limit(Repeat(x, q), n) == n
  {
    StraightBranches(x);
    assert Pow(n, 1) == n * Pow(n, 0);
  }

  lemma {:induction false} BoundsSequence(r: Regex, a: Regex, b: Regex, s: Text, i: nat, back: bool, e: Engine)
    requires r == Sequence(a, b) || r == Sequence(b, a)
    requires i <= |s| && IsFlat(a) && IsFlat(b)
    ensures var ts := Continue(b, s, i, Tries(a, s, i, back, e), back, e);
            && |ts| <= Limit(a, |s| + 2) * Limit(b, |s| + 2)
            && Hits(ts) <= Limit(a, |s| + 1) * Limit(b, |s| + 1)
    decreases r, 0
  {
    hide Continue, Tries, Limit, Hits;
    var m, h := Limit(b, |s| + 2), Limit(b, |s| + 1);
    var ts := Tries(a, s, i, back, e);
    TriesBound(a, s, i, back, e);
    forall j: nat | j <= |s| ensures |Tries(b, s, j, back, e)| <= m && Hits(Tries(b, s, j, back, e)) <= h {
      TriesBound(b, s, j, back, e);
    }
    LimitPositive(b, |s| + 2);
    ContinueBound(b, s, i, ts, back, e, m, h);
    ProductGrows(|ts|, Limit(a, |s| + 2), m);
    ProductGrows(Hits(ts), Limit(a, |s| + 1), h);
  }

  /**
   * On an input of length n, an accepted pattern with q quantifiers and B branch selections is
   * tried from any start in at most B (n + 2)^q ways, at most B (n + 1)^q of which match.
   */
  lemma AcceptedIsPolynomial(r: Regex, chars: Probe, s: Text, i: nat, back: bool, e: Engine)
    requires IsPattern(r) && !IsTooSlow(Source(r), chars) && i <= |s|
    ensures |Tries(r, s, i, back, e)| <= Branches(r) * Pow(|s| + 2, Quantifiers(r))
    ensures Hits(Tries(r, s, i, back, e)) <= Branches(r) * Pow(|s| + 1, Quantifiers(r))
  {
    hide Tries, Hits, Pow, Branches, IsPattern, Source, IsTooSlow;
    AcceptedIsFlat(r, chars);
    TriesBound(r, s, i, back, e);
  }
}
