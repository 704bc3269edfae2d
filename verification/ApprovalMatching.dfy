// What a backtracking matcher tries (ECMA-262, section 22.2.2), and how many tries an accepted
// pattern costs from one start.

module ApprovalMatching {
  import opened Results
  import opened Texts
  import opened ApprovalSyntax

  /** How characters are compared and which of them a class, the dot or a class escape matches. */
  datatype Engine = Engine(fold: Code -> Code, inSet: (Text, Code) -> bool)

  /** The end of one way through the pattern: a failure, or a match up to `end`. */
  datatype Try = Miss | Hit(end: nat)

  predicate IsWordAt(s: Text, i: int) {
    0 <= i < |s| && IsWordChar(s[i])
  }

  predicate Holds(a: Anchor, s: Text, i: nat) {
    match a
    case InputStart => i == 0
    case InputEnd => i == |s|
    case WordBoundary => IsWordAt(s, i - 1) != IsWordAt(s, i)
    case NoWordBoundary => IsWordAt(s, i - 1) == IsWordAt(s, i)
  }

  /** The character that an atom stands for, if it is a character or an escaped syntax character. */
  function LiteralOf(t: Text): Option<Code> {
    if |t| == 1 && t[0] != DOT then Some(t[0])
    else if |t| == 2 && t[0] == BACKSLASH && IsSyntaxChar(t[1]) then Some(t[1])
    else None
  }

  predicate CharMatches(t: Text, c: Code, e: Engine) {
    match LiteralOf(t) case Some(l) => e.fold(l) == e.fold(c) case None => e.inSet(t, c)
  }

  /** The least and, if there is one, the greatest number of repetitions. */
  function Limits(b: Bound): (nat, Option<nat>) {
    match b
    case Star => (0, None)
    case Plus => (1, None)
    case Optional => (0, Some(1))
    case Exactly(low) => (Decimal(low), Some(Decimal(low)))
    case AtLeast(low) => (Decimal(low), None)
    case Between(low, high) => (Decimal(low), Some(Decimal(high)))
  }

  /** The characters left in the direction of the match. */
  function Room(s: Text, i: nat, back: bool): nat
    requires i <= |s|
  {
    if back then i else |s| - i
  }

  /** A match that starts at `i` ends in the direction of the match. */
  predicate Onward(t: Try, s: Text, i: nat, back: bool) {
    t.Hit? ==> t.end <= |s| && (if back then t.end <= i else i <= t.end)
  }

  predicate AllOnward(ts: seq<Try>, s: Text, i: nat, back: bool) {
    forall k :: 0 <= k < |ts| ==> Onward(ts[k], s, i, back)
  }

  function Pred(max: Option<nat>): Option<nat> {
    match max case Some(n) => (if n > 0 then Some(n - 1) else Some(0)) case None => None
  }

  function Misses(ts: seq<Try>): (n: nat)
    ensures n <= |ts|
  {
    if ts == [] || ts[0].Hit? then 0 else 1 + Misses(ts[1..])
  }

  /** What the tries of an assertion's body come to: they end with its first match. */
  function Looked(ts: seq<Try>, i: nat, negative: bool): seq<Try> {
    var n := Misses(ts);
    if n == |ts| then if negative && n > 0 then ts[..n - 1] + [Hit(i)] else ts
    else ts[..n] + [if negative then Miss else Hit(i)]
  }

  /** All ways through the pattern from `i`, in the order in which a backtracking matcher tries them. */
  function Tries(r: Regex, s: Text, i: nat, back: bool, e: Engine): (ts: seq<Try>)
    requires i <= |s|
    ensures AllOnward(ts, s, i, back)
    decreases r, 0, 0, 0, 0, 0
  {
    match r
    case Empty => [Hit(i)]
    case Assert(a) => if Holds(a, s, i) then [Hit(i)] else [Miss]
    case Atom(t) =>
      if back then if i > 0 && CharMatches(t, s[i - 1], e) then [Hit(i - 1)] else [Miss]
      else if i < |s| && CharMatches(t, s[i], e) then [Hit(i + 1)] else [Miss]
    case Parens(_, b) => Tries(b, s, i, back, e)
    case Look(behind, negative, b) =>
      var ts := Tries(b, s, i, behind, e);
      LookedOnward(ts, s, i, behind, back, negative);
      Looked(ts, i, negative)
    case Repeat(x, q) =>
      var (min, max) := Limits(q.bound);
      Repeats(x, min, max, q.lazy, s, i, back, e)
    case Sequence(a, b) =>
      if back then Continue(a, s, i, Tries(b, s, i, back, e), back, e)
      else Continue(b, s, i, Tries(a, s, i, back, e), back, e)
    case Choice(a, b) => Tries(a, s, i, back, e) + Tries(b, s, i, back, e)
  }

  /** The pattern tried behind each of the given tries. */
  function Continue(r: Regex, s: Text, i: nat, ts: seq<Try>, back: bool, e: Engine): (us: seq<Try>)
    requires i <= |s| && AllOnward(ts, s, i, back)
    ensures AllOnward(us, s, i, back)
    decreases r, 0, 0, 0, 1, |ts|
  {
    if ts == [] then []
    else (match ts[0] case Miss => [Miss] case Hit(j) => Tries(r, s, j, back, e))
         + Continue(r, s, i, ts[1..], back, e)
  }

  /** The ways through `min` to `max` repetitions. */
  function Repeats(x: Regex, min: nat, max: Option<nat>, lazy: bool, s: Text, i: nat, back: bool, e: Engine)
    : (ts: seq<Try>)
    requires i <= |s|
    ensures AllOnward(ts, s, i, back)
    decreases x, 1, min, Room(s, i, back), 1, 0
  {
    if max == Some(0) then [Hit(i)]
    else
      var more := Again(x, min, max, lazy, s, i, Tries(x, s, i, back, e), back, e);
      if min > 0 then more else if lazy then [Hit(i)] + more else more + [Hit(i)]
  }

  /** Further repetitions behind each of the given tries; an optional empty one is refused. */
  function Again(x: Regex, min: nat, max: Option<nat>, lazy: bool, s: Text, i: nat, ts: seq<Try>, back: bool, e: Engine)
    : (us: seq<Try>)
    requires i <= |s| && AllOnward(ts, s, i, back)
    ensures AllOnward(us, s, i, back)
    decreases x, 1, min, Room(s, i, back), 0, |ts|
  {
    if ts == [] then []
    else (match ts[0]
          case Miss => [Miss]
          case Hit(j) =>
            if min == 0 && j == i then [Miss]
            else Repeats(x, if min == 0 then 0 else min - 1, Pred(max), lazy, s, j, back, e))
         + Again(x, min, max, lazy, s, i, ts[1..], back, e)
  }

  lemma {:induction false} LookedOnward(ts: seq<Try>, s: Text, i: nat, behind: bool, back: bool, negative: bool)
    requires i <= |s| && AllOnward(ts, s, i, behind)
    ensures AllOnward(Looked(ts, i, negative), s, i, back)
  {
    MissesMiss(ts);
  }

  lemma {:induction false} MissesMiss(ts: seq<Try>)
    ensures forall k :: 0 <= k < Misses(ts) ==> ts[k].Miss?
    ensures Misses(ts) < |ts| ==> ts[Misses(ts)].Hit?
  {
    if ts != [] && ts[0].Miss? {
      MissesMiss(ts[1..]);
      assert forall k :: 1 <= k < |ts| ==> ts[k] == ts[1..][k - 1];
    }
  }
}
