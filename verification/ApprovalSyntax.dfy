// Regular expressions of approval patterns as syntax, printed to their source text
// (ECMA-262, section 22.2.1: atoms, classes, groups, alternation, quantifiers, assertions).

module ApprovalSyntax {
  import opened Texts

  const CARET: Code := 0x5E
  const DOLLAR: Code := 0x24
  const DOT: Code := 0x2E
  const PLUS: Code := 0x2B
  const QMARK: Code := 0x3F
  const LPAREN: Code := 0x28
  const RPAREN: Code := 0x29
  const PIPE: Code := 0x7C
  const LESS: Code := 0x3C
  const GREATER: Code := 0x3E
  const EQUALS: Code := 0x3D
  const BANG: Code := 0x21
  const SMALL_B: Code := 0x62
  const LARGE_B: Code := 0x42
  const SMALL_C: Code := 0x63
  const SMALL_K: Code := 0x6B
  const SMALL_X: Code := 0x78

  datatype Anchor = InputStart | InputEnd | WordBoundary | NoWordBoundary

  /** What opens a group that consumes what its body matches. */
  datatype Opening = Capture | Plain | Named(name: Text)

  datatype Bound = Star | Plus | Optional | Exactly(low: Text) | AtLeast(low: Text) | Between(low: Text, high: Text)

  datatype Quantifier = Quantifier(bound: Bound, lazy: bool)

  /**
   * `Atom` is a character, an escape, a class or the dot and keeps its text. `Look` is a lookahead
   * or, with `behind`, a lookbehind.
   */
  datatype Regex =
    | Empty
    | Assert(anchor: Anchor)
    | Atom(text: Text)
    | Parens(opening: Opening, body: Regex)
    | Look(behind: bool, negative: bool, body: Regex)
    | Repeat(item: Regex, quantifier: Quantifier)
    | Sequence(left: Regex, right: Regex)
    | Choice(left: Regex, right: Regex)

  predicate IsSyntaxChar(c: Code) {
    || c == CARET || c == DOLLAR || c == BACKSLASH || c == DOT || c == STAR || c == PLUS || c == QMARK
    || c == LPAREN || c == RPAREN || c == LBRACKET || c == RBRACKET || c == LBRACE || c == RBRACE || c == PIPE
  }

  predicate IsHex(c: Code) {
    HexValue(c).Some?
  }

  predicate StartsQuantifier(c: Code) {
    c == STAR || c == PLUS || c == QMARK || c == LBRACE
  }

  /** A two-character escape that is no assertion, no reference and no start of a longer escape. */
  predicate IsShortEscape(c: Code) {
    && c != SMALL_B && c != LARGE_B && c != SMALL_C && c != SMALL_K && c != SMALL_X && c != LETTER_U
    && !(0x31 <= c <= 0x39)
  }

  predicate IsEscape(t: Text) {
    && |t| >= 2 && t[0] == BACKSLASH
    && (|| (|t| == 2 && IsShortEscape(t[1]))
        || (|t| == 4 && t[1] == SMALL_X && IsHex(t[2]) && IsHex(t[3]))
        || (|t| == 6 && t[1] == LETTER_U && IsHex(t[2]) && IsHex(t[3]) && IsHex(t[4]) && IsHex(t[5])))
  }

  /** The body of a class up to its bracket: escaped characters, and any others but `]`. */
  predicate IsClassBody(t: Text)
    decreases |t|
  {
    || t == []
    || (t[0] == BACKSLASH && |t| >= 2 && IsClassBody(t[2..]))
    || (t[0] != BACKSLASH && t[0] != RBRACKET && IsClassBody(t[1..]))
  }

  predicate IsClass(t: Text) {
    |t| >= 2 && t[0] == LBRACKET && t[|t| - 1] == RBRACKET && IsClassBody(t[1..|t| - 1])
  }

  predicate IsAtom(t: Text) {
    || (|t| == 1 && (!IsSyntaxChar(t[0]) || t[0] == DOT))
    || IsEscape(t)
    || IsClass(t)
  }

  predicate IsWordChar(c: Code) {
    IsDigit(c) || 0x41 <= c <= 0x5A || 0x61 <= c <= 0x7A || c == 0x5F
  }

  predicate IsNameChar(c: Code) {
    IsWordChar(c) || c == DOLLAR || c >= 0x80
  }

  predicate IsGroupName(t: Text) {
    t != [] && !IsDigit(t[0]) && forall k :: 0 <= k < |t| ==> IsNameChar(t[k])
  }

  function Decimal(ds: Text): nat {
    if ds == [] || !IsDigit(ds[|ds| - 1]) then 0 else Decimal(ds[..|ds| - 1]) * 10 + (ds[|ds| - 1] - 0x30)
  }

  predicate IsBound(b: Bound) {
    match b
    case Exactly(low) => AllDigits(low)
    case AtLeast(low) => AllDigits(low)
    case Between(low, high) => AllDigits(low) && AllDigits(high) && Decimal(low) <= Decimal(high)
    case _ => true
  }

  /** What a quantifier may stand behind. */
  predicate IsRepeatable(r: Regex) {
    r.Atom? || r.Parens?
  }

  /** A choice stands in a group or on its own; quantifiers stand behind atoms and groups. */
  predicate IsPattern(r: Regex) {
    match r
    case Empty => true
    case Assert(_) => true
    case Atom(t) => IsAtom(t)
    case Parens(o, b) => (o.Named? ==> IsGroupName(o.name)) && IsPattern(b)
    case Look(_, _, b) => IsPattern(b)
    case Repeat(x, q) => IsRepeatable(x) && IsPattern(x) && IsBound(q.bound)
    case Sequence(a, b) => !a.Choice? && !b.Choice? && IsPattern(a) && IsPattern(b)
    case Choice(a, b) => IsPattern(a) && IsPattern(b)
  }

  function AnchorText(a: Anchor): Text {
    match a
    case InputStart => [CARET]
    case InputEnd => [DOLLAR]
    case WordBoundary => [BACKSLASH, SMALL_B]
    case NoWordBoundary => [BACKSLASH, LARGE_B]
  }

  function OpeningText(o: Opening): Text {
    match o
    case Capture => [LPAREN]
    case Plain => [LPAREN, QMARK, COLON]
    case Named(name) => [LPAREN, QMARK, LESS] + name + [GREATER]
  }

  function LookText(behind: bool, negative: bool): Text {
    [LPAREN, QMARK] + (if behind then [LESS] else []) + (if negative then [BANG] else [EQUALS])
  }

  function BoundText(b: Bound): Text {
    match b
    case Star => [STAR]
    case Plus => [PLUS]
    case Optional => [QMARK]
    case Exactly(low) => [LBRACE] + low + [RBRACE]
    case AtLeast(low) => [LBRACE] + low + [COMMA, RBRACE]
    case Between(low, high) => [LBRACE] + low + [COMMA] + high + [RBRACE]
  }

  function QuantifierText(q: Quantifier): Text {
    BoundText(q.bound) + (if q.lazy then [QMARK] else [])
  }

  /** The source text of a pattern. */
  function Source(r: Regex): Text {
    match r
    case Empty => []
    case Assert(a) => AnchorText(a)
    case Atom(t) => t
    case Parens(o, b) => OpeningText(o) + Source(b) + [RPAREN]
    case Look(behind, negative, b) => LookText(behind, negative) + Source(b) + [RPAREN]
    case Repeat(x, q) => Source(x) + QuantifierText(q)
    case Sequence(a, b) => Source(a) + Source(b)
    case Choice(a, b) => Source(a) + [PIPE] + Source(b)
  }

  // ---------------------------------------------------------------------------
  // What a pattern contains
  // ---------------------------------------------------------------------------

  /** The number of quantifiers. */
  function Quantifiers(r: Regex): nat {
    match r
    case Parens(_, b) => Quantifiers(b)
    case Look(_, _, b) => Quantifiers(b)
    case Repeat(x, _) => 1 + Quantifiers(x)
    case Sequence(a, b) => Quantifiers(a) + Quantifiers(b)
    case Choice(a, b) => Quantifiers(a) + Quantifiers(b)
    case _ => 0
  }

  predicate HasChoice(r: Regex) {
    match r
    case Parens(_, b) => HasChoice(b)
    case Look(_, _, b) => HasChoice(b)
    case Repeat(x, _) => HasChoice(x)
    case Sequence(a, b) => HasChoice(a) || HasChoice(b)
    case Choice(_, _) => true
    case _ => false
  }

  /** The number of ways to select one alternative of every choice that is met. */
  function Branches(r: Regex): (n: nat)
    ensures n >= 1
  {
    match r
    case Parens(_, b) => Branches(b)
    case Look(_, _, b) => Branches(b)
    case Repeat(x, _) => Branches(x)
    case Sequence(a, b) => PositiveProduct(Branches(a), Branches(b)); Branches(a) * Branches(b)
    case Choice(a, b) => Branches(a) + Branches(b)
    case _ => 1
  }

  lemma PositiveProduct(a: nat, b: nat)
    requires a >= 1 && b >= 1
    ensures a * b >= 1
  {
  }

  /** No quantified item contains a quantifier or a choice. */
  predicate IsFlat(r: Regex) {
    match r
    case Parens(_, b) => IsFlat(b)
    case Look(_, _, b) => IsFlat(b)
    case Repeat(x, _) => Quantifiers(x) == 0 && !HasChoice(x)
    case Sequence(a, b) => IsFlat(a) && IsFlat(b)
    case Choice(a, b) => IsFlat(a) && IsFlat(b)
    case _ => true
  }
}
