// The check that rejects approval patterns which may backtrack badly: one scan of the pattern's
// source text with a stack of frames, one for every open group.

module ApprovalScan {
  import opened Results
  import opened Texts
  import opened ApprovalSyntax

  type Ascii = c: nat | c < 128

  /** The ASCII characters that an atom matches, and whether it matches no others. */
  datatype AtomChars = AtomChars(ascii: set<Ascii>, asciiOnly: bool)

  const UNKNOWN: AtomChars := AtomChars(set k: Ascii | 0 <= k < 128, false)

  /** What matching each ASCII character against an atom's source finds; RegExp is not modelled. */
  type Probe = Text -> AtomChars

  predicate Overlap(left: AtomChars, right: AtomChars) {
    left.ascii * right.ascii != {} || (!left.asciiOnly && !right.asciiOnly)
  }

  predicate Overlaps(left: Option<AtomChars>, right: Option<AtomChars>) {
    left.Some? && right.Some? && Overlap(left.value, right.value)
  }

  function OrElse<T>(a: Option<T>, b: Option<T>): Option<T> {
    if a.Some? then a else b
  }

  /** `text.slice(from, to)`. */
  function Slice(s: Text, from: nat, to: nat): Text {
    var end := if to <= |s| then to else |s|;
    if from <= end then s[from..end] else []
  }

  // ---------------------------------------------------------------------------
  // Where tokens end
  // ---------------------------------------------------------------------------

  function EscapeEnd(p: Text, i: nat): (e: nat)
    ensures i + 2 <= e
  {
    if i + 3 < |p| && p[i + 1] == SMALL_X && IsHex(p[i + 2]) && IsHex(p[i + 3]) then i + 4
    else if i + 5 < |p| && p[i + 1] == LETTER_U
            && IsHex(p[i + 2]) && IsHex(p[i + 3]) && IsHex(p[i + 4]) && IsHex(p[i + 5]) then i + 6
    else i + 2
  }

  /** The offset behind the bracket that closes a class whose body is read from `i`. */
  function ClassEnd(p: Text, i: nat): (e: nat)
    ensures i <= e
    decreases |p| - i
  {
    if i >= |p| then i
    else if p[i] == BACKSLASH then ClassEnd(p, i + 2)
    else if p[i] == RBRACKET then i + 1
    else ClassEnd(p, i + 1)
  }

  function DigitsEnd(p: Text, i: nat): (e: nat)
    ensures i <= e && (i <= |p| ==> e <= |p|)
    decreases |p| - i
  {
    if i < |p| && IsDigit(p[i]) then DigitsEnd(p, i + 1) else i
  }

  /** The offset behind `{n}`, `{n,}` or `{n,m}` at `i`. */
  function BraceEnd(p: Text, i: nat): (r: Option<nat>)
    ensures r.Some? ==> i < r.value <= |p|
  {
    var d := DigitsEnd(p, i + 1);
    if d == i + 1 || d >= |p| then None
    else if p[d] == RBRACE then Some(d + 1)
    else if p[d] != COMMA then None
    else
      var e := DigitsEnd(p, d + 1);
      if e < |p| && p[e] == RBRACE then Some(e + 1) else None
  }

  function LazyEnd(p: Text, i: nat): nat {
    if i < |p| && p[i] == QMARK then i + 1 else i
  }

  /** The offset behind the quantifier at `i`, if there is one. */
  function QuantifierEnd(p: Text, i: nat): (r: Option<nat>)
    ensures r.Some? ==> i < r.value
  {
    if i >= |p| then None
    else if p[i] == STAR || p[i] == PLUS || p[i] == QMARK then Some(LazyEnd(p, i + 1))
    else if p[i] != LBRACE then None
    else match BraceEnd(p, i) case None => None case Some(e) => Some(LazyEnd(p, e))
  }

  function IndexOf(p: Text, i: nat, c: Code): (r: Option<nat>)
    ensures r.Some? ==> i <= r.value < |p|
    decreases |p| - i
  {
    if i >= |p| then None else if p[i] == c then Some(i) else IndexOf(p, i + 1, c)
  }

  predicate IsAt(p: Text, i: nat, c: Code) {
    i < |p| && p[i] == c
  }

  /** Where the body of the group opened at `i` starts, and whether the group is an assertion. */
  function GroupOpening(p: Text, i: nat): (r: (nat, bool))
    ensures i < r.0
  {
    if !IsAt(p, i + 1, QMARK) then (i + 1, false)
    else if IsAt(p, i + 2, COLON) then (i + 3, false)
    else if IsAt(p, i + 2, EQUALS) || IsAt(p, i + 2, BANG) then (i + 3, true)
    else if IsAt(p, i + 2, LESS) then
      if IsAt(p, i + 3, EQUALS) || IsAt(p, i + 3, BANG) then (i + 4, true)
      else match IndexOf(p, i + 3, GREATER) case Some(e) => (e + 1, false) case None => (i + 1, false)
    else (i + 1, false)
  }

  // ---------------------------------------------------------------------------
  // Alternatives of a group
  // ---------------------------------------------------------------------------

  /** The alternatives of `s`, the first of which starts at `start`, read from `i` on. */
  function Split(s: Text, start: nat, i: nat, depth: int, inClass: bool): (r: seq<Text>)
    decreases |s| - i
  {
    if i >= |s| then [Slice(s, start, |s|)]
    else if s[i] == BACKSLASH then Split(s, start, i + 2, depth, inClass)
    else if s[i] == LBRACKET then Split(s, start, i + 1, depth, true)
    else if s[i] == RBRACKET && inClass then Split(s, start, i + 1, depth, false)
    else if !inClass && s[i] == LPAREN then Split(s, start, i + 1, depth + 1, inClass)
    else if !inClass && s[i] == RPAREN then Split(s, start, i + 1, depth - 1, inClass)
    else if !inClass && depth == 0 && s[i] == PIPE then
      [Slice(s, start, i)] + Split(s, i + 1, i + 1, depth, inClass)
    else Split(s, start, i + 1, depth, inClass)
  }

  datatype Shape = Shape(domains: seq<AtomChars>, nullable: bool)

  /** The quantifier `q` asks for at least one repetition, as far as its text shows. */
  predicate AsksForOne(q: Text) {
    q == [PLUS] || (|q| >= 2 && q[0] == LBRACE && 0x31 <= q[1] <= 0x39)
  }

  function DomainsOr(domains: seq<AtomChars>): seq<AtomChars> {
    if domains != [] then domains else [UNKNOWN]
  }

  function AtomEnd(b: Text, i: nat): (e: nat)
    requires i < |b|
    ensures i < e
  {
    if b[i] == BACKSLASH then EscapeEnd(b, i)
    else if b[i] == LBRACKET then ClassEnd(b, i + 1)
    else i + 1
  }

  predicate StopsShape(c: Code) {
    c == LPAREN || StartsQuantifier(c)
  }

  /** The characters of the branch's atoms up to its first group, and whether all may be skipped. */
  function ShapeFrom(b: Text, i: nat, domains: seq<AtomChars>, nullable: bool, chars: Probe): Shape
    decreases |b| - i
  {
    if i >= |b| then if domains != [] then Shape(domains, nullable) else Shape([UNKNOWN], true)
    else if b[i] == CARET || b[i] == DOLLAR then ShapeFrom(b, i + 1, domains, nullable, chars)
    else if b[i] == BACKSLASH && (IsAt(b, i + 1, SMALL_B) || IsAt(b, i + 1, LARGE_B)) then
      ShapeFrom(b, i + 2, domains, nullable, chars)
    else if StopsShape(b[i]) then Shape(DomainsOr(domains), true)
    else
      var end := AtomEnd(b, i);
      var all := domains + [chars(Slice(b, i, end))];
      match QuantifierEnd(b, end)
      case Some(e) => ShapeFrom(b, e, all, nullable && !AsksForOne(Slice(b, end, e)), chars)
      case None => ShapeFrom(b, end, all, false, chars)
  }

  predicate PrefixAmbiguous(left: Shape, right: Shape) {
    || left.nullable || right.nullable
    || forall i :: 0 <= i < |left.domains| && i < |right.domains| ==> Overlap(left.domains[i], right.domains[i])
  }

  function AmbiguousWith(s: Shape, ss: seq<Shape>): nat {
    if ss == [] then 0 else (if PrefixAmbiguous(s, ss[0]) then 1 else 0) + AmbiguousWith(s, ss[1..])
  }

  function AmbiguousPairs(ss: seq<Shape>): nat {
    if ss == [] then 0 else AmbiguousWith(ss[0], ss[1..]) + AmbiguousPairs(ss[1..])
  }

  function Shapes(bs: seq<Text>, chars: Probe): seq<Shape> {
    if bs == [] then [] else [ShapeFrom(bs[0], 0, [], true, chars)] + Shapes(bs[1..], chars)
  }

  /** One more than the number of pairs of alternatives that may be skipped or whose leading atoms all overlap. */
  function AlternativeFactor(source: Text, chars: Probe): (n: nat)
    ensures n >= 1
  {
    1 + AmbiguousPairs(Shapes(Split(source, 0, 0, 0, false), chars))
  }

  // ---------------------------------------------------------------------------
  // Frames
  // ---------------------------------------------------------------------------

  datatype Frame = Frame(
    bodyStart: nat, assertion: bool,
    hasQuantifier: bool, hasAlternative: bool, directAlternative: bool, branchStart: bool, hasAtom: bool,
    startsQuantified: Option<AtomChars>, endsQuantified: Option<AtomChars>, lastQuantified: Option<AtomChars>,
    firstChars: Option<AtomChars>, lastChars: Option<AtomChars>)

  function NewFrame(bodyStart: nat, assertion: bool): Frame {
    Frame(bodyStart, assertion, false, false, false, true, false, None, None, None, None, None)
  }

  type Frames = fs: seq<Frame> | |fs| >= 1 witness [NewFrame(0, false)]

  datatype State = State(frames: Frames, budget: nat)

  const START: State := State([NewFrame(0, false)], 1)
  const MAX_BUDGET: nat := 1024

  function WithQuantifier(fs: seq<Frame>): (r: seq<Frame>)
    ensures |r| == |fs| && forall k :: 0 <= k < |fs| ==> r[k] == fs[k].(hasQuantifier := true)
  {
    if fs == [] then [] else [fs[0].(hasQuantifier := true)] + WithQuantifier(fs[1..])
  }

  function WithAlternative(fs: seq<Frame>): (r: seq<Frame>)
    ensures |r| == |fs| && forall k :: 0 <= k < |fs| ==> r[k] == fs[k].(hasAlternative := true)
  {
    if fs == [] then [] else [fs[0].(hasAlternative := true)] + WithAlternative(fs[1..])
  }

  /** The top frame after an atom. */
  function MarkedFrame(f: Frame, quantified: bool, first: AtomChars, last: AtomChars): Frame {
    f.(firstChars := if f.branchStart then OrElse(f.firstChars, Some(first)) else f.firstChars,
       startsQuantified := if f.branchStart && quantified then OrElse(f.startsQuantified, Some(first))
                           else f.startsQuantified,
       branchStart := false, hasAtom := true, lastChars := Some(last),
       lastQuantified := if quantified then Some(last) else None)
  }

  /** The frames after an atom; none if it is quantified and may overlap a quantified atom in front of it. */
  function MarkAtom(fs: Frames, quantified: bool, first: AtomChars, last: AtomChars): (r: Option<Frames>)
    ensures r.Some? ==> |r.value| == |fs|
  {
    var top := |fs| - 1;
    if quantified && Overlaps(fs[top].lastQuantified, Some(first)) then None
    else
      var marked := fs[top := MarkedFrame(fs[top], quantified, first, last)];
      Some(if quantified then WithQuantifier(marked) else marked)
  }

  function MarkBar(fs: Frames): (r: Frames)
    ensures |r| == |fs|
  {
    var all := WithAlternative(fs);
    var top := |all| - 1;
    all[top := all[top].(directAlternative := true,
                         endsQuantified := OrElse(all[top].endsQuantified, all[top].lastQuantified),
                         lastQuantified := None, branchStart := true)]
  }

  function JoinedParent(parent: Frame, group: Frame, first: AtomChars, last: AtomChars): Frame {
    parent.(firstChars := if parent.branchStart then OrElse(parent.firstChars, Some(first)) else parent.firstChars,
            startsQuantified := if parent.branchStart then OrElse(parent.startsQuantified, group.startsQuantified)
                                else parent.startsQuantified,
            branchStart := false, hasAtom := true, lastChars := Some(last), lastQuantified := group.endsQuantified,
            hasQuantifier := parent.hasQuantifier || group.hasQuantifier,
            hasAlternative := parent.hasAlternative || group.hasAlternative)
  }

  function CharsOr(group: Frame, chars: Option<AtomChars>): AtomChars {
    if group.hasAlternative || chars.None? then UNKNOWN else chars.value
  }

  /** The frames below a closed group that is no assertion. */
  function JoinGroup(fs: Frames, group: Frame, quantified: bool): (r: Option<Frames>)
    ensures r.Some? ==> |r.value| == |fs|
  {
    var top := |fs| - 1;
    var first, last := CharsOr(group, group.firstChars), CharsOr(group, group.lastChars);
    if quantified then MarkAtom(fs, true, first, last)
    else if !group.hasAtom then Some(fs)
    else if Overlaps(fs[top].lastQuantified, group.startsQuantified) then None
    else Some(fs[top := JoinedParent(fs[top], group, first, last)])
  }

  // ---------------------------------------------------------------------------
  // The scan
  // ---------------------------------------------------------------------------

  datatype Step = Slow | Go(next: nat, state: State)

  function AtomStep(p: Text, i: nat, end: nat, st: State, chars: Probe): (r: Step)
    requires i < end
    ensures r.Go? ==> i < r.next
  {
    var q := QuantifierEnd(p, end);
    var cs := chars(Slice(p, i, end));
    match MarkAtom(st.frames, q.Some?, cs, cs)
    case None => Slow
    case Some(fs) => Go(if q.Some? then q.value else end, st.(frames := fs))
  }

  function CloseStep(p: Text, i: nat, st: State, chars: Probe): (r: Step)
    requires i < |p| && |st.frames| > 1
    ensures r.Go? ==> i < r.next
  {
    var open := st.frames[|st.frames| - 1];
    var rest: Frames := st.frames[..|st.frames| - 1];
    var budget := if open.directAlternative then st.budget * AlternativeFactor(Slice(p, open.bodyStart, i), chars)
                  else st.budget;
    if open.directAlternative && budget > MAX_BUDGET then Slow
    else
      var group := open.(endsQuantified := OrElse(open.endsQuantified, open.lastQuantified));
      var q := QuantifierEnd(p, i + 1);
      var next := if q.Some? then q.value else i + 1;
      if q.Some? && (group.hasQuantifier || group.hasAlternative) then Slow
      else if group.assertion then Go(next, State(rest, budget))
      else match JoinGroup(rest, group, q.Some?) case None => Slow case Some(fs) => Go(next, State(fs, budget))
  }

  /** One round of the scan: the token at `i`. */
  function StepAt(p: Text, i: nat, st: State, chars: Probe): (r: Step)
    requires i < |p|
    ensures r.Go? ==> i < r.next
  {
    var c := p[i];
    if c == BACKSLASH then
      if IsAt(p, i + 1, SMALL_B) || IsAt(p, i + 1, LARGE_B) then Go(EscapeEnd(p, i), st)
      else AtomStep(p, i, EscapeEnd(p, i), st, chars)
    else if c == LBRACKET then AtomStep(p, i, ClassEnd(p, i + 1), st, chars)
    else if c == LPAREN then
      var (body, assertion) := GroupOpening(p, i);
      Go(body, st.(frames := st.frames + [NewFrame(body, assertion)]))
    else if c == PIPE then Go(i + 1, st.(frames := MarkBar(st.frames)))
    else if c == RPAREN && |st.frames| > 1 then CloseStep(p, i, st, chars)
    else if c == CARET || c == DOLLAR || c == RPAREN then Go(i + 1, st)
    else AtomStep(p, i, i + 1, st, chars)
  }

  predicate SlowFrom(p: Text, i: nat, st: State, chars: Probe)
    decreases |p| - i
  {
    if i >= |p| then false
    else match StepAt(p, i, st, chars) case Slow => true case Go(n, st') => SlowFrom(p, n, st', chars)
  }

  /** `<name>` at `i`. */
  predicate IsNameAt(p: Text, i: nat) {
    IsAt(p, i, LESS) && i + 1 < |p| && p[i + 1] != GREATER && IndexOf(p, i + 1, GREATER).Some?
  }

  /** A reference to a group, as far as the text shows. */
  predicate IsReferenceAt(p: Text, i: nat) {
    && i + 1 < |p| && p[i] == BACKSLASH
    && (0x31 <= p[i + 1] <= 0x39 || (p[i + 1] == SMALL_K && IsNameAt(p, i + 2)))
  }

  predicate HasReference(p: Text, i: nat)
    decreases |p| - i
  {
    i < |p| && (IsReferenceAt(p, i) || HasReference(p, i + 1))
  }

  /** The patterns that are rejected. */
  predicate IsTooSlow(p: Text, chars: Probe) {
    HasReference(p, 0) || SlowFrom(p, 0, START, chars)
  }

  // ---------------------------------------------------------------------------
  // The loops
  // ---------------------------------------------------------------------------

  method FindReference(p: Text) returns (found: bool)
    ensures found == HasReference(p, 0)
  {
    var i := 0;
    while i < |p|
      invariant i <= |p| && HasReference(p, 0) == HasReference(p, i)
    {
      if IsReferenceAt(p, i) {
        return true;
      }
      i := i + 1;
    }
    return false;
  }

  method ScanClass(p: Text, start: nat) returns (end: nat)
    ensures end == ClassEnd(p, start)
  {
    end := start;
    while end < |p|
      invariant ClassEnd(p, start) == ClassEnd(p, end)
      decreases |p| - end
    {
      if p[end] == BACKSLASH {
        end := end + 1;
      } else if p[end] == RBRACKET {
        end := end + 1;
        break;
      }
      end := end + 1;
    }
  }

  method SplitAlternatives(source: Text) returns (branches: seq<Text>)
    ensures branches == Split(source, 0, 0, 0, false)
  {
    branches := [];
    var start, depth, inClass, i := 0, 0, false, 0;
    while i < |source|
      invariant branches + Split(source, start, i, depth, inClass) == Split(source, 0, 0, 0, false)
      decreases |source| - i
    {
      var c := source[i];
      if c == BACKSLASH {
        i := i + 2;
        continue;
      }
      if c == LBRACKET {
        inClass := true;
      } else if c == RBRACKET && inClass {
        inClass := false;
      } else if !inClass && c == LPAREN {
        depth := depth + 1;
      } else if !inClass && c == RPAREN {
        depth := depth - 1;
      } else if !inClass && depth == 0 && c == PIPE {
        assert branches + ([Slice(source, start, i)] + Split(source, i + 1, i + 1, depth, inClass)) ==
               branches + [Slice(source, start, i)] + Split(source, i + 1, i + 1, depth, inClass);
        branches := branches + [Slice(source, start, i)];
        start := i + 1;
      }
      i := i + 1;
    }
    branches := branches + [Slice(source, start, |source|)];
  }

  method BranchShape(branch: Text, chars: Probe) returns (r: Shape)
    ensures r == ShapeFrom(branch, 0, [], true, chars)
  {
    hide EscapeEnd, ClassEnd, QuantifierEnd, IsAt;
    var domains: seq<AtomChars> := [];
    var nullable, i := true, 0;
    while i < |branch|
      invariant ShapeFrom(branch, 0, [], true, chars) == ShapeFrom(branch, i, domains, nullable, chars)
      decreases |branch| - i
    {
      var c := branch[i];
      if c == CARET || c == DOLLAR {
        i := i + 1;
        continue;
      }
      var end := i + 1;
      if c == BACKSLASH {
        if IsAt(branch, i + 1, SMALL_B) || IsAt(branch, i + 1, LARGE_B) {
          i := i + 2;
          continue;
        }
        end := EscapeEnd(branch, i);
      } else if c == LBRACKET {
        end := ScanClass(branch, i + 1);
      } else if StopsShape(c) {
        return Shape(DomainsOr(domains), true);
      }
      domains := domains + [chars(Slice(branch, i, end))];
      var quantifier := QuantifierEnd(branch, end);
      match quantifier {
        case Some(e) =>
          if AsksForOne(Slice(branch, end, e)) {
            nullable := false;
          }
          i := e;
        case None =>
          nullable := false;
          i := end;
      }
    }
    return if domains != [] then Shape(domains, nullable) else Shape([UNKNOWN], true);
  }

  method ArePrefixAmbiguous(left: Shape, right: Shape) returns (r: bool)
    ensures r == PrefixAmbiguous(left, right)
  {
    if left.nullable || right.nullable {
      return true;
    }
    var length := if |left.domains| <= |right.domains| then |left.domains| else |right.domains|;
    for i := 0 to length
      invariant forall k :: 0 <= k < i ==> Overlap(left.domains[k], right.domains[k])
    {
      if !Overlap(left.domains[i], right.domains[i]) {
        return false;
      }
    }
    return true;
  }

  method AlternativeShapes(texts: seq<Text>, chars: Probe) returns (branches: seq<Shape>)
    ensures branches == Shapes(texts, chars)
  {
    hide ShapeFrom;
    branches := [];
    for k := 0 to |texts|
      invariant branches + Shapes(texts[k..], chars) == Shapes(texts, chars)
    {
      var shape := BranchShape(texts[k], chars);
      assert texts[k..][1..] == texts[k + 1..];
      branches := branches + [shape];
    }
  }

  method CountOverlaps(branches: seq<Shape>) returns (overlaps: nat)
    ensures overlaps == AmbiguousPairs(branches)
  {
    hide PrefixAmbiguous;
    overlaps := 0;
    for i := 0 to |branches|
      invariant overlaps + AmbiguousPairs(branches[i..]) == AmbiguousPairs(branches)
    {
      assert branches[i..][1..] == branches[i + 1..];
      ghost var before := overlaps;
      for j := i + 1 to |branches|
        invariant overlaps + AmbiguousWith(branches[i], branches[j..]) ==
                  before + AmbiguousWith(branches[i], branches[i + 1..])
      {
        assert branches[j..][1..] == branches[j + 1..];
        var ambiguous := ArePrefixAmbiguous(branches[i], branches[j]);
        if ambiguous {
          overlaps := overlaps + 1;
        }
      }
    }
  }

  method CountAlternatives(source: Text, chars: Probe) returns (n: nat)
    ensures n == AlternativeFactor(source, chars)
  {
    hide Split, Shapes, AmbiguousPairs;
    var texts := SplitAlternatives(source);
    var branches := AlternativeShapes(texts, chars);
    var overlaps := CountOverlaps(branches);
    return 1 + overlaps;
  }

  method MarkAtomOn(frames: Frames, quantified: bool, first: AtomChars, last: AtomChars)
    returns (slow: bool, out: Frames)
    ensures slow == MarkAtom(frames, quantified, first, last).None?
    ensures !slow ==> out == MarkAtom(frames, quantified, first, last).value
  {
    hide CharsOr, Overlaps;
    out := frames;
    var top := |frames| - 1;
    var frame := frames[top];
    if quantified && Overlaps(frame.lastQuantified, Some(first)) {
      return true, out;
    }
    if frame.branchStart {
      frame := frame.(firstChars := OrElse(frame.firstChars, Some(first)));
      if quantified {
        frame := frame.(startsQuantified := OrElse(frame.startsQuantified, Some(first)));
      }
    }
    frame := frame.(branchStart := false, hasAtom := true, lastChars := Some(last),
                    lastQuantified := if quantified then Some(last) else None);
    assert frame == MarkedFrame(frames[top], quantified, first, last);
    hide MarkedFrame, OrElse, WithQuantifier;
    out := out[top := frame];
    if quantified {
      ghost var marked := out;
      for k := 0 to |out|
        invariant |out| == |marked|
        invariant forall j :: 0 <= j < |out| ==>
                    out[j] == if j < k then marked[j].(hasQuantifier := true) else marked[j]
      {
        out := out[k := out[k].(hasQuantifier := true)];
      }
      assert out == WithQuantifier(marked);
    }
    return false, out;
  }

  /** The scan; true means that the pattern is rejected. */
  method ApprovalPatternTooSlow(pattern: Text, chars: Probe) returns (slow: bool)
    ensures slow == IsTooSlow(pattern, chars)
  {
    hide EscapeEnd, ClassEnd, QuantifierEnd, IsAt, GroupOpening, AlternativeFactor, MarkAtom, JoinedParent, CharsOr;
    var references := FindReference(pattern);
    if references {
      return true;
    }
    var frames: Frames, budget: nat, i: nat := [NewFrame(0, false)], 1, 0;
    while i < |pattern|
      invariant SlowFrom(pattern, i, State(frames, budget), chars) == SlowFrom(pattern, 0, START, chars)
      decreases |pattern| - i
    {
      var c := pattern[i];
      if c == BACKSLASH {
        var end := EscapeEnd(pattern, i);
        if IsAt(pattern, i + 1, SMALL_B) || IsAt(pattern, i + 1, LARGE_B) {
          i := end;
          continue;
        }
        var quantifiedEnd := QuantifierEnd(pattern, end);
        var cs := chars(Slice(pattern, i, end));
        var rejected: bool;
        rejected, frames := MarkAtomOn(frames, quantifiedEnd.Some?, cs, cs);
        if rejected {
          return true;
        }
        i := if quantifiedEnd.Some? then quantifiedEnd.value else end;
        continue;
      }
      if c == LBRACKET {
        var end := ScanClass(pattern, i + 1);
        var quantifiedEnd := QuantifierEnd(pattern, end);
        var cs := chars(Slice(pattern, i, end));
        var rejected: bool;
        rejected, frames := MarkAtomOn(frames, quantifiedEnd.Some?, cs, cs);
        if rejected {
          return true;
        }
        i := if quantifiedEnd.Some? then quantifiedEnd.value else end;
        continue;
      }
      if c == LPAREN {
        var (prefixEnd, assertion) := GroupOpening(pattern, i);
        frames := frames + [NewFrame(prefixEnd, assertion)];
        i := prefixEnd;
        continue;
      }
      if c == PIPE {
        frames := MarkBar(frames);
        i := i + 1;
        continue;
      }
      if c == RPAREN && |frames| > 1 {
        var group := frames[|frames| - 1];
        frames := frames[..|frames| - 1];
        if group.directAlternative {
          var factor := CountAlternatives(Slice(pattern, group.bodyStart, i), chars);
          budget := budget * factor;
          if budget > MAX_BUDGET {
            return true;
          }
        }
        group := group.(endsQuantified := OrElse(group.endsQuantified, group.lastQuantified));
        var quantifiedEnd := QuantifierEnd(pattern, i + 1);
        var quantified := quantifiedEnd.Some?;
        if quantified && (group.hasQuantifier || group.hasAlternative) {
          return true;
        }
        if !group.assertion {
          var top := |frames| - 1;
          var parent := frames[top];
          var first, last := CharsOr(group, group.firstChars), CharsOr(group, group.lastChars);
          if quantified {
            var rejected: bool;
            rejected, frames := MarkAtomOn(frames, true, first, last);
            if rejected {
              return true;
            }
          } else if group.hasAtom {
            if Overlaps(parent.lastQuantified, group.startsQuantified) {
              return true;
            }
            frames := frames[top := JoinedParent(parent, group, first, last)];
          }
        }
        i := if quantifiedEnd.Some? then quantifiedEnd.value else i + 1;
        continue;
      }
      if c == CARET || c == DOLLAR || c == RPAREN {
        i := i + 1;
        continue;
      }
      var quantifiedEnd := QuantifierEnd(pattern, i + 1);
      var cs := chars(Slice(pattern, i, i + 1));
      var rejected: bool;
      rejected, frames := MarkAtomOn(frames, quantifiedEnd.Some?, cs, cs);
      if rejected {
        return true;
      }
      i := if quantifiedEnd.Some? then quantifiedEnd.value else i + 1;
    }
    return false;
  }
}
