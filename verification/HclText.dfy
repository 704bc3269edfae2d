// Assignments in the text of a variables file: where one starts, where its value ends.

module HclText {
  import opened Results
  import opened Texts
  import opened TextLines
  import opened JsonText
  import opened JsoncBlanking
  import opened ConfigScan

  const EQUALS: Code := 0x3D

  /** Behind these, `^` of a multi-line regular expression matches. */
  predicate IsTerminator(c: Code) {
    c == 0x0A || c == 0x0D || c == 0x2028 || c == 0x2029
  }

  predicate IsNameChar(c: Code) {
    IsDigit(c) || 0x41 <= c <= 0x5A || 0x61 <= c <= 0x7A || c == 0x5F || c == 0x2D
  }

  /** A variable's name, which means itself in a regular expression. */
  predicate IsName(n: Text) {
    n != [] && forall k :: 0 <= k < |n| ==> IsNameChar(n[k])
  }

  predicate IsLineStart(s: Text, p: nat) {
    p == 0 || (p <= |s| && IsTerminator(s[p - 1]))
  }

  /** `[ \t]*` from `p`. */
  function SkipBlanks(s: Text, p: nat): (q: nat)
    ensures p <= q && (p <= |s| ==> q <= |s|)
    ensures forall k :: p <= k < q ==> k < |s| && (s[k] == 0x20 || s[k] == 0x09)
    ensures q < |s| ==> s[q] != 0x20 && s[q] != 0x09
    decreases |s| - p
  {
    if p < |s| && (s[p] == 0x20 || s[p] == 0x09) then SkipBlanks(s, p + 1) else p
  }

  predicate Stands(s: Text, q: nat, n: Text) {
    q + |n| <= |s| && s[q..q + |n|] == n
  }

  /** The offset of the `=` that follows the name in an assignment at `p`. */
  function EqualsAt(s: Text, p: nat, n: Text): nat {
    SkipSpace(s, SkipBlanks(s, p) + |n|)
  }

  /** `^[ \t]*name\s*=` matches at `p`. */
  predicate AssignsAt(s: Text, p: nat, n: Text) {
    && IsLineStart(s, p) && Stands(s, SkipBlanks(s, p), n)
    && EqualsAt(s, p, n) < |s| && s[EqualsAt(s, p, n)] == EQUALS
  }

  /** The first assignment of the name at or behind `p`. */
  function FindAssign(s: Text, n: Text, p: nat): (r: Option<nat>)
    ensures r.Some? ==> p <= r.value < |s| && AssignsAt(s, r.value, n)
    ensures r.Some? ==> forall k :: p <= k < r.value ==> !AssignsAt(s, k, n)
    ensures r.None? ==> forall k :: p <= k < |s| ==> !AssignsAt(s, k, n)
    decreases |s| - p
  {
    if p >= |s| then None else if AssignsAt(s, p, n) then Some(p) else FindAssign(s, n, p + 1)
  }

  function IndexOf(s: Text, c: Code, i: nat): (r: nat)
    ensures i <= |s| ==> i <= r <= |s|
    ensures forall k :: i <= k < r && k < |s| ==> s[k] != c
    ensures r < |s| ==> s[r] == c
    decreases |s| - i
  {
    if i >= |s| then |s| else if s[i] == c then i else IndexOf(s, c, i + 1)
  }

  /** Where the value of the assignment at `p` starts: behind `=` and white space, line breaks included. */
  function ValueStart(s: Text, p: nat, n: Text): nat {
    SkipSpace(s, EqualsAt(s, p, n) + 1)
  }

  /** The assignment at `p`: up to its bracket's partner, or else up to the end of its line. */
  function AssignmentAt(s: Text, p: nat, n: Text): Option<Text>
    requires p <= |s|
  {
    var v := ValueStart(s, p, n);
    if v < |s| && (s[v] == LBRACE || s[v] == LBRACKET) then
      match CloseAt(s, v, s[v] == LBRACE, 0)
      case Ok(e) => if p <= e then Some(s[p..e]) else None
      case Err(_) => None
    else
      var e := IndexOf(s, NEWLINE, v);
      if p <= e then Some(TrimEnd(s[p..e])) else None
  }

  function HclAssignment(s: Text, n: Text): Option<Text> {
    match FindAssign(s, n, 0) case None => None case Some(p) => AssignmentAt(s, p, n)
  }

  /** The end of a literal of the form `"(?:[^"\\]|\\.)*"` whose body is read from `i`. */
  function LiteralEnd(a: Text, i: nat): (r: Option<nat>)
    ensures r.Some? ==> i < r.value <= |a|
    decreases |a| - i
  {
    if i >= |a| then None
    else if a[i] == BACKSLASH then
      if i + 1 < |a| && !IsTerminator(a[i + 1]) then LiteralEnd(a, i + 2) else None
    else if a[i] == QUOTE then Some(i + 1)
    else LiteralEnd(a, i + 1)
  }

  /** A literal from `i` on with nothing but white space around it. */
  function LiteralTail(a: Text, i: nat): Option<Text> {
    var q := SkipSpace(a, i);
    if q < |a| && a[q] == QUOTE then
      match LiteralEnd(a, q + 1)
      case Some(f) => if SkipSpace(a, f) == |a| then Some(a[q..f]) else None
      case None => None
    else None
  }

  /** `/=\s*("(?:[^"\\]|\\.)*")\s*$/`, searched from `e`. */
  function FindLiteral(a: Text, e: nat): Option<Text>
    decreases |a| - e
  {
    if e >= |a| then None
    else if a[e] == EQUALS && LiteralTail(a, e + 1).Some? then LiteralTail(a, e + 1)
    else FindLiteral(a, e + 1)
  }

  datatype StringValue = NoString | Value(text: Text) | BadString

  function HclString(s: Text, n: Text): StringValue {
    match HclAssignment(s, n)
    case None => NoString
    case Some(a) =>
      match FindLiteral(a, 0)
      case None => NoString
      case Some(l) =>
        if |l| < 2 then NoString
        else match Decode(l[1..|l| - 1]) case Some(v) => Value(v) case None => BadString
  }

  // ---------------------------------------------------------------------------
  // The loop
  // ---------------------------------------------------------------------------

  /** The bracket's partner, found with a depth and a flag for strings. */
  method ScanBrackets(s: Text, start: nat, obj: bool) returns (r: Option<nat>)
    requires start <= |s|
    ensures r == match CloseAt(s, start, obj, 0) case Ok(e) => Some(e) case Err(_) => None
  {
    hide StringEndAt;
    var depth, inString, i := 0, false, start;
    ghost var body: nat := 0;
    while i < |s|
      invariant start <= i
      invariant inString ==> body <= i && StringEndAt(s, body) == StringEndAt(s, i)
      invariant inString ==>
                  CloseAt(s, start, obj, 0) ==
                  match StringEndAt(s, i) case None => Err(UnterminatedString) case Some(e) => CloseAt(s, e, obj, depth)
      invariant !inString ==> CloseAt(s, start, obj, 0) == CloseAt(s, i, obj, depth)
      decreases |s| - i
    {
      var c := s[i];
      if inString {
        StringEndStep(s, i);
        if c == BACKSLASH {
          i := i + 1;
        } else if c == QUOTE {
          inString := false;
        }
      } else if c == QUOTE {
        inString := true;
        body := i + 1;
      } else if c == Opener(obj) {
        depth := depth + 1;
      } else if c == Closer(obj) {
        depth := depth - 1;
        if depth == 0 {
          return Some(i + 1);
        }
      }
      i := i + 1;
    }
    StringEndStep(s, i);
    return None;
  }

  lemma StringEndStep(s: Text, i: nat)
    ensures StringEndAt(s, i) ==
            if i >= |s| then None
            else if s[i] == BACKSLASH then StringEndAt(s, i + 2)
            else if s[i] == QUOTE then Some(i + 1)
            else StringEndAt(s, i + 1)
  {
  }

  method FindHclAssignment(source: Text, name: Text) returns (r: Option<Text>)
    ensures r == HclAssignment(source, name)
  {
    hide CloseAt, SkipSpace, SkipBlanks, AssignsAt, FindAssign, TrimEnd;
    var found := FindAssign(source, name, 0);
    if found.None? {
      return None;
    }
    var p := found.value;
    var valueStart := ValueStart(source, p, name);
    if !(valueStart < |source| && (source[valueStart] == LBRACE || source[valueStart] == LBRACKET)) {
      var lineEnd := IndexOf(source, NEWLINE, valueStart);
      return if p <= lineEnd then Some(TrimEnd(source[p..lineEnd])) else None;
    }
    var close := ScanBrackets(source, valueStart, source[valueStart] == LBRACE);
    match close {
      case None => return None;
      case Some(e) => return if p <= e then Some(source[p..e]) else None;
    }
  }
}
