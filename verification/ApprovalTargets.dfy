// Approval patterns that speak about one tool: escaping, the check that a raw pattern is anchored
// to its tool, and the patterns that are compiled from commands.

module ApprovalTargets {
  import opened Results
  import opened Texts
  import opened ApprovalSyntax
  import opened ApprovalScan
  import opened ApprovalWalk

  const BOUNDARY: Text := [BACKSLASH, SMALL_B]

  function EscapeChar(c: Code): (t: Text)
    ensures t != []
  {
    if IsSyntaxChar(c) then [BACKSLASH, c] else [c]
  }

  /** `s.replace(/[.*+?^${}()|[\]\\]/g, "\\$&")`. */
  function EscapeRegex(s: Text): Text {
    if s == [] then [] else EscapeChar(s[0]) + EscapeRegex(s[1..])
  }

  // ---------------------------------------------------------------------------
  // Bars outside groups and classes
  // ---------------------------------------------------------------------------

  /** The depth behind a closing parenthesis; with `floor` it does not drop below zero. */
  function Shallower(depth: int, floor: bool): int {
    if floor && depth <= 0 then 0 else depth - 1
  }

  /** The next `|` at depth zero outside classes. */
  function BarFrom(p: Text, i: nat, depth: int, inClass: bool, floor: bool): (r: Option<nat>)
    ensures r.Some? ==> i <= r.value < |p| && p[r.value] == PIPE
    decreases |p| - i
  {
    if i >= |p| then None
    else if p[i] == BACKSLASH then BarFrom(p, i + 2, depth, inClass, floor)
    else if p[i] == LBRACKET then BarFrom(p, i + 1, depth, true, floor)
    else if inClass then BarFrom(p, i + 1, depth, p[i] != RBRACKET, floor)
    else if p[i] == LPAREN then BarFrom(p, i + 1, depth + 1, false, floor)
    else if p[i] == RPAREN then BarFrom(p, i + 1, Shallower(depth, floor), false, floor)
    else if p[i] == PIPE && depth == 0 then Some(i)
    else BarFrom(p, i + 1, depth, false, floor)
  }

  predicate TargetsTool(binary: Text, p: Text) {
    var prefix := BOUNDARY + EscapeRegex(binary) + BOUNDARY;
    prefix <= p && BarFrom(p, 0, 0, false, true).None?
  }

  method RawApprovalTargetsTool(binary: Text, pattern: Text) returns (r: bool)
    ensures r == TargetsTool(binary, pattern)
  {
    var prefix := BOUNDARY + EscapeRegex(binary) + BOUNDARY;
    if !(prefix <= pattern) {
      return false;
    }
    var depth, inClass, escaped := 0, false, false;
    for i := 0 to |pattern|
      invariant depth >= 0
      invariant BarFrom(pattern, 0, 0, false, true) ==
                BarFrom(pattern, if escaped then i + 1 else i, depth, inClass, true)
    {
      var c := pattern[i];
      if escaped {
        escaped := false;
        continue;
      }
      if c == BACKSLASH {
        escaped := true;
        continue;
      }
      if c == LBRACKET && !inClass {
        inClass := true;
        continue;
      }
      if c == RBRACKET && inClass {
        inClass := false;
        continue;
      }
      if inClass {
        continue;
      }
      if c == LPAREN {
        depth := depth + 1;
      } else if c == RPAREN {
        depth := if depth >= 1 then depth - 1 else 0;
      } else if c == PIPE && depth == 0 {
        return false;
      }
    }
    return true;
  }

  lemma {:induction false} BarInClass(p: Text, i: nat, body: Text, depth: int, floor: bool)
    requires IsClassBody(body) && At(p, i, body) && i + |body| < |p| && p[i + |body|] == RBRACKET
    ensures BarFrom(p, i, depth, true, floor) == BarFrom(p, i + |body| + 1, depth, false, floor)
    decreases |body|
  {
    hide At;
    if body != [] {
      AtElement(p, i, body, 0);
      var n := if body[0] == BACKSLASH then 2 else 1;
      AtDrop(p, i, body, n);
      BarInClass(p, i + n, body[n..], depth, floor);
    }
  }

  predicate IsPlainChar(c: Code) {
    c != BACKSLASH && c != LBRACKET && c != LPAREN && c != RPAREN && c != PIPE
  }

  lemma {:induction false} BarOverPlain(p: Text, i: nat, t: Text, depth: int, floor: bool)
    requires At(p, i, t) && forall k :: 0 <= k < |t| ==> IsPlainChar(t[k])
    ensures BarFrom(p, i, depth, false, floor) == BarFrom(p, i + |t|, depth, false, floor)
    decreases |t|
  {
    hide At;
    if t != [] {
      AtElement(p, i, t, 0);
      AtBound(p, i, t);
      AtDrop(p, i, t, 1);
      BarOverPlain(p, i + 1, t[1..], depth, floor);
    }
  }

  /** A backslash, any character, and plain characters. */
  lemma BarOverEscape(p: Text, i: nat, t: Text, depth: int, floor: bool)
    requires |t| >= 2 && t[0] == BACKSLASH && (forall k :: 2 <= k < |t| ==> IsPlainChar(t[k])) && At(p, i, t)
    ensures BarFrom(p, i, depth, false, floor) == BarFrom(p, i + |t|, depth, false, floor)
  {
    hide At;
    AtElement(p, i, t, 0);
    AtBound(p, i, t);
    AtDrop(p, i, t, 2);
    BarOverPlain(p, i + 2, t[2..], depth, floor);
  }

  lemma BarOverAtom(p: Text, i: nat, t: Text, depth: int, floor: bool)
    requires IsAtom(t) && At(p, i, t)
    ensures BarFrom(p, i, depth, false, floor) == BarFrom(p, i + |t|, depth, false, floor)
  {
    hide At, IsClassBody;
    AtBound(p, i, t);
    if IsEscape(t) {
      BarOverEscape(p, i, t, depth, floor);
    } else if IsClass(t) {
      var body := t[1..|t| - 1];
      assert t == [LBRACKET] + body + [RBRACKET];
      AtSplit(p, i, [LBRACKET] + body, [RBRACKET]);
      AtSplit(p, i, [LBRACKET], body);
      AtElement(p, i, [LBRACKET], 0);
      AtElement(p, i + 1 + |body|, [RBRACKET], 0);
      BarInClass(p, i + 1, body, depth, floor);
    } else {
      BarOverPlain(p, i, t, depth, floor);
    }
  }

  lemma BarOverOpening(p: Text, i: nat, t: Text, depth: int, floor: bool)
    requires t != [] && t[0] == LPAREN && (forall k :: 1 <= k < |t| ==> IsPlainChar(t[k])) && At(p, i, t)
    ensures BarFrom(p, i, depth, false, floor) == BarFrom(p, i + |t|, depth + 1, false, floor)
  {
    hide At;
    AtElement(p, i, t, 0);
    AtBound(p, i, t);
    AtDrop(p, i, t, 1);
    BarOverPlain(p, i + 1, t[1..], depth + 1, floor);
  }

  lemma OpeningIsPlain(o: Opening)
    requires o.Named? ==> IsGroupName(o.name)
    ensures var t := OpeningText(o); t != [] && t[0] == LPAREN && forall k :: 1 <= k < |t| ==> IsPlainChar(t[k])
  {
  }

  lemma LookIsPlain(behind: bool, negative: bool)
    ensures var t := LookText(behind, negative);
            t != [] && t[0] == LPAREN && forall k :: 1 <= k < |t| ==> IsPlainChar(t[k])
  {
  }

  lemma QuantifierIsPlain(q: Quantifier)
    requires IsBound(q.bound)
    ensures forall k :: 0 <= k < |QuantifierText(q)| ==> IsPlainChar(QuantifierText(q)[k])
  {
  }

  lemma BarOverAnchor(p: Text, i: nat, a: Anchor, depth: int, floor: bool)
    requires At(p, i, AnchorText(a))
    ensures BarFrom(p, i, depth, false, floor) == BarFrom(p, i + |AnchorText(a)|, depth, false, floor)
  {
    hide At, BarFrom;
    if a.InputStart? || a.InputEnd? {
      BarOverPlain(p, i, AnchorText(a), depth, floor);
    } else {
      BarOverEscape(p, i, AnchorText(a), depth, floor);
    }
  }

  /** Outside a choice at depth zero, a printed pattern holds no bar that counts. */
  lemma {:induction false} BarOver(p: Text, i: nat, r: Regex, depth: nat, floor: bool)
    requires IsPattern(r) && At(p, i, Source(r)) && (r.Choice? ==> depth > 0)
    ensures BarFrom(p, i, depth, false, floor) == BarFrom(p, i + |Source(r)|, depth, false, floor)
    decreases r, 1
  {
    hide At, BarFrom, IsAtom, IsBound, OpeningText, LookText, QuantifierText, IsGroupName, IsPlainChar, AnchorText;
    match r {
      case Empty =>
      case Assert(a) =>
        BarOverAnchor(p, i, a, depth, floor);
      case Atom(t) =>
        BarOverAtom(p, i, t, depth, floor);
      case Parens(o, b) =>
        OpeningIsPlain(o);
        BarOverGroup(p, i, OpeningText(o), b, depth, floor);
      case Look(behind, negative, b) =>
        LookIsPlain(behind, negative);
        BarOverGroup(p, i, LookText(behind, negative), b, depth, floor);
      case Repeat(x, q) =>
        AtSplit(p, i, Source(x), QuantifierText(q));
        BarOver(p, i, x, depth, floor);
        QuantifierIsPlain(q);
        BarOverPlain(p, i + |Source(x)|, QuantifierText(q), depth, floor);
      case Sequence(a, b) =>
        AtSplit(p, i, Source(a), Source(b));
        BarOver(p, i, a, depth, floor);
        BarOver(p, i + |Source(a)|, b, depth, floor);
      case Choice(a, b) =>
        AtSplit(p, i, Source(a) + [PIPE], Source(b));
        AtSplit(p, i, Source(a), [PIPE]);
        BarOver(p, i, a, depth, floor);
        BarInside(p, i + |Source(a)|, depth, floor);
        BarOver(p, i + |Source(a)| + 1, b, depth, floor);
    }
  }

  lemma BarInside(p: Text, i: nat, depth: nat, floor: bool)
    requires At(p, i, [PIPE])
    ensures i < |p| && p[i] == PIPE
    ensures BarFrom(p, i, depth, false, floor) == if depth == 0 then Some(i) else BarFrom(p, i + 1, depth, false, floor)
  {
    AtElement(p, i, [PIPE], 0);
  }

  lemma {:induction false} BarOverGroup(p: Text, i: nat, open: Text, b: Regex, depth: nat, floor: bool)
    requires IsPattern(b) && At(p, i, open + Source(b) + [RPAREN])
    requires open != [] && open[0] == LPAREN && forall k :: 1 <= k < |open| ==> IsPlainChar(open[k])
    ensures var n := |open + Source(b) + [RPAREN]|;
            BarFrom(p, i, depth, false, floor) == BarFrom(p, i + n, depth, false, floor)
    decreases b, 2
  {
    hide At, IsPattern, Source, BarFrom;
    var j := i + |open|;
    AtSplit(p, i, open + Source(b), [RPAREN]);
    AtSplit(p, i, open, Source(b));
    BarOverOpening(p, i, open, depth, floor);
    BarOver(p, j, b, depth + 1, floor);
    BarAtClose(p, j + |Source(b)|, depth + 1, floor);
  }

  lemma BarAtClose(p: Text, i: nat, depth: nat, floor: bool)
    requires At(p, i, [RPAREN]) && depth > 0
    ensures BarFrom(p, i, depth, false, floor) == BarFrom(p, i + 1, depth - 1, false, floor)
  {
    AtElement(p, i, [RPAREN], 0);
    AtBound(p, i, [RPAREN]);
  }

  // ---------------------------------------------------------------------------
  // Alternatives
  // ---------------------------------------------------------------------------

  /** The alternatives of a choice, from left to right. */
  function Alternatives(r: Regex): (rs: seq<Regex>)
    ensures rs != []
  {
    if r.Choice? then Alternatives(r.left) + Alternatives(r.right) else [r]
  }

  function Sources(rs: seq<Regex>): seq<Text> {
    if rs == [] then [] else [Source(rs[0])] + Sources(rs[1..])
  }

  lemma {:induction false} SourcesConcat(a: seq<Regex>, b: seq<Regex>)
    ensures Sources(a + b) == Sources(a) + Sources(b)
    decreases |a|
  {
    hide Source;
    if a == [] {
      assert a + b == b;
    } else {
      assert (a + b)[1..] == a[1..] + b;
      SourcesConcat(a[1..], b);
    }
  }

  /** splitAlternatives cuts at the bars that count. */
  lemma {:induction false} SplitAtBar(s: Text, start: nat, i: nat, depth: int, inClass: bool)
    ensures Split(s, start, i, depth, inClass) ==
            match BarFrom(s, i, depth, inClass, false)
            case None => [Slice(s, start, |s|)]
            case Some(e) => [Slice(s, start, e)] + Split(s, e + 1, e + 1, 0, false)
    decreases |s| - i
  {
    hide Slice;
    if i < |s| {
      if s[i] == BACKSLASH {
        SplitAtBar(s, start, i + 2, depth, inClass);
      } else if s[i] == LBRACKET {
        SplitAtBar(s, start, i + 1, depth, true);
      } else if inClass {
        SplitAtBar(s, start, i + 1, depth, s[i] != RBRACKET);
      } else if s[i] == LPAREN {
        SplitAtBar(s, start, i + 1, depth + 1, false);
      } else if s[i] == RPAREN {
        SplitAtBar(s, start, i + 1, depth - 1, false);
      } else if s[i] != PIPE || depth != 0 {
        SplitAtBar(s, start, i + 1, depth, false);
      }
    }
  }

  lemma NoBarAtEnd(p: Text, i: nat, depth: int, floor: bool)
    requires i >= |p|
    ensures BarFrom(p, i, depth, false, floor) == None
  {
  }

  /** The alternatives of a choice that is followed by a bar or by the end of the text. */
  lemma {:induction false} SplitsHere(s: Text, i: nat, r: Regex)
    requires IsPattern(r) && At(s, i, Source(r))
    requires var n := i + |Source(r)|; n == |s| || At(s, n, [PIPE])
    ensures var n := i + |Source(r)|;
            Split(s, i, i, 0, false) ==
            Sources(Alternatives(r)) + (if n == |s| then [] else Split(s, n + 1, n + 1, 0, false))
    decreases r
  {
    hide At, BarFrom, Split, Slice, Sources, Alternatives;
    var n := i + |Source(r)|;
    AlternativesOf(r);
    if r.Choice? {
      var m := i + |Source(r.left)|;
      AtSplit(s, i, Source(r.left) + [PIPE], Source(r.right));
      AtSplit(s, i, Source(r.left), [PIPE]);
      AtBound(s, m, [PIPE]);
      SplitsHere(s, i, r.left);
      SplitsHere(s, m + 1, r.right);
      SourcesConcat(Alternatives(r.left), Alternatives(r.right));
    } else {
      OneSource(r);
      SplitsOne(s, i, r);
    }
  }

  lemma SplitsOne(s: Text, i: nat, r: Regex)
    requires IsPattern(r) && !r.Choice? && At(s, i, Source(r))
    requires var n := i + |Source(r)|; n == |s| || At(s, n, [PIPE])
    ensures var n := i + |Source(r)|;
            Split(s, i, i, 0, false) == [Source(r)] + (if n == |s| then [] else Split(s, n + 1, n + 1, 0, false))
  {
    hide At, BarFrom, Split, Slice, Source, IsPattern;
    var n := i + |Source(r)|;
    BarOver(s, i, r, 0, false);
    SplitAtBar(s, i, i, 0, false);
    SliceOf(s, i, Source(r));
    AtBound(s, i, Source(r));
    if n == |s| {
      NoBarAtEnd(s, n, 0, false);
    } else {
      BarInside(s, n, 0, false);
    }
  }

  lemma AlternativesOf(r: Regex)
    ensures Alternatives(r) == if r.Choice? then Alternatives(r.left) + Alternatives(r.right) else [r]
  {
  }

  lemma OneSource(r: Regex)
    ensures Sources([r]) == [Source(r)]
  {
    hide Source;
    assert [r][1..] == [];
  }

  /** splitAlternatives of a printed pattern gives the source texts of its alternatives. */
  lemma SplitsAlternatives(r: Regex)
    requires IsPattern(r)
    ensures Split(Source(r), 0, 0, 0, false) == Sources(Alternatives(r))
  {
    hide At, Split, Source, IsPattern, Sources, Alternatives;
    AtWhole(Source(r));
    SplitsHere(Source(r), 0, r);
  }

  /** A choice at the top of a pattern shows as a bar that counts. */
  lemma ChoiceHasBar(p: Text, i: nat, r: Regex, floor: bool)
    requires IsPattern(r) && r.Choice? && At(p, i, Source(r))
    ensures BarFrom(p, i, 0, false, floor).Some?
    decreases r
  {
    hide At, BarFrom;
    AtSplit(p, i, Source(r.left) + [PIPE], Source(r.right));
    AtSplit(p, i, Source(r.left), [PIPE]);
    if r.left.Choice? {
      ChoiceHasBar(p, i, r.left, floor);
    } else {
      BarOver(p, i, r.left, 0, floor);
      BarInside(p, i + |Source(r.left)|, 0, floor);
    }
  }

  /** A pattern has a bar at depth zero outside classes exactly when it is a choice at the top. */
  lemma BarMeansChoice(r: Regex, floor: bool)
    requires IsPattern(r)
    ensures BarFrom(Source(r), 0, 0, false, floor).Some? <==> r.Choice?
  {
    hide At, BarFrom, IsPattern, Source;
    AtWhole(Source(r));
    if r.Choice? {
      ChoiceHasBar(Source(r), 0, r, floor);
    } else {
      BarOver(Source(r), 0, r, 0, floor);
      NoBarAtEnd(Source(r), |Source(r)|, 0, floor);
    }
  }

  /**
   * A pattern counts as targeting the tool exactly if it starts with the tool's escaped name between
   * two word boundaries and is no choice at its top; bars inside groups and classes do not count.
   */
  lemma TargetsExactly(binary: Text, r: Regex)
    requires IsPattern(r)
    ensures TargetsTool(binary, Source(r)) <==>
            !r.Choice? && [0x5C, 0x62] + EscapeRegex(binary) + [0x5C, 0x62] <= Source(r)
  {
    hide BarFrom, IsPattern, Source, EscapeRegex;
    BarMeansChoice(r, true);
  }
}
