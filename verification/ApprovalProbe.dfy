// The probe that finds out which characters an atom matches, and where its answers can be relied on.

module ApprovalProbe {
  import opened Results
  import opened Texts
  import opened ApprovalSyntax
  import opened ApprovalScan
  import opened ApprovalWalk
  import opened ApprovalMatching

  const SMALL_D: Code := 0x64
  const LARGE_D: Code := 0x44
  const SMALL_W: Code := 0x77
  const LARGE_W: Code := 0x57

  // ---------------------------------------------------------------------------
  // The probe
  // ---------------------------------------------------------------------------

  /** The length of an escape that the probe takes for ASCII; its expression ignores the case of `d` and `w`. */
  function AsciiEscape(t: Text): (n: nat)
    ensures n <= |t|
  {
    if |t| >= 2 && t[0] == BACKSLASH && (t[1] == SMALL_D || t[1] == LARGE_D || t[1] == SMALL_W || t[1] == LARGE_W) then 2
    else if |t| >= 4 && t[0] == BACKSLASH && t[1] == SMALL_X && 0x30 <= t[2] <= 0x37 && IsHex(t[3]) then 4
    else if |t| >= 6 && t[0] == BACKSLASH && t[1] == LETTER_U && t[2] == 0x30 && t[3] == 0x30 && 0x30 <= t[4] <= 0x37
            && IsHex(t[5]) then 6
    else 0
  }

  /** Characters and such escapes up to the class's bracket. */
  predicate IsAsciiBody(t: Text)
    decreases |t|
  {
    || t == []
    || (t[0] != BACKSLASH && t[0] != RBRACKET && IsAsciiBody(t[1..]))
    || (AsciiEscape(t) > 0 && IsAsciiBody(t[AsciiEscape(t)..]))
  }

  /** The atoms of which the probe says that they match ASCII characters only. */
  predicate SaysAsciiOnly(t: Text) {
    || (|t| == 1 && t[0] < 128 && t[0] != DOT)
    || (t != [] && AsciiEscape(t) == |t|)
    || (|t| >= 3 && t[0] == LBRACKET && t[|t| - 1] == RBRACKET && t[1] != CARET && IsAsciiBody(t[1..|t| - 1]))
  }

  /** The probe tests an atom against the ASCII characters and looks at its text for the others. */
  function ProbeOf(e: Engine): Probe {
    t => AtomChars((set c: Ascii | 0 <= c < 128 && CharMatches(t, c, e)), SaysAsciiOnly(t))
  }

  /** `\d`, `\w` in either case, `\x` and `\u` with a code below 128. */
  predicate IsAsciiToken(t: Text) {
    || (|t| == 2 && t[0] == 0x5C && t[1] in {0x64, 0x44, 0x77, 0x57})
    || (|t| == 4 && t[0] == 0x5C && t[1] == 0x78 && t[2] in {0x30, 0x31, 0x32, 0x33, 0x34, 0x35, 0x36, 0x37} && IsHex(t[3]))
    || (|t| == 6 && t[0] == 0x5C && t[1] == 0x75 && t[2] == 0x30 && t[3] == 0x30
        && t[4] in {0x30, 0x31, 0x32, 0x33, 0x34, 0x35, 0x36, 0x37} && IsHex(t[5]))
  }

  /** The rest of a class's body, cut into such escapes and characters that are neither `\` nor `]`. */
  predicate IsCut(t: Text, pieces: seq<Text>)
    decreases |pieces|
  {
    if pieces == [] then t == []
    else
      && pieces[0] <= t && IsCut(t[|pieces[0]|..], pieces[1..])
      && (IsAsciiToken(pieces[0]) || (|pieces[0]| == 1 && pieces[0][0] != 0x5C && pieces[0][0] != 0x5D))
  }

  ghost predicate CanBeCut(t: Text) {
    exists pieces :: IsCut(t, pieces)
  }

  lemma EscapeIsToken(t: Text)
    ensures AsciiEscape(t) > 0 ==> IsAsciiToken(t[..AsciiEscape(t)])
    ensures forall n :: 0 < n <= |t| && IsAsciiToken(t[..n]) ==> AsciiEscape(t) == n
  {
    forall n | 0 < n <= |t| && IsAsciiToken(t[..n]) ensures AsciiEscape(t) == n {
      var u := t[..n];
      assert forall k :: 0 <= k < n ==> u[k] == t[k];
    }
  }

  lemma {:induction false} BodyIsCut(t: Text) returns (pieces: seq<Text>)
    requires IsAsciiBody(t)
    ensures IsCut(t, pieces)
    decreases |t|
  {
    pieces := [];
    if t != [] {
      EscapeIsToken(t);
      var n := if t[0] != BACKSLASH && t[0] != RBRACKET && IsAsciiBody(t[1..]) then 1 else AsciiEscape(t);
      var rest := BodyIsCut(t[n..]);
      pieces := [t[..n]] + rest;
      assert pieces[1..] == rest;
    }
  }

  lemma {:induction false} CutIsBody(t: Text, pieces: seq<Text>)
    requires IsCut(t, pieces)
    ensures IsAsciiBody(t)
    decreases |pieces|
  {
    if pieces != [] {
      var p := pieces[0];
      CutIsBody(t[|p|..], pieces[1..]);
      assert t[..|p|] == p;
      EscapeIsToken(t);
    }
  }

  /**
   * An atom is taken for ASCII exactly if it is an ASCII character but the dot, such an escape, or a
   * class of characters and such escapes that is not negated.
   */
  lemma SaysExactly(t: Text)
    ensures SaysAsciiOnly(t) <==>
            || (|t| == 1 && t[0] < 128 && t[0] != 0x2E) || IsAsciiToken(t)
            || (|t| >= 3 && t[0] == 0x5B && t[|t| - 1] == 0x5D && t[1] != 0x5E
                && CanBeCut(t[1..|t| - 1]))
  {
    hide IsCut, IsAsciiBody, AsciiEscape;
    EscapeIsToken(t);
    assert t[..|t|] == t;
    if |t| >= 3 {
      if IsAsciiBody(t[1..|t| - 1]) {
        var pieces := BodyIsCut(t[1..|t| - 1]);
      }
      if CanBeCut(t[1..|t| - 1]) {
        var pieces :| IsCut(t[1..|t| - 1], pieces);
        CutIsBody(t[1..|t| - 1], pieces);
      }
    }
    NoEscape(t);
  }

  lemma NoEscape(t: Text)
    ensures t == [] ==> !IsAsciiToken(t)
    ensures AsciiEscape(t) <= |t|
  {
  }

  // ---------------------------------------------------------------------------
  // Where it is right
  // ---------------------------------------------------------------------------

  predicate Covers(a: AtomChars, c: Code) {
    if c < 128 then c in a.ascii else !a.asciiOnly
  }

  /** Every character that an atom matches is among those that the probe names. */
  ghost predicate IsSound(chars: Probe, e: Engine) {
    forall t: Text, c: Code :: IsAtom(t) && CharMatches(t, c, e) ==> Covers(chars(t), c)
  }

  /** Two atoms that match one character overlap. */
  lemma SharedOverlaps(t: Text, u: Text, c: Code, chars: Probe, e: Engine)
    requires IsSound(chars, e) && IsAtom(t) && IsAtom(u) && CharMatches(t, c, e) && CharMatches(u, c, e)
    ensures Overlap(chars(t), chars(u))
  {
    hide CharMatches, IsAtom;
    assert Covers(chars(t), c) && Covers(chars(u), c);
    if c < 128 {
      assert c in chars(t).ascii * chars(u).ascii;
    }
  }

  /** The probe is right about all atoms if and only if none of those it takes for ASCII matches another character. */
  lemma SoundExactly(e: Engine)
    ensures IsSound(ProbeOf(e), e) <==>
            forall t: Text, c: Code :: IsAtom(t) && SaysAsciiOnly(t) && CharMatches(t, c, e) ==> c < 128
  {
    hide CharMatches, IsAtom, SaysAsciiOnly;
    if IsSound(ProbeOf(e), e) {
      forall t: Text, c: Code | IsAtom(t) && SaysAsciiOnly(t) && CharMatches(t, c, e) ensures c < 128 {
        assert Covers(ProbeOf(e)(t), c);
      }
    }
  }

  // ---------------------------------------------------------------------------
  // Where it is wrong
  // ---------------------------------------------------------------------------

  lemma {:induction false} NoReference(p: Text, i: nat)
    requires forall k :: 0 <= k < |p| ==> p[k] != BACKSLASH
    ensures !HasReference(p, i)
    decreases |p| - i
  {
    if i < |p| {
      NoReference(p, i + 1);
    }
  }

  const ONE_OR_MORE: Quantifier := Quantifier(Bound.Plus, false)

  /** A class of one character, repeated twice in a row. */
  function TwiceClass(c: Code): Regex {
    Sequence(Repeat(Atom([LBRACKET, c, RBRACKET]), ONE_OR_MORE), Repeat(Atom([LBRACKET, c, RBRACKET]), ONE_OR_MORE))
  }

  /**
   * A class of a character beyond ASCII counts as ASCII, so two repetitions of it in a row are
   * accepted although both take the character.
   */
  lemma ClassEscapes(c: Code, e: Engine)
    requires c >= 128 && forall d: Code :: CharMatches([LBRACKET, c, RBRACKET], d, e) <==> d == c
    ensures IsPattern(TwiceClass(c)) && !IsTooSlow(Source(TwiceClass(c)), ProbeOf(e)) && !IsSound(ProbeOf(e), e)
  {
    hide CharMatches;
    var t, r := [LBRACKET, c, RBRACKET], TwiceClass(c);
    assert t[1..2] == [c] && [c][1..] == [];
    assert IsAsciiBody([c][1..]) && IsAsciiBody([c]) && SaysAsciiOnly(t);
    TwiceIsPattern(c);
    assert !Covers(ProbeOf(e)(t), c);
    var cs := ProbeOf(e)(t);
    assert cs.ascii == {};
    TooSlowIsWalk(r, ProbeOf(e));
    NoReference(Source(r), 0);
    ClassWalks(c, cs, ProbeOf(e));
  }

  lemma TwiceIsPattern(c: Code)
    requires c >= 128
    ensures IsPattern(TwiceClass(c)) && IsAtom([LBRACKET, c, RBRACKET])
    ensures forall k :: 0 <= k < |Source(TwiceClass(c))| ==> Source(TwiceClass(c))[k] != BACKSLASH
  {
    var t := [LBRACKET, c, RBRACKET];
    assert t[1..2] == [c] && [c][1..] == [];
    assert IsClassBody([c][1..]) && IsClassBody([c]);
    assert IsClass(t) && IsAtom(t);
    assert BoundText(Bound.Plus) == [PLUS];
    assert IsPattern(Atom(t)) && IsPattern(Repeat(Atom(t), ONE_OR_MORE));
    assert Source(Repeat(Atom(t), ONE_OR_MORE)) == t + ([PLUS] + []);
  }

  lemma ClassWalks(c: Code, cs: AtomChars, chars: Probe)
    requires chars([LBRACKET, c, RBRACKET]) == cs && !Overlap(cs, cs)
    ensures Walk(TwiceClass(c), 0, ApprovalScan.START, chars).Some?
  {
    hide WithQuantifier;
    var t := [LBRACKET, c, RBRACKET];
    var first := WalkAtom(t, true, ApprovalScan.START, chars);
    assert first.Some?;
    var second := WalkAtom(t, true, first.value, chars);
    assert first.value.frames[0].lastQuantified == Some(cs);
    assert second.Some?;
  }
}
