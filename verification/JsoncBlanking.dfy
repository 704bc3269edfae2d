// The two passes that turn a commented configuration into plain JSON text of the same length:
// comments become blanks, and so do commas in front of a closing bracket.

module JsoncBlanking {
  import opened Results
  import opened Texts
  import opened JsonText

  // ---------------------------------------------------------------------------
  // Comments
  // ---------------------------------------------------------------------------

  datatype Lexeme = Literal | Comment | Plain

  predicate IsLineOpener(s: Text, i: nat) {
    i + 1 < |s| && s[i] == SLASH && s[i + 1] == SLASH
  }

  predicate IsBlockOpener(s: Text, i: nat) {
    i + 1 < |s| && s[i] == SLASH && s[i + 1] == STAR
  }

  /** The first line break at or behind `i`, or the end of the text. */
  function LineEnd(s: Text, i: nat): (e: nat)
    requires i <= |s|
    ensures i <= e <= |s|
    ensures forall k :: i <= k < e ==> s[k] != NEWLINE
    ensures e < |s| ==> s[e] == NEWLINE
    decreases |s| - i
  {
    if i == |s| || s[i] == NEWLINE then i else LineEnd(s, i + 1)
  }

  predicate ClosesBlock(s: Text, k: nat) {
    k + 1 < |s| && s[k] == STAR && s[k + 1] == SLASH
  }

  /** The offset behind the first `*` `/` at or behind `i`. */
  function BlockClose(s: Text, i: nat): (r: Option<nat>)
    ensures r.Some? ==> i + 2 <= r.value <= |s| && ClosesBlock(s, r.value - 2)
    ensures forall k :: i <= k && (r.Some? ==> k < r.value - 2) ==> !ClosesBlock(s, k)
    decreases |s| - i
  {
    if i + 1 >= |s| then None
    else if s[i] == STAR && s[i + 1] == SLASH then Some(i + 2)
    else BlockClose(s, i + 1)
  }

  function BlockEnd(s: Text, i: nat): nat
    requires i <= |s|
  {
    match BlockClose(s, i) case Some(e) => e case None => |s|
  }

  function LiteralStop(s: Text, i: nat): nat {
    match StringEndAt(s, i) case Some(e) => e case None => |s|
  }

  /** The lexeme that starts at `i`. */
  function KindAt(s: Text, i: nat): Lexeme
    requires i < |s|
  {
    if s[i] == QUOTE then Literal
    else if IsLineOpener(s, i) || IsBlockOpener(s, i) then Comment
    else Plain
  }

  /** The offset behind the lexeme that starts at `i`. */
  function StopAt(s: Text, i: nat): (e: nat)
    requires i < |s|
    ensures i < e <= |s|
  {
    if s[i] == QUOTE then LiteralStop(s, i + 1)
    else if IsLineOpener(s, i) then LineEnd(s, i + 2)
    else if IsBlockOpener(s, i) then BlockEnd(s, i + 2)
    else i + 1
  }

  function Blank(c: Code): Code {
    if c == NEWLINE then NEWLINE else SPACE
  }

  /** Every string literal that a scan from `i` meets is terminated. */
  predicate Lexes(s: Text, i: nat)
    decreases |s| - i
  {
    i < |s| ==> (s[i] == QUOTE ==> StringEndAt(s, i + 1).Some?) && Lexes(s, StopAt(s, i))
  }

  /** What one character of a lexeme becomes. */
  function Image(l: Lexeme, c: Code): Code {
    if l.Comment? then Blank(c) else c
  }

  function ImageSpan(l: Lexeme, t: Text): (r: Text)
    ensures |r| == |t|
    ensures forall k :: 0 <= k < |t| ==> r[k] == Image(l, t[k])
  {
    if t == [] then [] else [Image(l, t[0])] + ImageSpan(l, t[1..])
  }

  /** The text from `i` on with its comments blanked. */
  function StripText(s: Text, i: nat): (r: Text)
    ensures i <= |s| ==> |r| == |s| - i
    decreases |s| - i
  {
    if i >= |s| then [] else ImageSpan(KindAt(s, i), s[i..StopAt(s, i)]) + StripText(s, StopAt(s, i))
  }

  /** The kind of lexeme that position `k` belongs to, for a scan from the boundary `i`. */
  function MaskAt(s: Text, i: nat, k: nat): Lexeme
    requires i <= k < |s|
    decreases |s| - i
  {
    if k < StopAt(s, i) then KindAt(s, i) else MaskAt(s, StopAt(s, i), k)
  }

  /** `out` continues from `i`, a lexeme boundary of `s`, as the blanked text does. */
  ghost predicate Follows(s: Text, out: Text, i: nat) {
    |out| == |s| && i <= |s| && out[i..] == StripText(s, i)
  }

  lemma FollowsStep(s: Text, out: Text, i: nat)
    requires Follows(s, out, i) && i < |s|
    ensures Follows(s, out, StopAt(s, i))
    ensures forall k :: i <= k < StopAt(s, i) ==> out[k] == Image(KindAt(s, i), s[k])
  {
    hide KindAt, StopAt, Image;
    var e := StopAt(s, i);
    var piece := ImageSpan(KindAt(s, i), s[i..e]);
    assert out[i..][|piece|..] == out[e..];
    forall k | i <= k < e ensures out[k] == Image(KindAt(s, i), s[k]) {
      assert out[k] == out[i..][k - i] == piece[k - i];
    }
  }

  /** stripJsonComments, up to its error. */
  datatype Outcome<+T> = Ok(value: T) | Err(error: ConfigError)

  datatype ConfigError =
    | UnterminatedString | Unbalanced | NotAnObject | NotClosed | NonStringKey | NoValue
    | BadKey | MissingEnv | MissingCore

  method ScanString(s: Text, start: nat) returns (r: Outcome<nat>)
    ensures r == match StringEndAt(s, start + 1) case Some(e) => Ok(e) case None => Err(UnterminatedString)
  {
    var i := start + 1;
    while i < |s|
      invariant StringEndAt(s, start + 1) == StringEndAt(s, i)
      decreases |s| - i
    {
      if s[i] == BACKSLASH {
        i := i + 1;
      } else if s[i] == QUOTE {
        return Ok(i + 1);
      }
      i := i + 1;
    }
    return Err(UnterminatedString);
  }

  method IndexOfBlockClose(s: Text, start: nat) returns (stop: nat)
    requires start <= |s|
    ensures stop == BlockEnd(s, start)
  {
    var i := start;
    while i + 1 < |s|
      invariant start <= i
      invariant BlockClose(s, start) == BlockClose(s, i)
    {
      if s[i] == STAR && s[i + 1] == SLASH {
        return i + 2;
      }
      i := i + 1;
    }
    return |s|;
  }

  lemma {:induction false} StringEndLocal(s: Text, t: Text, i: nat, e: nat)
    requires StringEndAt(s, i) == Some(e) && |t| == |s| && forall k :: i <= k < e ==> t[k] == s[k]
    ensures StringEndAt(t, i) == Some(e)
    decreases |s| - i
  {
    if s[i] == BACKSLASH {
      StringEndLocal(s, t, i + 2, e);
    } else if s[i] != QUOTE {
      StringEndLocal(s, t, i + 1, e);
    }
  }

  lemma {:induction false} BlankRun(out: Text, i: nat, e: nat)
    requires i <= e <= |out| && forall k :: i <= k < e ==> out[k] == SPACE || out[k] == NEWLINE
    requires Lexes(out, e) && Follows(out, out, e)
    ensures Lexes(out, i) && Follows(out, out, i)
    ensures forall k :: i <= k < e ==> MaskAt(out, i, k).Plain?
    ensures forall k :: e <= k < |out| ==> MaskAt(out, i, k) == MaskAt(out, e, k)
    decreases e - i
  {
    if i < e {
      BlankRun(out, i + 1, e);
      FollowsBack(out, i);
    }
  }

  lemma FollowsBack(s: Text, i: nat)
    requires i < |s| && Follows(s, s, StopAt(s, i)) && !KindAt(s, i).Comment?
    ensures Follows(s, s, i)
  {
    hide KindAt, StopAt;
    var e := StopAt(s, i);
    assert s[i..] == s[i..e] + s[e..];
    assert ImageSpan(KindAt(s, i), s[i..e]) == s[i..e];
  }

  /** Scanning the blanked text meets the same literals, no comment, and changes nothing more. */
  lemma {:induction false} Relexes(s: Text, out: Text, i: nat)
    requires Follows(s, out, i) && Lexes(s, i)
    ensures Lexes(out, i) && Follows(out, out, i)
    ensures forall k :: i <= k < |s| ==> (MaskAt(out, i, k).Literal? <==> MaskAt(s, i, k).Literal?)
    ensures forall k :: i <= k < |s| ==> !MaskAt(out, i, k).Comment?
    decreases |s| - i
  {
    hide StripText, StringEndAt, LineEnd, BlockClose, Follows;
    FollowsLength(s, out, i);
    if i < |s| {
      var e := StopAt(s, i);
      FollowsStep(s, out, i);
      Relexes(s, out, e);
      match KindAt(s, i) {
        case Comment =>
          BlankRun(out, i, e);
        case Literal =>
          StringEndLocal(s, out, i + 1, e);
          FollowsBack(out, i);
        case Plain =>
          NoNewOpener(s, out, i);
          FollowsBack(out, i);
      }
    } else {
      FollowsAtEnd(s, out, i);
    }
  }

  lemma FollowsAtEnd(s: Text, out: Text, i: nat)
    requires Follows(s, out, i) && i >= |s|
    ensures |out| == |s| && Follows(out, out, i)
  {
  }

  /** A character that opens no comment opens none once what follows has been blanked. */
  lemma NoNewOpener(s: Text, out: Text, i: nat)
    requires Follows(s, out, i) && i < |s| && KindAt(s, i).Plain?
    ensures out[i] == s[i] && KindAt(out, i).Plain? && StopAt(out, i) == i + 1
  {
    hide StripText, Follows;
    FollowsStep(s, out, i);
    FollowsLength(s, out, i);
    if i + 1 < |s| {
      FollowsStep(s, out, i + 1);
    }
  }

  lemma FollowsLength(s: Text, out: Text, i: nat)
    requires Follows(s, out, i)
    ensures |out| == |s| && i <= |s|
  {
  }

  /**
   * stripJsonComments keeps the length, turns comment characters into blanks and keeps all
   * others, leaves no comment behind, keeps every literal at its offset, and is idempotent.
   */
  lemma StripProperties(s: Text)
    requires Lexes(s, 0)
    ensures var out := StripText(s, 0);
            && |out| == |s| && Lexes(out, 0) && StripText(out, 0) == out
            && (forall k :: 0 <= k < |s| ==> out[k] == if MaskAt(s, 0, k).Comment? && s[k] != 0x0A then 0x20 else s[k])
            && (forall k :: 0 <= k < |s| ==> (MaskAt(out, 0, k).Literal? <==> MaskAt(s, 0, k).Literal?))
            && (forall k :: 0 <= k < |s| ==> !MaskAt(out, 0, k).Comment?)
  {
    var out := StripText(s, 0);
    assert out[0..] == out;
    Relexes(s, out, 0);
    OnlyBlanks(s, out, 0);
  }

  lemma {:induction false} OnlyBlanks(s: Text, out: Text, i: nat)
    requires Follows(s, out, i)
    ensures forall k :: i <= k < |s| ==> out[k] == if MaskAt(s, i, k).Comment? && s[k] != 0x0A then 0x20 else s[k]
    decreases |s| - i
  {
    if i < |s| {
      FollowsStep(s, out, i);
      OnlyBlanks(s, out, StopAt(s, i));
    }
  }

  /** Blanks every comment; the result has the length of the text. */
  method StripJsonComments(text: Text) returns (r: Outcome<Text>)
    ensures r == if Lexes(text, 0) then Ok(StripText(text, 0)) else Err(UnterminatedString)
  {
    hide StripText, ImageSpan, BlockClose, LineEnd;
    ghost var full := StripText(text, 0);
    var out: Text := [];
    var i := 0;
    while i < |text|
      invariant |out| == i <= |text|
      invariant Follows(text, full, i)
      invariant forall k :: 0 <= k < i ==> out[k] == full[k]
      invariant Lexes(text, i) == Lexes(text, 0)
    {
      ghost var stop := StopAt(text, i);
      FollowsStep(text, full, i);
      if text[i] == QUOTE {
        var end := ScanString(text, i);
        if end.Err? {
          return Err(UnterminatedString);
        }
        out := out + text[i..end.value];
        i := end.value;
      } else if i + 1 < |text| && text[i] == SLASH && text[i + 1] == SLASH {
        ghost var start := i;
        while i < |text| && text[i] != NEWLINE
          invariant start <= i <= |text| && |out| == i
          invariant i <= stop && (i < start + 2 ==> text[i] == SLASH)
          invariant forall k :: 0 <= k < i ==> out[k] == full[k]
        {
          LineStop(text, start, i);
          out := out + [SPACE];
          i := i + 1;
        }
        LineStop(text, start, i);
      } else if i + 1 < |text| && text[i] == SLASH && text[i + 1] == STAR {
        var end := IndexOfBlockClose(text, i + 2);
        while i < end
          invariant i <= end == stop && |out| == i
          invariant forall k :: 0 <= k < i ==> out[k] == full[k]
        {
          out := out + [if text[i] == NEWLINE then NEWLINE else SPACE];
          i := i + 1;
        }
      } else {
        out := out + [text[i]];
        i := i + 1;
      }
    }
    assert out == full;
    return Ok(out);
  }

  /** Inside a line comment, a position is the comment's end exactly when the line ends there. */
  lemma LineStop(s: Text, start: nat, i: nat)
    requires IsLineOpener(s, start) && start <= i <= StopAt(s, start)
    ensures StopAt(s, start) == LineEnd(s, start + 2)
    ensures i < StopAt(s, start) ==> s[i] != NEWLINE
    ensures i == StopAt(s, start) <==> i == |s| || s[i] == NEWLINE
  {
    if i < start + 2 {
      assert i == start || i == start + 1;
    }
  }

  // ---------------------------------------------------------------------------
  // Trailing commas
  // ---------------------------------------------------------------------------

  function SkipSpace(s: Text, i: nat): (r: nat)
    ensures i <= r && (i <= |s| ==> r <= |s|)
    ensures forall k :: i <= k < r ==> k < |s| && IsSpace(s[k])
    ensures r < |s| ==> !IsSpace(s[r])
    decreases |s| - i
  {
    if i < |s| && IsSpace(s[i]) then SkipSpace(s, i + 1) else i
  }

  predicate IsCloser(c: Code) {
    c == RBRACE || c == RBRACKET
  }

  /** Nothing but white space stands between `i` and a closing bracket. */
  predicate BeforeCloser(s: Text, i: nat) {
    var n := SkipSpace(s, i);
    n < |s| && IsCloser(s[n])
  }

  /** The offset behind the literal or the single character at `i`. */
  function UnitStop(s: Text, i: nat): (e: nat)
    requires i < |s|
    ensures i < e <= |s|
  {
    if s[i] == QUOTE then LiteralStop(s, i + 1) else i + 1
  }

  predicate LiteralsEnd(s: Text, i: nat)
    decreases |s| - i
  {
    i < |s| ==> (s[i] == QUOTE ==> StringEndAt(s, i + 1).Some?) && LiteralsEnd(s, UnitStop(s, i))
  }

  predicate InLiteral(s: Text, i: nat, k: nat)
    requires i <= k < |s|
    decreases |s| - i
  {
    if k < UnitStop(s, i) then s[i] == QUOTE else InLiteral(s, UnitStop(s, i), k)
  }

  function UnitImage(s: Text, i: nat): Text
    requires i < |s|
  {
    if s[i] == QUOTE then s[i..UnitStop(s, i)]
    else if s[i] == COMMA && BeforeCloser(s, i + 1) then [SPACE]
    else [s[i]]
  }

  /** The text from `i` on with the commas in front of closing brackets blanked. */
  function CommaText(s: Text, i: nat): (r: Text)
    ensures i <= |s| ==> |r| == |s| - i
    decreases |s| - i
  {
    if i >= |s| then [] else UnitImage(s, i) + CommaText(s, UnitStop(s, i))
  }

  ghost predicate CommaFollows(s: Text, out: Text, i: nat) {
    |out| == |s| && i <= |s| && out[i..] == CommaText(s, i)
  }

  lemma CommaStep(s: Text, out: Text, i: nat)
    requires CommaFollows(s, out, i) && i < |s|
    ensures |out| == |s| && CommaFollows(s, out, UnitStop(s, i))
    ensures s[i] == QUOTE ==> forall k :: i <= k < UnitStop(s, i) ==> out[k] == s[k]
    ensures s[i] != QUOTE ==> out[i] == if s[i] == COMMA && BeforeCloser(s, i + 1) then SPACE else s[i]
  {
    hide LiteralStop, BeforeCloser;
    var e := UnitStop(s, i);
    var piece := UnitImage(s, i);
    assert out[i..][|piece|..] == out[e..];
    forall k | i <= k < e ensures out[k] == piece[k - i] {
      assert out[k] == out[i..][k - i];
    }
  }

  method SkipWs(s: Text, start: nat) returns (i: nat)
    ensures i == SkipSpace(s, start)
  {
    i := start;
    while i < |s| && IsSpace(s[i])
      invariant SkipSpace(s, start) == SkipSpace(s, i)
      decreases |s| - i
    {
      i := i + 1;
    }
  }

  /** Blanks, in place, every comma that stands in front of a closing bracket. */
  method StripTrailingCommas(text: Text) returns (r: Outcome<Text>)
    ensures r == if LiteralsEnd(text, 0) then Ok(CommaText(text, 0)) else Err(UnterminatedString)
  {
    hide CommaText, SkipSpace;
    ghost var full := CommaText(text, 0);
    var out := text;
    var i := 0;
    while i < |out|
      invariant i <= |out| == |text|
      invariant CommaFollows(text, full, i)
      invariant forall k :: 0 <= k < i ==> out[k] == full[k]
      invariant out[i..] == text[i..]
      invariant LiteralsEnd(text, i) == LiteralsEnd(text, 0)
      decreases |text| - i
    {
      CommaStep(text, full, i);
      SameTail(text, out, i);
      if out[i] == QUOTE {
        var end := ScanString(out, i);
        if end.Err? {
          return Err(UnterminatedString);
        }
        i := end.value;
      } else {
        if out[i] == COMMA {
          var next := SkipWs(out, i + 1);
          if next < |out| && (out[next] == RBRACE || out[next] == RBRACKET) {
            out := out[..i] + [SPACE] + out[i + 1..];
          }
        }
        i := i + 1;
      }
    }
    assert out == full;
    return Ok(out);
  }

  /** Two texts that agree from `i` on are scanned alike from `i` on. */
  lemma {:induction false} SameTail(s: Text, t: Text, i: nat)
    requires |s| == |t| && i < |s| && s[i..] == t[i..]
    ensures s[i] == t[i] && SkipSpace(s, i + 1) == SkipSpace(t, i + 1)
    ensures StringEndAt(s, i + 1) == StringEndAt(t, i + 1)
    ensures forall k :: i <= k < |s| ==> s[k] == t[k]
  {
    forall k | i <= k < |s| ensures s[k] == t[k] {
      assert s[i..][k - i] == t[i..][k - i];
    }
    SkipSame(s, t, i + 1);
    StringEndSame(s, t, i + 1);
  }

  lemma {:induction false} SkipSame(s: Text, t: Text, i: nat)
    requires |s| == |t| && forall k :: i <= k < |s| ==> s[k] == t[k]
    ensures SkipSpace(s, i) == SkipSpace(t, i)
    decreases |s| - i
  {
    if i < |s| {
      SkipSame(s, t, i + 1);
    }
  }

  lemma {:induction false} StringEndSame(s: Text, t: Text, i: nat)
    requires |s| == |t| && forall k :: i <= k < |s| ==> s[k] == t[k]
    ensures StringEndAt(s, i) == StringEndAt(t, i)
    decreases |s| - i
  {
    if i < |s| {
      StringEndSame(s, t, i + 1);
      StringEndSame(s, t, i + 2);
    }
  }

  /** White space is kept, so the scan of the blanked text skips at least as far. */
  lemma {:induction false} SpacesKept(s: Text, out: Text, i: nat)
    requires CommaFollows(s, out, i)
    ensures |out| == |s| && CommaFollows(s, out, SkipSpace(s, i))
    ensures SkipSpace(out, i) == SkipSpace(out, SkipSpace(s, i))
    decreases |s| - i
  {
    hide CommaText, LiteralStop, BeforeCloser;
    if i < |s| && IsSpace(s[i]) {
      CommaStep(s, out, i);
      SpacesKept(s, out, i + 1);
    }
  }

  /** A comma whose next neighbour, white space aside, is a trailing comma. */
  predicate Stacked(s: Text, i: nat) {
    var n := SkipSpace(s, i + 1);
    n < |s| && s[n] == COMMA && BeforeCloser(s, n + 1)
  }

  /** A stacked comma stands outside the literals, at `i` or behind. */
  predicate HasStacked(s: Text, i: nat)
    decreases |s| - i
  {
    i < |s| && ((s[i] == COMMA && Stacked(s, i)) || HasStacked(s, UnitStop(s, i)))
  }

  /** In the blanked text a kept comma has become trailing exactly when it was stacked. */
  lemma KeptComma(s: Text, out: Text, i: nat)
    requires CommaFollows(s, out, i) && i < |s| && s[i] == COMMA && !BeforeCloser(s, i + 1)
    ensures |out| == |s| && out[i] == COMMA && (BeforeCloser(out, i + 1) <==> Stacked(s, i))
  {
    hide CommaText, SkipSpace;
    CommaStep(s, out, i);
    SpacesKept(s, out, i + 1);
    var n := SkipSpace(s, i + 1);
    if n < |s| {
      CommaStep(s, out, n);
      if s[n] == COMMA && BeforeCloser(s, n + 1) {
        SkipOne(out, n);
        SpacesKept(s, out, n + 1);
        var m := SkipSpace(s, n + 1);
        CommaStep(s, out, m);
        SkipNone(out, m);
      } else {
        SkipNone(out, n);
      }
    }
  }

  lemma SkipOne(s: Text, i: nat)
    requires i < |s| && IsSpace(s[i])
    ensures SkipSpace(s, i) == SkipSpace(s, i + 1)
  {
  }

  lemma SkipNone(s: Text, i: nat)
    requires i < |s| && !IsSpace(s[i])
    ensures SkipSpace(s, i) == i
  {
  }

  /** A comma outside the literals, with nothing but white space between it and a closing bracket. */
  ghost predicate IsTrailing(s: Text, i: nat, k: nat)
    requires i <= k < |s|
  {
    && s[k] == COMMA && !InLiteral(s, i, k)
    && exists n: nat :: k < n < |s| && (s[n] == RBRACE || s[n] == RBRACKET) && OnlySpace(s, k + 1, n)
  }

  ghost predicate OnlySpace(s: Text, i: nat, n: nat) {
    forall k :: i <= k < n && k < |s| ==> IsSpace(s[k])
  }

  lemma TrailingIs(s: Text, k: nat)
    requires k < |s|
    ensures BeforeCloser(s, k + 1) <==>
            exists n: nat :: k < n < |s| && (s[n] == RBRACE || s[n] == RBRACKET) && OnlySpace(s, k + 1, n)
  {
    hide SkipSpace;
    var m := SkipSpace(s, k + 1);
    if BeforeCloser(s, k + 1) {
      assert OnlySpace(s, k + 1, m);
    }
    if n: nat :| k < n < |s| && (s[n] == RBRACE || s[n] == RBRACKET) && OnlySpace(s, k + 1, n) {
      assert m >= n;
      assert m <= n;
    }
  }

  lemma TrailingAt(s: Text, i: nat, k: nat)
    requires i <= k < |s|
    ensures IsTrailing(s, i, k) <==> s[k] == COMMA && !InLiteral(s, i, k) && BeforeCloser(s, k + 1)
  {
    hide InLiteral, BeforeCloser, OnlySpace;
    TrailingIs(s, k);
  }

  /** Scanning the blanked text meets the same literals; it changes nothing more unless commas were stacked. */
  lemma {:induction false} CommasAgain(s: Text, out: Text, i: nat)
    requires CommaFollows(s, out, i) && LiteralsEnd(s, i)
    ensures |out| == |s| && LiteralsEnd(out, i)
    ensures CommaFollows(out, out, i) <==> !HasStacked(s, i)
    ensures forall k :: i <= k < |s| ==> InLiteral(out, i, k) == InLiteral(s, i, k)
    ensures forall k :: i <= k < |s| ==>
              out[k] == if s[k] == COMMA && !InLiteral(s, i, k) && BeforeCloser(s, k + 1) then SPACE else s[k]
    decreases |s| - i
  {
    hide CommaText, SkipSpace, StringEndAt, BeforeCloser;
    CommaFollowsBound(s, out, i);
    if i < |s| {
      var e := UnitStop(s, i);
      CommaStep(s, out, i);
      CommasAgain(s, out, e);
      if s[i] == QUOTE {
        StringEndLocal(s, out, i + 1, e);
      } else if s[i] == COMMA {
        if BeforeCloser(s, i + 1) {
          NotStacked(s, i);
        } else {
          KeptComma(s, out, i);
        }
      }
      CommaFollowsBack(out, i);
    } else {
      CommaFollowsEnd(out, i);
    }
  }

  lemma CommaFollowsBound(s: Text, out: Text, i: nat)
    requires CommaFollows(s, out, i)
    ensures |out| == |s| && i <= |s|
  {
  }

  lemma CommaFollowsEnd(s: Text, i: nat)
    requires i == |s|
    ensures CommaFollows(s, s, i)
  {
  }

  lemma NotStacked(s: Text, i: nat)
    requires BeforeCloser(s, i + 1)
    ensures !Stacked(s, i)
  {
  }

  lemma CommaFollowsBack(s: Text, i: nat)
    requires i < |s|
    ensures CommaFollows(s, s, i) <==>
            CommaFollows(s, s, UnitStop(s, i)) && !(s[i] == COMMA && BeforeCloser(s, i + 1))
  {
    hide LiteralStop, BeforeCloser;
    var e := UnitStop(s, i);
    assert s[i..] == s[i..e] + s[e..];
    if CommaFollows(s, s, i) {
      CommaStep(s, s, i);
    }
  }

  /**
   * stripTrailingCommas keeps the length, turns commas outside literals into blanks and changes
   * nothing else, and keeps every literal at its offset. It is idempotent exactly when no comma
   * stands in front of a trailing comma.
   */
  lemma CommaProperties(s: Text)
    requires LiteralsEnd(s, 0)
    ensures var out := CommaText(s, 0);
            && |out| == |s| && LiteralsEnd(out, 0)
            && (CommaText(out, 0) == out <==> !HasStacked(s, 0))
            && (forall k :: 0 <= k < |s| ==> out[k] == if IsTrailing(s, 0, k) then 0x20 else s[k])
            && (forall k :: 0 <= k < |s| ==> InLiteral(out, 0, k) == InLiteral(s, 0, k))
  {
    var out := CommaText(s, 0);
    hide InLiteral, BeforeCloser, CommaText, IsTrailing, LiteralsEnd;
    WholeFollows(s);
    CommasAgain(s, out, 0);
    forall k | 0 <= k < |s| ensures out[k] == if IsTrailing(s, 0, k) then 0x20 else s[k] {
      TrailingAt(s, 0, k);
    }
    CommaFollowsAll(out);
  }

  lemma WholeFollows(s: Text)
    ensures CommaFollows(s, CommaText(s, 0), 0)
  {
    hide CommaText;
    assert CommaText(s, 0)[0..] == CommaText(s, 0);
  }

  lemma CommaFollowsAll(s: Text)
    ensures CommaFollows(s, s, 0) <==> CommaText(s, 0) == s
  {
    hide CommaText;
    assert s[0..] == s;
  }

  /** `[,,]` is blanked to `[, ]` and only then to `[  ]`. */
  lemma StackedExample()
    ensures var s := [LBRACKET, COMMA, COMMA, RBRACKET];
            HasStacked(s, 0) && CommaText(s, 0) == [LBRACKET, COMMA, SPACE, RBRACKET]
  {
    var s := [LBRACKET, COMMA, COMMA, RBRACKET];
    assert SkipSpace(s, 3) == 3 && SkipSpace(s, 2) == 2;
    assert CommaText(s, 4) == [] && CommaText(s, 3) == [RBRACKET];
    assert CommaText(s, 2) == [SPACE, RBRACKET] && CommaText(s, 1) == [COMMA, SPACE, RBRACKET];
  }
}
