// Documents with comments and trailing commas: what the two blanking passes and the parser
// make of a printed document.

module JsoncDocument {
  import opened Results
  import opened Texts
  import opened JsonText
  import opened JsonRoundTrip
  import opened JsoncBlanking

  // ---------------------------------------------------------------------------
  // Gaps
  // ---------------------------------------------------------------------------

  predicate IsClosedComment(t: Text, n: nat) {
    || (IsLineOpener(t, n) && LineEnd(t, n + 2) < |t|)
    || (IsBlockOpener(t, n) && BlockClose(t, n + 2).Some?)
  }

  /** From `n` on there are only white space and comments; the last one may be left open if `open`. */
  predicate GapFrom(t: Text, n: nat, open: bool)
    requires n <= |t|
    decreases |t| - n
  {
    || n == |t|
    || ((|| IsJsonSpace(t[n]) || IsClosedComment(t, n)
         || (open && (IsLineOpener(t, n) || IsBlockOpener(t, n))))
        && GapFrom(t, StopAt(t, n), open))
  }

  /** What may stand between two tokens. */
  predicate IsGap(t: Text) {
    GapFrom(t, 0, false)
  }

  /** What may stand behind the document's value: its last comment need not be closed. */
  predicate IsEnding(t: Text) {
    GapFrom(t, 0, true)
  }

  function BlankOf(t: Text): (r: Text)
    ensures |r| == |t|
  {
    StripText(t, 0)
  }

  lemma {:induction false} LineEndShift(s: Text, t: Text, i: nat, n: nat)
    requires At(s, i, t) && n <= |t|
    requires LineEnd(t, n) < |t| || i + |t| == |s|
    ensures i + n <= |s| && LineEnd(s, i + n) == i + LineEnd(t, n)
    decreases |t| - n
  {
    if n < |t| && t[n] != NEWLINE {
      LineEndShift(s, t, i, n + 1);
    }
  }

  lemma {:induction false} BlockCloseShift(s: Text, t: Text, i: nat, n: nat)
    requires At(s, i, t)
    requires BlockClose(t, n).Some? || i + |t| == |s|
    ensures BlockClose(s, i + n) == match BlockClose(t, n) case Some(e) => Some(i + e) case None => None
    decreases |t| - n
  {
    if n + 1 < |t| {
      assert s[i + n] == t[n] && s[i + (n + 1)] == t[n + 1];
      if !(t[n] == STAR && t[n + 1] == SLASH) {
        BlockCloseShift(s, t, i, n + 1);
      }
    }
  }

  /** A gap's lexeme is the same lexeme where the gap stands in a text. */
  lemma GapLexeme(s: Text, t: Text, i: nat, n: nat, open: bool)
    requires At(s, i, t) && n < |t| && GapFrom(t, n, open)
    requires open ==> i + |t| == |s|
    ensures i + n < |s| && KindAt(s, i + n) == KindAt(t, n) && StopAt(s, i + n) == i + StopAt(t, n)
    ensures s[i + n] == t[n] && t[n] != QUOTE
    ensures KindAt(t, n).Plain? ==> IsJsonSpace(t[n])
  {
    hide LineEnd, BlockClose;
    AtElement(s, i, t, n);
    if n + 1 < |t| {
      AtElement(s, i, t, n + 1);
    }
    if IsLineOpener(t, n) {
      LineEndShift(s, t, i, n + 2);
    } else if IsBlockOpener(t, n) {
      BlockCloseShift(s, t, i, n + 2);
    }
  }

  lemma {:induction false} GapStrips(s: Text, out: Text, i: nat, t: Text, tb: Text, n: nat, open: bool)
    requires At(s, i, t) && n <= |t| && GapFrom(t, n, open) && (open ==> i + |t| == |s|)
    requires Follows(s, out, i + n) && Follows(t, tb, n)
    ensures Follows(s, out, i + |t|) && Lexes(s, i + n) == Lexes(s, i + |t|)
    ensures |out| == |s| && |tb| == |t| && i + |t| <= |s|
    ensures forall k :: n <= k < |t| ==> out[i + k] == tb[k] && IsJsonSpace(tb[k])
    decreases |t| - n
  {
    hide Follows, KindAt, StopAt, At;
    FollowsLength(s, out, i + n);
    FollowsLength(t, tb, n);
    AtBound(s, i, t);
    if n < |t| {
      var e := StopAt(t, n);
      GapLexeme(s, t, i, n, open);
      FollowsStep(s, out, i + n);
      FollowsStep(t, tb, n);
      GapStrips(s, out, i, t, tb, e, open);
      forall k | n <= k < e ensures out[i + k] == tb[k] && IsJsonSpace(tb[k]) {
        AtElement(s, i, t, k);
        PlainStop(t, n);
      }
    }
  }

  lemma PlainStop(s: Text, i: nat)
    requires i < |s|
    ensures KindAt(s, i).Plain? ==> StopAt(s, i) == i + 1
    ensures KindAt(s, i).Literal? <==> s[i] == QUOTE
  {
  }

  lemma StripsGap(s: Text, out: Text, i: nat, t: Text)
    requires At(s, i, t) && IsGap(t) && Follows(s, out, i)
    ensures Follows(s, out, i + |t|) && Lexes(s, i) == Lexes(s, i + |t|)
    ensures At(out, i, BlankOf(t)) && AllJsonSpace(BlankOf(t))
  {
    hide StripText, GapFrom, Lexes;
    GapFollows(t);
    GapStrips(s, out, i, t, BlankOf(t), 0, false);
  }

  lemma GapFollows(t: Text)
    ensures Follows(t, BlankOf(t), 0)
  {
    assert StripText(t, 0)[0..] == StripText(t, 0);
  }

  lemma StripsEnding(s: Text, out: Text, i: nat, t: Text)
    requires At(s, i, t) && IsEnding(t) && Follows(s, out, i) && i + |t| == |s|
    ensures Follows(s, out, |s|) && Lexes(s, i)
    ensures At(out, i, BlankOf(t)) && AllJsonSpace(BlankOf(t))
  {
    hide StripText, GapFrom;
    GapFollows(t);
    GapStrips(s, out, i, t, BlankOf(t), 0, true);
  }

  // ---------------------------------------------------------------------------
  // Blanking the comments of a printed value
  // ---------------------------------------------------------------------------

  /** Characters that are neither quotes nor slashes are kept one by one. */
  lemma {:induction false} StripsPlain(s: Text, out: Text, i: nat, p: Text)
    requires At(s, i, p) && Follows(s, out, i)
    requires forall k :: 0 <= k < |p| ==> p[k] != QUOTE && p[k] != SLASH
    ensures Follows(s, out, i + |p|) && Lexes(s, i) == Lexes(s, i + |p|) && At(out, i, p)
    decreases |p|
  {
    hide Follows, StripText;
    FollowsLength(s, out, i);
    if p != [] {
      AtElement(s, i, p, 0);
      AtBound(s, i, p);
      FollowsStep(s, out, i);
      AtDrop(s, i, p, 1);
      StripsPlain(s, out, i + 1, p[1..]);
      forall k | 0 <= k < |p| ensures out[i + k] == p[k] {
        if k > 0 {
          assert out[i + 1 + (k - 1)] == p[1..][k - 1];
        }
      }
    }
  }

  lemma StripsLiteral(s: Text, out: Text, i: nat, b: Text)
    requires Decode(b).Some? && At(s, i, [QUOTE] + b + [QUOTE]) && Follows(s, out, i)
    ensures var p := [QUOTE] + b + [QUOTE];
            Follows(s, out, i + |p|) && Lexes(s, i) == Lexes(s, i + |p|) && At(out, i, p)
  {
    hide Follows, At, Decode, StringEndAt, LineEnd, BlockClose;
    FollowsLength(s, out, i);
    LiteralSpan(s, i, b);
    FollowsStep(s, out, i);
    AtCopy(s, out, i, [QUOTE] + b + [QUOTE]);
  }

  function BlankedLabel(l: Label): Label {
    match l
    case NoLabel => NoLabel
    case Label(b, mid, gap) => Label(b, BlankOf(mid), BlankOf(gap))
  }

  function BlankedTail(t: Tail): Tail {
    t.(ws := BlankOf(t.ws))
  }

  /** The value's syntax with its comments blanked. */
  function Blanked(v: Syntax): Syntax
    decreases v, 1
  {
    match v
    case Group(obj, es, tail) => Group(obj, BlankedEntries(es), BlankedTail(tail))
    case _ => v
  }

  function BlankedEntry(e: Entry): Entry
    decreases e, 2
  {
    Entry(BlankOf(e.pre), BlankedLabel(e.tag), Blanked(e.value), BlankOf(e.post))
  }

  function BlankedEntries(es: seq<Entry>): (r: seq<Entry>)
    ensures |r| == |es|
    ensures forall k :: 0 <= k < |es| ==> r[k] == BlankedEntry(es[k])
    decreases es, 0
  {
    if es == [] then [] else [BlankedEntry(es[0])] + BlankedEntries(es[1..])
  }

  lemma StripsLabel(s: Text, out: Text, i: nat, l: Label)
    requires l.Label? ==> Decode(l.body).Some? && IsGap(l.mid) && IsGap(l.gap)
    requires At(s, i, PrintLabel(l)) && Follows(s, out, i)
    ensures Follows(s, out, i + |PrintLabel(l)|) && Lexes(s, i) == Lexes(s, i + |PrintLabel(l)|)
    ensures At(out, i, PrintLabel(BlankedLabel(l)))
    ensures |PrintLabel(BlankedLabel(l))| == |PrintLabel(l)|
    ensures l.Label? ==> AllJsonSpace(BlankOf(l.mid)) && AllJsonSpace(BlankOf(l.gap))
  {
    hide At, Follows, Decode, IsGap, BlankOf, Lexes, AllJsonSpace;
    if l.Label? {
      var b, mid, gap := l.body, l.mid, l.gap;
      var lit := [QUOTE] + b + [QUOTE];
      LabelSplit(s, i, l);
      StripsLiteral(s, out, i, b);
      StripsGap(s, out, i + |lit|, mid);
      StripsPlain(s, out, i + |lit| + |mid|, [COLON]);
      StripsGap(s, out, i + |lit| + |mid| + 1, gap);
      AtJoin(out, i, lit, BlankOf(mid));
      AtJoin(out, i, lit + BlankOf(mid), [COLON]);
      AtJoin(out, i, lit + BlankOf(mid) + [COLON], BlankOf(gap));
    } else {
      AtNothing(s, out, i);
    }
  }

  lemma AtNothing(s: Text, out: Text, i: nat)
    requires Follows(s, out, i)
    ensures At(out, i, [])
  {
  }

  /** Blanking the comments of a printed value prints the value with blanked gaps. */
  lemma {:induction false} StripsValue(s: Text, out: Text, i: nat, v: Syntax)
    requires WellFormed(v, IsGap, true) && At(s, i, Print(v)) && Follows(s, out, i)
    ensures Follows(s, out, i + |Print(v)|) && Lexes(s, i) == Lexes(s, i + |Print(v)|)
    ensures At(out, i, Print(Blanked(v))) && |Print(Blanked(v))| == |Print(v)|
    ensures WellFormed(Blanked(v), AllJsonSpace, true)
    decreases v, 1
  {
    hide At, Follows, Decode, IsGap, BlankOf, Lexes, IsNumber, AllJsonSpace;
    match v {
      case Scalar(t) =>
        StripsPlain(s, out, i, t);
      case Str(b) =>
        StripsLiteral(s, out, i, b);
      case Group(obj, es, tail) =>
        GroupParts(s, i, obj, es, tail);
        StripsPlain(s, out, i, [Opener(obj)]);
        StripsGroup(s, out, i + 1, obj, es, tail);
    }
  }

  lemma {:induction false} StripsGroup(s: Text, out: Text, i: nat, obj: bool, es: seq<Entry>, tail: Tail)
    requires WellFormed(Group(obj, es, tail), IsGap, true)
    requires Follows(s, out, i) && i > 0 && At(out, i - 1, [Opener(obj)])
    requires At(s, i, PrintEntries(es)) && At(s, i + |PrintEntries(es)|, PrintTail(tail))
    requires At(s, i + |PrintEntries(es)| + |PrintTail(tail)|, [Closer(obj)])
    ensures var j := i + |PrintEntries(es)| + |PrintTail(tail)| + 1;
            Follows(s, out, j) && Lexes(s, i) == Lexes(s, j)
    ensures var b := Blanked(Group(obj, es, tail));
            && At(out, i - 1, Print(b)) && |Print(b)| == |PrintEntries(es)| + |PrintTail(tail)| + 2
            && WellFormed(b, AllJsonSpace, true)
    decreases es, 3
  {
    hide At, Follows, Lexes, IsGap, AllJsonSpace, WellFormedEntries, PrintEntries, PrintTail, BlankOf, BlankedTail, Print;
    var j := i + |PrintEntries(es)|;
    StripsEntries(s, out, i, obj, es);
    StripsTail(s, out, j, tail);
    StripsPlain(s, out, j + |PrintTail(tail)|, [Closer(obj)]);
    JoinsGroup(out, i - 1, obj, BlankedEntries(es), BlankedTail(tail));
    BlankedShape(es, tail);
  }

  lemma BlankedShape(es: seq<Entry>, tail: Tail)
    ensures es == [] <==> BlankedEntries(es) == []
    ensures BlankedTail(tail).TrailingComma? == tail.TrailingComma?
  {
  }

  lemma JoinsGroup(s: Text, i: nat, obj: bool, es: seq<Entry>, tail: Tail)
    requires At(s, i, [Opener(obj)]) && At(s, i + 1, PrintEntries(es))
    requires At(s, i + 1 + |PrintEntries(es)|, PrintTail(tail))
    requires At(s, i + 1 + |PrintEntries(es)| + |PrintTail(tail)|, [Closer(obj)])
    ensures At(s, i, Print(Group(obj, es, tail)))
    ensures |Print(Group(obj, es, tail))| == |PrintEntries(es)| + |PrintTail(tail)| + 2
  {
    hide At, PrintEntries, PrintTail;
    AtJoin(s, i, [Opener(obj)], PrintEntries(es));
    AtJoin(s, i, [Opener(obj)] + PrintEntries(es), PrintTail(tail));
    AtJoin(s, i, [Opener(obj)] + PrintEntries(es) + PrintTail(tail), [Closer(obj)]);
  }

  lemma StripsTail(s: Text, out: Text, i: nat, tail: Tail)
    requires IsGap(tail.ws) && At(s, i, PrintTail(tail)) && Follows(s, out, i)
    ensures Follows(s, out, i + |PrintTail(tail)|) && Lexes(s, i) == Lexes(s, i + |PrintTail(tail)|)
    ensures At(out, i, PrintTail(BlankedTail(tail))) && |PrintTail(BlankedTail(tail))| == |PrintTail(tail)|
    ensures AllJsonSpace(BlankedTail(tail).ws) && (tail.ws == [] ==> BlankedTail(tail).ws == [])
  {
    hide At, Follows, IsGap, BlankOf, Lexes, AllJsonSpace;
    if tail.TrailingComma? {
      AtSplit(s, i, [COMMA], tail.ws);
      StripsPlain(s, out, i, [COMMA]);
      StripsGap(s, out, i + 1, tail.ws);
      AtJoin(out, i, [COMMA], BlankOf(tail.ws));
    } else {
      StripsGap(s, out, i, tail.ws);
    }
  }

  lemma {:induction false} StripsEntry(s: Text, out: Text, i: nat, obj: bool, e: Entry)
    requires WellFormedEntry(obj, e, IsGap, true) && At(s, i, PrintEntry(e)) && Follows(s, out, i)
    ensures Follows(s, out, i + |PrintEntry(e)|) && Lexes(s, i) == Lexes(s, i + |PrintEntry(e)|)
    ensures At(out, i, PrintEntry(BlankedEntry(e))) && |PrintEntry(BlankedEntry(e))| == |PrintEntry(e)|
    ensures WellFormedEntry(obj, BlankedEntry(e), AllJsonSpace, true)
    decreases e, 2
  {
    hide At, Follows, Decode, IsGap, BlankOf, Lexes, WellFormed, Print, PrintLabel, AllJsonSpace;
    var l, p := PrintLabel(e.tag), Print(e.value);
    EntrySplit(s, i, e);
    StripsGap(s, out, i, e.pre);
    StripsLabel(s, out, i + |e.pre|, e.tag);
    StripsValue(s, out, i + |e.pre| + |l|, e.value);
    StripsGap(s, out, i + |e.pre| + |l| + |p|, e.post);
    var b := BlankedEntry(e);
    AtJoin(out, i, b.pre, PrintLabel(b.tag));
    AtJoin(out, i, b.pre + PrintLabel(b.tag), Print(b.value));
    AtJoin(out, i, b.pre + PrintLabel(b.tag) + Print(b.value), b.post);
  }

  lemma {:induction false} StripsEntries(s: Text, out: Text, i: nat, obj: bool, es: seq<Entry>)
    requires WellFormedEntries(obj, es, IsGap, true) && At(s, i, PrintEntries(es)) && Follows(s, out, i)
    ensures Follows(s, out, i + |PrintEntries(es)|) && Lexes(s, i) == Lexes(s, i + |PrintEntries(es)|)
    ensures At(out, i, PrintEntries(BlankedEntries(es)))
    ensures |PrintEntries(BlankedEntries(es))| == |PrintEntries(es)|
    ensures WellFormedEntries(obj, BlankedEntries(es), AllJsonSpace, true)
    decreases es, 0
  {
    hide At, Follows, Lexes, WellFormedEntry, PrintEntry, BlankedEntry, IsGap, AllJsonSpace;
    if es == [] {
      AtNothing(s, out, i);
    } else {
      var first, b := PrintEntry(es[0]), PrintEntry(BlankedEntry(es[0]));
      assert WellFormedEntry(obj, es[0], IsGap, true);
      FirstOfEntries(s, i, es);
      StripsEntry(s, out, i, obj, es[0]);
      if |es| > 1 {
        StripsPlain(s, out, i + |first|, [COMMA]);
        StripsEntries(s, out, i + |first| + 1, obj, es[1..]);
        AtJoin(out, i + |first|, [COMMA], PrintEntries(BlankedEntries(es[1..])));
        AtJoin(out, i, b, [COMMA] + PrintEntries(BlankedEntries(es[1..])));
        assert BlankedEntries(es)[1..] == BlankedEntries(es[1..]);
      } else {
        assert PrintEntries(BlankedEntries(es)) == b;
      }
    }
  }

  // ---------------------------------------------------------------------------
  // Blanking the trailing commas of a printed value
  // ---------------------------------------------------------------------------

  function ExtendLast(es: seq<Entry>, t: Text): seq<Entry>
    requires es != []
  {
    var k := |es| - 1;
    es[k := es[k].(post := es[k].post + t)]
  }

  /** The value's syntax with every trailing comma turned into a space. */
  function Uncommaed(v: Syntax): Syntax
    decreases v, 1
  {
    match v
    case Group(obj, es, tail) =>
      if es != [] then Group(obj, ExtendLast(UncommaedEntries(es), TailBlank(tail)), NoComma([]))
      else Group(obj, [], NoComma(tail.ws))
    case _ => v
  }

  function TailBlank(tail: Tail): Text {
    if tail.TrailingComma? then [SPACE] + tail.ws else tail.ws
  }

  function UncommaedEntry(e: Entry): Entry
    decreases e, 2
  {
    e.(value := Uncommaed(e.value))
  }

  function UncommaedEntries(es: seq<Entry>): (r: seq<Entry>)
    ensures |r| == |es|
    ensures forall k :: 0 <= k < |es| ==> r[k] == UncommaedEntry(es[k])
    decreases es, 0
  {
    if es == [] then [] else [UncommaedEntry(es[0])] + UncommaedEntries(es[1..])
  }

  lemma {:induction false} ExtendLastPrints(es: seq<Entry>, t: Text)
    requires es != []
    ensures PrintEntries(ExtendLast(es, t)) == PrintEntries(es) + t
    decreases |es|
  {
    hide PrintLabel, Print;
    var r := ExtendLast(es, t);
    if |es| == 1 {
      assert PrintEntries(r) == PrintEntry(r[0]);
    } else {
      ExtendLastPrints(es[1..], t);
      assert r[1..] == ExtendLast(es[1..], t) && r[0] == es[0];
      var e, m := PrintEntry(es[0]), [COMMA];
      assert e + (m + (PrintEntries(es[1..]) + t)) == e + (m + PrintEntries(es[1..])) + t;
      assert m + (PrintEntries(es[1..]) + t) == m + PrintEntries(es[1..]) + t;
    }
  }

  /** Characters that are neither quotes nor commas are kept one by one. */
  lemma {:induction false} CommasPlain(s: Text, out: Text, i: nat, p: Text)
    requires At(s, i, p) && CommaFollows(s, out, i)
    requires forall k :: 0 <= k < |p| ==> p[k] != QUOTE && p[k] != COMMA
    ensures CommaFollows(s, out, i + |p|) && LiteralsEnd(s, i) == LiteralsEnd(s, i + |p|) && At(out, i, p)
    decreases |p|
  {
    hide CommaFollows, CommaText;
    CommaFollowsBound(s, out, i);
    if p != [] {
      AtElement(s, i, p, 0);
      AtBound(s, i, p);
      CommaStep(s, out, i);
      AtDrop(s, i, p, 1);
      CommasPlain(s, out, i + 1, p[1..]);
      forall k | 0 <= k < |p| ensures out[i + k] == p[k] {
        if k > 0 {
          assert out[i + 1 + (k - 1)] == p[1..][k - 1];
        }
      }
    }
  }

  lemma CommasGap(s: Text, out: Text, i: nat, p: Text)
    requires At(s, i, p) && CommaFollows(s, out, i) && AllJsonSpace(p)
    ensures CommaFollows(s, out, i + |p|) && LiteralsEnd(s, i) == LiteralsEnd(s, i + |p|) && At(out, i, p)
  {
    hide CommaFollows, At, LiteralsEnd;
    CommasPlain(s, out, i, p);
  }

  lemma CommasLiteral(s: Text, out: Text, i: nat, b: Text)
    requires Decode(b).Some? && At(s, i, [QUOTE] + b + [QUOTE]) && CommaFollows(s, out, i)
    ensures var p := [QUOTE] + b + [QUOTE];
            CommaFollows(s, out, i + |p|) && LiteralsEnd(s, i) == LiteralsEnd(s, i + |p|) && At(out, i, p)
  {
    hide CommaFollows, At, Decode, StringEndAt, BeforeCloser;
    CommaFollowsBound(s, out, i);
    LiteralSpan(s, i, b);
    CommaStep(s, out, i);
    AtCopy(s, out, i, [QUOTE] + b + [QUOTE]);
  }

  lemma {:induction false} SkipSpaceTo(s: Text, i: nat, t: Text)
    requires At(s, i, t) && AllJsonSpace(t)
    requires i + |t| < |s| && !IsSpace(s[i + |t|])
    ensures SkipSpace(s, i) == i + |t|
    decreases |t|
  {
    hide At;
    if t != [] {
      AtElement(s, i, t, 0);
      AtDrop(s, i, t, 1);
      SkipSpaceTo(s, i + 1, t[1..]);
    }
  }

  /** A comma in front of another entry is kept. */
  lemma KeepsComma(s: Text, out: Text, i: nat, obj: bool, es: seq<Entry>)
    requires es != [] && WellFormedEntries(obj, es, AllJsonSpace, true)
    requires At(s, i, [COMMA]) && At(s, i + 1, PrintEntries(es)) && CommaFollows(s, out, i)
    ensures CommaFollows(s, out, i + 1) && LiteralsEnd(s, i) == LiteralsEnd(s, i + 1) && At(out, i, [COMMA])
  {
    hide CommaFollows, At, WellFormed, Print, PrintLabel, CommaText, SkipSpace, AllJsonSpace;
    var e := es[0];
    CommaFollowsBound(s, out, i);
    AtElement(s, i, [COMMA], 0);
    AtBound(s, i, [COMMA]);
    assert WellFormedEntry(obj, e, AllJsonSpace, true);
    FirstOfEntries(s, i + 1, es);
    StartsBehindGap(s, i + 1, obj, e);
    CommaStep(s, out, i);
    AtCopy(s, out, i, [COMMA]);
  }

  lemma StartsBehindGap(s: Text, i: nat, obj: bool, e: Entry)
    requires WellFormedEntry(obj, e, AllJsonSpace, true) && At(s, i, PrintEntry(e))
    ensures !BeforeCloser(s, i)
  {
    hide At, WellFormed, Print, SkipSpace, AllJsonSpace;
    var l, p := PrintLabel(e.tag), Print(e.value);
    PrintStarts(e.value, AllJsonSpace, true);
    AtSplit(s, i, e.pre + l + p, e.post);
    AtSplit(s, i, e.pre + l, p);
    AtSplit(s, i, e.pre, l);
    AtBound(s, i + |e.pre| + |l|, p);
    AtElement(s, i + |e.pre| + |l|, p, 0);
    if e.tag.Label? {
      AtElement(s, i + |e.pre|, l, 0);
    }
    SkipSpaceTo(s, i, e.pre);
  }

  /** A comma with only white space in front of a closing bracket becomes a space. */
  lemma DropsComma(s: Text, out: Text, i: nat, ws: Text, closer: Code)
    requires IsCloser(closer) && AllJsonSpace(ws)
    requires At(s, i, [COMMA]) && At(s, i + 1, ws) && At(s, i + 1 + |ws|, [closer]) && CommaFollows(s, out, i)
    ensures CommaFollows(s, out, i + 1) && LiteralsEnd(s, i) == LiteralsEnd(s, i + 1) && At(out, i, [SPACE])
  {
    hide CommaFollows, CommaText, SkipSpace, At;
    CommaFollowsBound(s, out, i);
    AtElement(s, i, [COMMA], 0);
    AtBound(s, i, [COMMA]);
    AtElement(s, i + 1 + |ws|, [closer], 0);
    AtBound(s, i + 1 + |ws|, [closer]);
    SkipSpaceTo(s, i + 1, ws);
    CommaStep(s, out, i);
    AtSingle(out, i, SPACE);
  }

  /** Blanking the trailing commas of a printed value prints strict syntax. */
  lemma {:induction false} CommasValue(s: Text, out: Text, i: nat, v: Syntax)
    requires WellFormed(v, AllJsonSpace, true) && At(s, i, Print(v)) && CommaFollows(s, out, i)
    ensures CommaFollows(s, out, i + |Print(v)|) && LiteralsEnd(s, i) == LiteralsEnd(s, i + |Print(v)|)
    ensures At(out, i, Print(Uncommaed(v))) && |Print(Uncommaed(v))| == |Print(v)|
    ensures Strict(Uncommaed(v))
    decreases v, 1
  {
    hide At, CommaFollows, Decode, LiteralsEnd, IsNumber;
    match v {
      case Scalar(t) =>
        CommasPlain(s, out, i, t);
      case Str(b) =>
        CommasLiteral(s, out, i, b);
      case Group(obj, es, tail) =>
        GroupParts(s, i, obj, es, tail);
        CommasPlain(s, out, i, [Opener(obj)]);
        CommasGroup(s, out, i + 1, obj, es, tail);
    }
  }

  lemma {:induction false} CommasGroup(s: Text, out: Text, i: nat, obj: bool, es: seq<Entry>, tail: Tail)
    requires WellFormed(Group(obj, es, tail), AllJsonSpace, true)
    requires CommaFollows(s, out, i) && i > 0 && At(out, i - 1, [Opener(obj)])
    requires At(s, i, PrintEntries(es)) && At(s, i + |PrintEntries(es)|, PrintTail(tail))
    requires At(s, i + |PrintEntries(es)| + |PrintTail(tail)|, [Closer(obj)])
    ensures var j := i + |PrintEntries(es)| + |PrintTail(tail)| + 1;
            && CommaFollows(s, out, j) && LiteralsEnd(s, i) == LiteralsEnd(s, j)
    ensures var u := Uncommaed(Group(obj, es, tail));
            && At(out, i - 1, Print(u)) && |Print(u)| == |PrintEntries(es)| + |PrintTail(tail)| + 2
            && Strict(u)
    decreases es, 3
  {
    hide At, CommaFollows, LiteralsEnd, AllJsonSpace, WellFormedEntries, PrintEntries, PrintTail, TailBlank, Strict;
    var j := i + |PrintEntries(es)|;
    CommasEntries(s, out, i, obj, es);
    CommasTail(s, out, j, obj, tail);
    CommasPlain(s, out, j + |PrintTail(tail)|, [Closer(obj)]);
    AssemblesGroup(out, i - 1, obj, es, tail);
  }

  lemma AssemblesGroup(out: Text, i: nat, obj: bool, es: seq<Entry>, tail: Tail)
    requires es == [] ==> tail.NoComma?
    requires var us := UncommaedEntries(es);
             && At(out, i, [Opener(obj)]) && At(out, i + 1, PrintEntries(us))
             && At(out, i + 1 + |PrintEntries(us)|, TailBlank(tail))
             && At(out, i + 1 + |PrintEntries(us)| + |TailBlank(tail)|, [Closer(obj)])
             && WellFormedEntries(obj, us, AllJsonSpace, false) && AllJsonSpace(TailBlank(tail))
    ensures var u := Uncommaed(Group(obj, es, tail));
            && At(out, i, Print(u))
            && |Print(u)| == |PrintEntries(UncommaedEntries(es))| + |TailBlank(tail)| + 2
            && Strict(u)
  {
    hide At, AllJsonSpace, WellFormedEntries, PrintEntries, ExtendLast, Strict, Print;
    NoEntriesStrict(obj);
    if es != [] {
      AssemblesEntries(out, i, obj, UncommaedEntries(es), TailBlank(tail));
    } else {
      JoinsGroup(out, i, obj, [], NoComma(tail.ws));
      StrictGroup(obj, [], tail.ws);
    }
  }

  lemma AssemblesEntries(out: Text, i: nat, obj: bool, us: seq<Entry>, ws: Text)
    requires us != [] && WellFormedEntries(obj, us, AllJsonSpace, false) && AllJsonSpace(ws)
    requires At(out, i, [Opener(obj)]) && At(out, i + 1, PrintEntries(us))
    requires At(out, i + 1 + |PrintEntries(us)|, ws) && At(out, i + 1 + |PrintEntries(us)| + |ws|, [Closer(obj)])
    ensures var u := Group(obj, ExtendLast(us, ws), NoComma([]));
            At(out, i, Print(u)) && |Print(u)| == |PrintEntries(us)| + |ws| + 2 && Strict(u)
  {
    hide At, AllJsonSpace, WellFormedEntries, PrintEntries, ExtendLast, Strict, Print;
    NoEntriesStrict(obj);
    AtBound(out, i + 1 + |PrintEntries(us)| + |ws|, [Closer(obj)]);
    ExtendLastPrints(us, ws);
    AtJoin(out, i + 1, PrintEntries(us), ws);
    AtNothingMore(out, i + 1 + |PrintEntries(us)| + |ws|);
    JoinsGroup(out, i, obj, ExtendLast(us, ws), NoComma([]));
    ExtendLastStrict(obj, us, ws);
    StrictGroup(obj, ExtendLast(us, ws), []);
  }

  lemma StrictGroup(obj: bool, es: seq<Entry>, ws: Text)
    requires WellFormedEntries(obj, es, AllJsonSpace, false) && AllJsonSpace(ws) && (es == [] || ws == [])
    ensures Strict(Group(obj, es, NoComma(ws)))
  {
  }

  lemma NoEntriesStrict(obj: bool)
    ensures WellFormedEntries(obj, [], AllJsonSpace, false) && AllJsonSpace([])
  {
  }

  lemma ExtendLastStrict(obj: bool, es: seq<Entry>, t: Text)
    requires es != [] && AllJsonSpace(t) && WellFormedEntries(obj, es, AllJsonSpace, false)
    ensures WellFormedEntries(obj, ExtendLast(es, t), AllJsonSpace, false)
  {
    var k := |es| - 1;
    assert WellFormedEntry(obj, es[k], AllJsonSpace, false);
    assert WellFormedEntry(obj, ExtendLast(es, t)[k], AllJsonSpace, false);
  }

  lemma CommasTail(s: Text, out: Text, i: nat, obj: bool, tail: Tail)
    requires AllJsonSpace(tail.ws) && At(s, i, PrintTail(tail)) && CommaFollows(s, out, i)
    requires At(s, i + |PrintTail(tail)|, [Closer(obj)])
    ensures CommaFollows(s, out, i + |PrintTail(tail)|)
    ensures LiteralsEnd(s, i) == LiteralsEnd(s, i + |PrintTail(tail)|)
    ensures At(out, i, TailBlank(tail)) && AllJsonSpace(TailBlank(tail))
    ensures |TailBlank(tail)| == |PrintTail(tail)|
  {
    hide At, CommaFollows, LiteralsEnd, AllJsonSpace;
    TailBlankSpace(tail);
    if tail.TrailingComma? {
      CommasTrailing(s, out, i, tail.ws, Closer(obj));
    } else {
      CommasGap(s, out, i, tail.ws);
    }
  }

  lemma CommasTrailing(s: Text, out: Text, i: nat, ws: Text, closer: Code)
    requires IsCloser(closer) && AllJsonSpace(ws)
    requires At(s, i, [COMMA] + ws) && At(s, i + |[COMMA] + ws|, [closer]) && CommaFollows(s, out, i)
    ensures CommaFollows(s, out, i + |[COMMA] + ws|)
    ensures LiteralsEnd(s, i) == LiteralsEnd(s, i + |[COMMA] + ws|)
    ensures At(out, i, [SPACE] + ws)
  {
    hide *;
    AtSplit(s, i, [COMMA], ws);
    DropsComma(s, out, i, ws, closer);
    CommasGap(s, out, i + 1, ws);
    AtJoin(out, i, [SPACE], ws);
  }

  lemma TailBlankSpace(tail: Tail)
    requires AllJsonSpace(tail.ws)
    ensures AllJsonSpace(TailBlank(tail))
  {
  }

  lemma CommasLabel(s: Text, out: Text, i: nat, l: Label)
    requires l.Label? ==> Decode(l.body).Some? && AllJsonSpace(l.mid) && AllJsonSpace(l.gap)
    requires At(s, i, PrintLabel(l)) && CommaFollows(s, out, i)
    ensures CommaFollows(s, out, i + |PrintLabel(l)|)
    ensures LiteralsEnd(s, i) == LiteralsEnd(s, i + |PrintLabel(l)|)
    ensures At(out, i, PrintLabel(l))
  {
    hide At, CommaFollows, Decode, LiteralsEnd, AllJsonSpace;
    if l.Label? {
      var b, mid, gap := l.body, l.mid, l.gap;
      var lit := [QUOTE] + b + [QUOTE];
      LabelSplit(s, i, l);
      CommasLiteral(s, out, i, b);
      CommasGap(s, out, i + |lit|, mid);
      CommasPlain(s, out, i + |lit| + |mid|, [COLON]);
      CommasGap(s, out, i + |lit| + |mid| + 1, gap);
      AtJoin(out, i, lit, mid);
      AtJoin(out, i, lit + mid, [COLON]);
      AtJoin(out, i, lit + mid + [COLON], gap);
    } else {
      CommaFollowsBound(s, out, i);
      AtNothingMore(out, i);
    }
  }

  lemma {:induction false} CommasEntry(s: Text, out: Text, i: nat, obj: bool, e: Entry)
    requires WellFormedEntry(obj, e, AllJsonSpace, true) && At(s, i, PrintEntry(e)) && CommaFollows(s, out, i)
    ensures CommaFollows(s, out, i + |PrintEntry(e)|) && LiteralsEnd(s, i) == LiteralsEnd(s, i + |PrintEntry(e)|)
    ensures At(out, i, PrintEntry(UncommaedEntry(e))) && |PrintEntry(UncommaedEntry(e))| == |PrintEntry(e)|
    ensures WellFormedEntry(obj, UncommaedEntry(e), AllJsonSpace, false)
    decreases e, 2
  {
    hide At, CommaFollows, Decode, LiteralsEnd, WellFormed, Print, PrintLabel, AllJsonSpace;
    var l, p := PrintLabel(e.tag), Print(e.value);
    EntrySplit(s, i, e);
    CommasGap(s, out, i, e.pre);
    CommasLabel(s, out, i + |e.pre|, e.tag);
    CommasValue(s, out, i + |e.pre| + |l|, e.value);
    CommasGap(s, out, i + |e.pre| + |l| + |p|, e.post);
    var b := UncommaedEntry(e);
    AtJoin(out, i, b.pre, l);
    AtJoin(out, i, b.pre + l, Print(b.value));
    AtJoin(out, i, b.pre + l + Print(b.value), b.post);
  }

  lemma {:induction false} CommasEntries(s: Text, out: Text, i: nat, obj: bool, es: seq<Entry>)
    requires WellFormedEntries(obj, es, AllJsonSpace, true) && At(s, i, PrintEntries(es)) && CommaFollows(s, out, i)
    ensures CommaFollows(s, out, i + |PrintEntries(es)|)
    ensures LiteralsEnd(s, i) == LiteralsEnd(s, i + |PrintEntries(es)|)
    ensures At(out, i, PrintEntries(UncommaedEntries(es)))
    ensures |PrintEntries(UncommaedEntries(es))| == |PrintEntries(es)|
    ensures WellFormedEntries(obj, UncommaedEntries(es), AllJsonSpace, false)
    decreases es, 0
  {
    hide At, CommaFollows, LiteralsEnd, WellFormedEntry, PrintEntry, UncommaedEntry;
    if es == [] {
      CommaFollowsBound(s, out, i);
      AtNothingMore(out, i);
    } else {
      var first, b := PrintEntry(es[0]), PrintEntry(UncommaedEntry(es[0]));
      assert WellFormedEntry(obj, es[0], AllJsonSpace, true);
      FirstOfEntries(s, i, es);
      CommasEntry(s, out, i, obj, es[0]);
      if |es| > 1 {
        KeepsComma(s, out, i + |first|, obj, es[1..]);
        CommasEntries(s, out, i + |first| + 1, obj, es[1..]);
        AtJoin(out, i + |first|, [COMMA], PrintEntries(UncommaedEntries(es[1..])));
        AtJoin(out, i, b, [COMMA] + PrintEntries(UncommaedEntries(es[1..])));
        assert UncommaedEntries(es)[1..] == UncommaedEntries(es[1..]);
      } else {
        assert PrintEntries(UncommaedEntries(es)) == b;
      }
    }
  }

  // ---------------------------------------------------------------------------
  // Documents
  // ---------------------------------------------------------------------------

  /** A document: its value between a gap and an ending. */
  datatype Document = Document(lead: Text, root: Syntax, trail: Text)

  function PrintDocument(d: Document): Text {
    d.lead + Print(d.root) + d.trail
  }

  ghost predicate ValidDocument(d: Document) {
    IsGap(d.lead) && WellFormed(d.root, IsGap, true) && IsEnding(d.trail)
  }

  function BlankedDocument(d: Document): Document {
    Document(BlankOf(d.lead), Blanked(d.root), BlankOf(d.trail))
  }

  /** parseConfigJson: both blanking passes, then JSON.parse. */
  function ParseConfig(raw: Text): Option<Json> {
    if !Lexes(raw, 0) then None
    else var t := StripText(raw, 0);
         if !LiteralsEnd(t, 0) then None else JsonParse(CommaText(t, 0))
  }

  lemma DocumentParts(s: Text, d: Document)
    requires s == PrintDocument(d)
    ensures At(s, 0, d.lead) && At(s, |d.lead|, Print(d.root)) && At(s, |d.lead| + |Print(d.root)|, d.trail)
    ensures |s| == |d.lead| + |Print(d.root)| + |d.trail|
  {
    hide Print;
    AtWhole(s);
    AtSplit(s, 0, d.lead + Print(d.root), d.trail);
    AtSplit(s, 0, d.lead, Print(d.root));
  }

  lemma StripsParts(raw: Text, out: Text, d: Document)
    requires ValidDocument(d) && Follows(raw, out, 0)
    requires At(raw, 0, d.lead) && At(raw, |d.lead|, Print(d.root)) && At(raw, |d.lead| + |Print(d.root)|, d.trail)
    requires |raw| == |d.lead| + |Print(d.root)| + |d.trail|
    ensures Lexes(raw, 0)
    ensures var b := BlankedDocument(d);
            && AllJsonSpace(b.lead) && AllJsonSpace(b.trail) && WellFormed(b.root, AllJsonSpace, true)
            && |b.lead| == |d.lead| && |Print(b.root)| == |Print(d.root)| && |b.trail| == |d.trail|
            && At(out, 0, PrintDocument(b))
  {
    hide At, Follows, Lexes, Print, WellFormed, AllJsonSpace, GapFrom, Blanked;
    StripsGap(raw, out, 0, d.lead);
    StripsValue(raw, out, |d.lead|, d.root);
    StripsEnding(raw, out, |d.lead| + |Print(d.root)|, d.trail);
    var b := BlankedDocument(d);
    AtJoin(out, 0, b.lead, Print(b.root));
    AtJoin(out, 0, b.lead + Print(b.root), b.trail);
  }

  /** Blanking the comments of a document prints the document with blanked gaps. */
  lemma StripsDocument(d: Document)
    requires ValidDocument(d)
    ensures var raw := PrintDocument(d);
            && Lexes(raw, 0) && StripText(raw, 0) == PrintDocument(BlankedDocument(d))
    ensures var b := BlankedDocument(d);
            && AllJsonSpace(b.lead) && AllJsonSpace(b.trail) && WellFormed(b.root, AllJsonSpace, true)
            && |b.lead| == |d.lead| && |Print(b.root)| == |Print(d.root)| && |b.trail| == |d.trail|
  {
    hide At, Follows, Lexes, Print, WellFormed, AllJsonSpace, BlankedDocument, ValidDocument;
    var raw := PrintDocument(d);
    DocumentParts(raw, d);
    GapFollows(raw);
    StripsParts(raw, StripText(raw, 0), d);
    AtAll(StripText(raw, 0), PrintDocument(BlankedDocument(d)));
  }

  lemma CommasDocument(d: Document)
    requires AllJsonSpace(d.lead) && AllJsonSpace(d.trail) && WellFormed(d.root, AllJsonSpace, true)
    ensures var s := PrintDocument(d);
            LiteralsEnd(s, 0) && CommaText(s, 0) == PrintDocument(d.(root := Uncommaed(d.root)))
    ensures Strict(Uncommaed(d.root))
  {
    hide At, CommaFollows, LiteralsEnd, Print, WellFormed, AllJsonSpace;
    var s := PrintDocument(d);
    var out := CommaText(s, 0);
    DocumentParts(s, d);
    CommaFollowsWhole(s);
    CommasGap(s, out, 0, d.lead);
    CommasValue(s, out, |d.lead|, d.root);
    CommasGap(s, out, |d.lead| + |Print(d.root)|, d.trail);
    LiteralsEndAtEnd(s);
    var u := Uncommaed(d.root);
    AtJoin(out, 0, d.lead, Print(u));
    AtJoin(out, 0, d.lead + Print(u), d.trail);
    AtAll(out, PrintDocument(d.(root := u)));
  }

  lemma CommaFollowsWhole(s: Text)
    ensures CommaFollows(s, CommaText(s, 0), 0)
  {
    assert CommaText(s, 0)[0..] == CommaText(s, 0);
  }

  lemma LiteralsEndAtEnd(s: Text)
    ensures LiteralsEnd(s, |s|)
  {
  }

  lemma {:induction false} SameDenotation(v: Syntax)
    ensures Denote(Blanked(v)) == Denote(v) && Denote(Uncommaed(v)) == Denote(v)
    decreases v, 1
  {
    if v.Group? {
      var es := v.entries;
      forall k | 0 <= k < |es|
        ensures Denote(Blanked(es[k].value)) == Denote(Uncommaed(es[k].value)) == Denote(es[k].value)
      {
        SameDenotation(es[k].value);
      }
      assert DenoteEntries(BlankedEntries(es)) == DenoteEntries(es);
      if es != [] {
        var us := ExtendLast(UncommaedEntries(es), TailBlank(v.tail));
        assert DenoteEntries(us) == DenoteEntries(es);
      }
    }
  }

  /** A document parses to the value that its syntax denotes. */
  lemma ParsesConfig(d: Document)
    requires ValidDocument(d)
    ensures ParseConfig(PrintDocument(d)) == Some(Denote(d.root))
  {
    hide At, Print, WellFormed, AllJsonSpace, Lexes, LiteralsEnd, CommaText, StripText, JsonParse, Denote,
         Blanked, Uncommaed, ValidDocument;
    var b := BlankedDocument(d);
    StripsDocument(d);
    CommasDocument(b);
    ParsesDocument(b.lead, Uncommaed(b.root), b.trail);
    SameDenotation(d.root);
    SameDenotation(b.root);
  }
}
