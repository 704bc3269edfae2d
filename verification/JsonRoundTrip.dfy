// Parsing what the syntax prints gives the value that the syntax denotes.

module JsonRoundTrip {
  import opened Results
  import opened Texts
  import opened JsonText

  // ---------------------------------------------------------------------------
  // Where the parts of a printed piece of syntax stand
  // ---------------------------------------------------------------------------

  lemma LabelSplit(s: Text, i: nat, l: Label)
    requires l.Label? && At(s, i, PrintLabel(l))
    ensures At(s, i, [QUOTE] + l.body + [QUOTE]) && At(s, i + |l.body| + 2, l.mid)
    ensures At(s, i + |l.body| + 2 + |l.mid|, [COLON]) && At(s, i + |l.body| + 3 + |l.mid|, l.gap)
    ensures |PrintLabel(l)| == |l.body| + |l.mid| + |l.gap| + 3
  {
    hide At;
    var lit := [QUOTE] + l.body + [QUOTE];
    AtSplit(s, i, lit + l.mid + [COLON], l.gap);
    AtSplit(s, i, lit + l.mid, [COLON]);
    AtSplit(s, i, lit, l.mid);
  }

  lemma EntrySplit(s: Text, i: nat, e: Entry)
    requires At(s, i, PrintEntry(e))
    ensures At(s, i, e.pre) && At(s, i + |e.pre|, PrintLabel(e.tag))
    ensures At(s, i + |e.pre| + |PrintLabel(e.tag)|, Print(e.value))
    ensures At(s, i + |e.pre| + |PrintLabel(e.tag)| + |Print(e.value)|, e.post)
    ensures |PrintEntry(e)| == |e.pre| + |PrintLabel(e.tag)| + |Print(e.value)| + |e.post|
  {
    hide At, Print, PrintLabel;
    var l, p := PrintLabel(e.tag), Print(e.value);
    AtSplit(s, i, e.pre + l + p, e.post);
    AtSplit(s, i, e.pre + l, p);
    AtSplit(s, i, e.pre, l);
  }

  lemma FirstOfEntries(s: Text, i: nat, es: seq<Entry>)
    requires es != [] && At(s, i, PrintEntries(es))
    ensures At(s, i, PrintEntry(es[0]))
    ensures |es| == 1 ==> PrintEntries(es) == PrintEntry(es[0])
    ensures |es| > 1 ==>
              var n := i + |PrintEntry(es[0])|;
              && n < |s| && s[n] == COMMA && At(s, n, [COMMA]) && At(s, n + 1, PrintEntries(es[1..]))
              && |PrintEntries(es)| == |PrintEntry(es[0])| + 1 + |PrintEntries(es[1..])|
  {
    hide At, PrintEntry;
    var first := PrintEntry(es[0]);
    if |es| > 1 {
      AtSplit(s, i, first, [COMMA] + PrintEntries(es[1..]));
      AtSplit(s, i + |first|, [COMMA], PrintEntries(es[1..]));
      AtElement(s, i + |first|, [COMMA], 0);
      AtBound(s, i + |first|, [COMMA]);
    } else {
      assert PrintEntries(es) == first;
    }
  }

  lemma GroupParts(s: Text, i: nat, obj: bool, es: seq<Entry>, tail: Tail)
    requires At(s, i, Print(Group(obj, es, tail)))
    ensures At(s, i, [Opener(obj)]) && At(s, i + 1, PrintEntries(es))
    ensures At(s, i + 1 + |PrintEntries(es)|, PrintTail(tail))
    ensures At(s, i + 1 + |PrintEntries(es)| + |PrintTail(tail)|, [Closer(obj)])
    ensures |Print(Group(obj, es, tail))| == |PrintEntries(es)| + |PrintTail(tail)| + 2
  {
    hide At, PrintEntries, PrintTail;
    AtSplit(s, i, [Opener(obj)] + PrintEntries(es) + PrintTail(tail), [Closer(obj)]);
    AtSplit(s, i, [Opener(obj)] + PrintEntries(es), PrintTail(tail));
    AtSplit(s, i, [Opener(obj)], PrintEntries(es));
  }

  // ---------------------------------------------------------------------------
  // Parsing
  // ---------------------------------------------------------------------------

  lemma LiteralSpan(s: Text, i: nat, b: Text)
    requires Decode(b).Some? && At(s, i, [QUOTE] + b + [QUOTE])
    ensures i + |b| + 2 <= |s| && s[i] == QUOTE
    ensures StringEndAt(s, i + 1) == Some(i + |b| + 2) && At(s, i + 1, b)
  {
    hide *;
    AtBound(s, i, [QUOTE] + b + [QUOTE]);
    AtSplit(s, i, [QUOTE] + b, [QUOTE]);
    AtSplit(s, i, [QUOTE], b);
    AtElement(s, i, [QUOTE], 0);
    AtElement(s, i + 1 + |b|, [QUOTE], 0);
    BodyEnd(s, i + 1, b);
  }

  lemma ParsesLiteral(s: Text, i: nat, b: Text)
    requires Decode(b).Some? && At(s, i, [QUOTE] + b + [QUOTE])
    ensures i + |b| + 2 <= |s| && s[i] == QUOTE
    ensures ParseLiteral(s, i) == Done(Decode(b).value, i + |b| + 2)
  {
    hide At, Decode, StringEndAt;
    LiteralSpan(s, i, b);
    SliceIs(s, i + 1, b);
  }

  lemma ParsesLabel(s: Text, i: nat, l: Label)
    requires l.Label? && Decode(l.body).Some? && AllJsonSpace(l.mid) && AllJsonSpace(l.gap)
    requires At(s, i, PrintLabel(l))
    ensures var j := i + |PrintLabel(l)| - |l.gap|;
            && At(s, j, l.gap)
            && ParseLabel(true, s, i) == Done(KeyOf(l), j)
  {
    hide At, Decode, ParseLiteral, AllJsonSpace, SkipJsonSpace, PrintLabel;
    LabelSplit(s, i, l);
    ParsesLiteral(s, i, l.body);
    var e := i + |l.body| + 2;
    AtBound(s, e + |l.mid|, [COLON]);
    AtElement(s, e + |l.mid|, [COLON], 0);
    SkipsTo(s, e, l.mid);
  }

  /** Parsing a printed value gives its denotation and stops right behind it. */
  lemma {:induction false} ParsesValue(s: Text, i: nat, v: Syntax)
    requires Strict(v) && At(s, i, Print(v))
    requires v.Scalar? && i + |Print(v)| < |s| ==> !IsScalarChar(s[i + |Print(v)|])
    ensures ParseValue(s, i) == Done(Denote(v), i + |Print(v)|)
    decreases v, 1
  {
    hide At, Decode, ParseLiteral, ParseGroup, IsNumber, ScalarEnd, PrintEntries, PrintTail, DenoteEntries, Build;
    match v {
      case Scalar(t) =>
        ParsesScalar(s, i, t);
      case Str(b) =>
        ParsesLiteral(s, i, b);
      case Group(obj, es, tail) =>
        GroupParts(s, i, obj, es, tail);
        AtElement(s, i, [Opener(obj)], 0);
        AtBound(s, i, [Opener(obj)]);
        ParsesGroup(s, i + 1, obj, es, tail);
    }
  }

  lemma ParsesScalar(s: Text, i: nat, t: Text)
    requires IsScalar(t) && At(s, i, t) && (i + |t| < |s| ==> !IsScalarChar(s[i + |t|]))
    ensures ParseValue(s, i) == Done(JScalar(t), i + |t|)
  {
    hide At, Decode, ParseLiteral, ParseGroup, IsNumber, ScalarEnd;
    AtElement(s, i, t, 0);
    AtBound(s, i, t);
    ScalarEndsAt(s, i, t);
    SliceIs(s, i, t);
  }

  lemma {:induction false} ParsesGroup(s: Text, i: nat, obj: bool, es: seq<Entry>, tail: Tail)
    requires Strict(Group(obj, es, tail))
    requires At(s, i, PrintEntries(es))
    requires At(s, i + |PrintEntries(es)|, PrintTail(tail))
    requires At(s, i + |PrintEntries(es)| + |PrintTail(tail)|, [Closer(obj)])
    ensures ParseGroup(obj, s, i) ==
            Done(Build(obj, DenoteEntries(es)), i + |PrintEntries(es)| + |PrintTail(tail)| + 1)
    decreases es, 3
  {
    hide At, ParseEntries, SkipJsonSpace, WellFormedEntry, PrintEntry, Build, DenoteEntries;
    var close := i + |PrintEntries(es)| + |PrintTail(tail)|;
    AtElement(s, close, [Closer(obj)], 0);
    AtBound(s, close, [Closer(obj)]);
    if es == [] {
      SkipsTo(s, i, tail.ws);
    } else {
      ParsesEntries(obj, s, i, es);
      EntriesDoNotClose(obj, s, i, es);
    }
  }

  /** The parts of a printed entry; white space in front of it leads to its key or value. */
  lemma EntryParts(obj: bool, s: Text, i: nat, e: Entry)
    requires WellFormedEntry(obj, e, AllJsonSpace, false)
    requires At(s, i, PrintEntry(e))
    ensures SkipJsonSpace(s, i) == i + |e.pre| < |s| && IsStart(s[i + |e.pre|])
    ensures At(s, i + |e.pre|, PrintLabel(e.tag))
    ensures At(s, i + |e.pre| + |PrintLabel(e.tag)|, Print(e.value))
    ensures At(s, i + |e.pre| + |PrintLabel(e.tag)| + |Print(e.value)|, e.post)
    ensures var j := i + |e.pre| + |PrintLabel(e.tag)|; j < |s| && IsStart(s[j])
  {
    hide At, Print, PrintEntry, WellFormed, AllJsonSpace, SkipJsonSpace, PrintLabel, IsStart, Decode, IsJsonSpace;
    PrintStarts(e.value, AllJsonSpace, false);
    EntrySplit(s, i, e);
    var j := i + |e.pre| + |PrintLabel(e.tag)|;
    AtBound(s, j, Print(e.value));
    AtElement(s, j, Print(e.value), 0);
    LabelStarts(s, i + |e.pre|, e.tag);
    StartIsNoSpace(s[i + |e.pre|]);
    SkipsTo(s, i, e.pre);
  }

  lemma LabelStarts(s: Text, i: nat, l: Label)
    requires At(s, i, PrintLabel(l))
    ensures if l.Label? then PrintLabel(l) != [] && i < |s| && IsStart(s[i]) else PrintLabel(l) == []
  {
    hide At;
    if l.Label? {
      AtBound(s, i, PrintLabel(l));
      AtElement(s, i, PrintLabel(l), 0);
    }
  }

  lemma StartIsNoSpace(c: Code)
    requires IsStart(c)
    ensures !IsJsonSpace(c)
  {
  }

  lemma EntriesDoNotClose(obj: bool, s: Text, i: nat, es: seq<Entry>)
    requires es != [] && WellFormedEntry(obj, es[0], AllJsonSpace, false)
    requires At(s, i, PrintEntries(es))
    ensures SkipJsonSpace(s, i) < |s| && IsStart(s[SkipJsonSpace(s, i)])
  {
    hide At, PrintEntry, WellFormedEntry, SkipJsonSpace;
    FirstOfEntries(s, i, es);
    EntryParts(obj, s, i, es[0]);
  }

  lemma {:induction false} ParsesEntry(obj: bool, s: Text, i: nat, e: Entry)
    requires WellFormedEntry(obj, e, AllJsonSpace, false)
    requires At(s, i, PrintEntry(e))
    requires i + |PrintEntry(e)| < |s|
    requires s[i + |PrintEntry(e)|] == COMMA || s[i + |PrintEntry(e)|] == Closer(obj)
    ensures ParseEntry(obj, s, i) == Done(Property(KeyOf(e.tag), Denote(e.value)), i + |PrintEntry(e)|)
    decreases e, 2
  {
    hide At, PrintLabel, Print, WellFormed, ParseValue, Denote, SkipJsonSpace, Decode;
    EntryParts(obj, s, i, e);
    var j := i + |e.pre| + |PrintLabel(e.tag)|;
    var k := j + |Print(e.value)|;
    assert k + |e.post| == i + |PrintEntry(e)|;
    if obj {
      ParsesLabel(s, i + |e.pre|, e.tag);
      SkipsTo(s, j - |e.tag.gap|, e.tag.gap);
    } else {
      NoLabelIsEmpty(e.tag);
      SkipsTo(s, j, []);
    }
    if e.post != [] {
      AtElement(s, k, e.post, 0);
    }
    assert Strict(e.value);
    ParsesValue(s, j, e.value);
    SkipsTo(s, k, e.post);
  }

  lemma NoLabelIsEmpty(l: Label)
    requires l.NoLabel?
    ensures PrintLabel(l) == []
  {
  }

  lemma {:induction false} ParsesEntries(obj: bool, s: Text, i: nat, es: seq<Entry>)
    requires es != [] && WellFormedEntries(obj, es, AllJsonSpace, false)
    requires At(s, i, PrintEntries(es))
    requires i + |PrintEntries(es)| < |s| && s[i + |PrintEntries(es)|] == Closer(obj)
    ensures ParseEntries(obj, s, i) == Done(DenoteEntries(es), i + |PrintEntries(es)| + 1)
    decreases es, 0
  {
    hide At, PrintEntry, WellFormedEntry, ParseEntry, Denote, KeyOf;
    var first := PrintEntry(es[0]);
    assert WellFormedEntry(obj, es[0], AllJsonSpace, false);
    if |es| == 1 {
      assert PrintEntries(es) == first;
      assert DenoteEntries(es) == [Property(KeyOf(es[0].tag), Denote(es[0].value))];
      ParsesEntry(obj, s, i, es[0]);
    } else {
      FirstOfEntries(s, i, es);
      ParsesEntry(obj, s, i, es[0]);
      ParsesEntries(obj, s, i + |first| + 1, es[1..]);
    }
  }

  lemma ParsesParts(s: Text, lead: Text, v: Syntax, trail: Text)
    requires Strict(v) && AllJsonSpace(lead) && AllJsonSpace(trail)
    requires At(s, 0, lead) && At(s, |lead|, Print(v)) && At(s, |lead| + |Print(v)|, trail)
    requires |s| == |lead| + |Print(v)| + |trail|
    ensures JsonParse(s) == Some(Denote(v))
  {
    hide At, WellFormed, ParseValue, Denote, Print, SkipJsonSpace;
    PrintStarts(v, AllJsonSpace, false);
    AtElement(s, |lead|, Print(v), 0);
    SkipsTo(s, 0, lead);
    if trail != [] {
      AtElement(s, |lead| + |Print(v)|, trail, 0);
    }
    ParsesValue(s, |lead|, v);
    SkipsTo(s, |lead| + |Print(v)|, trail);
  }

  /** JSON.parse of a printed document is the value it denotes. */
  lemma ParsesDocument(lead: Text, v: Syntax, trail: Text)
    requires Strict(v) && AllJsonSpace(lead) && AllJsonSpace(trail)
    ensures JsonParse(lead + Print(v) + trail) == Some(Denote(v))
  {
    hide *;
    var s := lead + Print(v) + trail;
    AtWhole(s);
    AtSplit(s, 0, lead + Print(v), trail);
    AtSplit(s, 0, lead, Print(v));
    ParsesParts(s, lead, v, trail);
  }

}
