// The hand-written scanner: it finds the spans of an object's properties in text whose comments
// have been blanked.

module ConfigScan {
  import opened Results
  import opened Texts
  import opened JsonText
  import opened JsonRoundTrip
  import opened JsoncBlanking
  import opened JsoncDocument

  datatype PropSpan = PropSpan(key: Text, start: nat, end: nat)
  datatype ObjectSpan = ObjectSpan(props: seq<PropSpan>, open: nat, close: nat)

  // ---------------------------------------------------------------------------
  // Specification
  // ---------------------------------------------------------------------------

  /** The offset behind the bracket that brings the nesting depth of its kind back to zero. */
  function CloseAt(s: Text, i: nat, obj: bool, depth: int): (r: Outcome<nat>)
    ensures r.Ok? ==> i < r.value <= |s|
    decreases |s| - i
  {
    if i >= |s| then Err(Unbalanced)
    else if s[i] == QUOTE then
      match StringEndAt(s, i + 1) case None => Err(UnterminatedString) case Some(e) => CloseAt(s, e, obj, depth)
    else if s[i] == Opener(obj) then CloseAt(s, i + 1, obj, depth + 1)
    else if s[i] == Closer(obj) then
      if depth == 1 then Ok(i + 1) else CloseAt(s, i + 1, obj, depth - 1)
    else CloseAt(s, i + 1, obj, depth)
  }

  predicate StopsScalar(c: Code) {
    c == COMMA || IsCloser(c) || IsSpace(c)
  }

  function ScalarStop(s: Text, i: nat): (e: nat)
    ensures i <= e
    decreases |s| - i
  {
    if i < |s| && !StopsScalar(s[i]) then ScalarStop(s, i + 1) else i
  }

  function ValueEnd(s: Text, i: nat): (r: Outcome<nat>)
    ensures r.Ok? ==> i <= r.value
  {
    if i < |s| && s[i] == QUOTE then
      match StringEndAt(s, i + 1) case None => Err(UnterminatedString) case Some(e) => Ok(e)
    else if i < |s| && s[i] == LBRACE then CloseAt(s, i, true, 0)
    else if i < |s| && s[i] == LBRACKET then CloseAt(s, i, false, 0)
    else Ok(ScalarStop(s, i))
  }

  /** One property: its span and the offset at which the next one is looked for. */
  function PropAt(s: Text, i: nat): (r: Outcome<(PropSpan, nat)>)
    requires i < |s| && s[i] == QUOTE
    ensures r.Ok? ==> i < r.value.1
  {
    match StringEndAt(s, i + 1)
    case None => Err(UnterminatedString)
    case Some(e) =>
      match Decode(s[i + 1..e - 1])
      case None => Err(BadKey)
      case Some(key) =>
        var c := SkipSpace(s, e);
        if c >= |s| || s[c] != COLON then Err(NoValue)
        else
          var v := SkipSpace(s, c + 1);
          match ValueEnd(s, v)
          case Err(error) => Err(error)
          case Ok(stop) =>
            var n := SkipSpace(s, stop);
            Ok((PropSpan(key, v, stop), if n < |s| && s[n] == COMMA then n + 1 else n))
  }

  /** The properties from `i` on and the offset of the closing brace. */
  function PropsAt(s: Text, i: nat): Outcome<(seq<PropSpan>, nat)>
    decreases |s| - i
  {
    var j := SkipSpace(s, i);
    if j >= |s| then Err(NotClosed)
    else if s[j] == RBRACE then Ok(([], j))
    else if s[j] != QUOTE then Err(NonStringKey)
    else match PropAt(s, j)
         case Err(error) => Err(error)
         case Ok((p, n)) =>
           match PropsAt(s, n)
           case Err(error) => Err(error)
           case Ok((ps, close)) => Ok(([p] + ps, close))
  }

  function ObjectAt(s: Text, start: nat): Outcome<ObjectSpan> {
    var i := SkipSpace(s, start);
    if i >= |s| || s[i] != LBRACE then Err(NotAnObject)
    else match PropsAt(s, i + 1)
         case Err(error) => Err(error)
         case Ok((ps, close)) => Ok(ObjectSpan(ps, i, close))
  }

  // ---------------------------------------------------------------------------
  // The loops
  // ---------------------------------------------------------------------------

  method ScanValue(s: Text, start: nat) returns (r: Outcome<nat>)
    ensures r == ValueEnd(s, start)
  {
    hide StringEndAt, SkipSpace;
    if start < |s| && s[start] == QUOTE {
      r := ScanString(s, start);
      return;
    }
    var i := start;
    if start < |s| && (s[start] == LBRACE || s[start] == LBRACKET) {
      var obj := s[start] == LBRACE;
      var depth := 0;
      while i < |s|
        invariant start <= i
        invariant CloseAt(s, start, obj, 0) == CloseAt(s, i, obj, depth)
        decreases |s| - i
      {
        if s[i] == QUOTE {
          var end := ScanString(s, i);
          if end.Err? {
            return Err(UnterminatedString);
          }
          i := end.value - 1;
        } else if s[i] == Opener(obj) {
          depth := depth + 1;
        } else if s[i] == Closer(obj) {
          depth := depth - 1;
          if depth == 0 {
            return Ok(i + 1);
          }
        }
        i := i + 1;
      }
      return Err(Unbalanced);
    }
    while i < |s| && !StopsScalar(s[i])
      invariant start <= i
      invariant ScalarStop(s, start) == ScalarStop(s, i)
      decreases |s| - i
    {
      i := i + 1;
    }
    return Ok(i);
  }

  method ObjectProps(s: Text, start: nat) returns (r: Outcome<ObjectSpan>)
    ensures r == ObjectAt(s, start)
  {
    hide StringEndAt, SkipSpace, ValueEnd, Decode, PropsAt;
    var i := SkipWs(s, start);
    if i >= |s| || s[i] != LBRACE {
      return Err(NotAnObject);
    }
    var open := i;
    i := i + 1;
    var props: seq<PropSpan> := [];
    WithNoProps(PropsAt(s, i));
    while true
      invariant open < i
      invariant PropsAt(s, open + 1) == WithProps(props, PropsAt(s, i))
      decreases |s| - i
    {
      ghost var i0 := i;
      PropsStep(s, i, props);
      i := SkipWs(s, i);
      if i >= |s| {
        return Err(NotClosed);
      }
      if s[i] == RBRACE {
        return Ok(ObjectSpan(props, open, i));
      }
      if s[i] != QUOTE {
        return Err(NonStringKey);
      }
      var keyStart := i;
      var keyEnd := ScanString(s, i);
      if keyEnd.Err? {
        return Err(UnterminatedString);
      }
      var key := Decode(s[i + 1..keyEnd.value - 1]);
      if key.None? {
        return Err(BadKey);
      }
      i := SkipWs(s, keyEnd.value);
      if i >= |s| || s[i] != COLON {
        return Err(NoValue);
      }
      i := SkipWs(s, i + 1);
      var valueEnd := ScanValue(s, i);
      if valueEnd.Err? {
        return Err(valueEnd.error);
      }
      var prop := PropSpan(key.value, i, valueEnd.value);
      i := SkipWs(s, valueEnd.value);
      if i < |s| && s[i] == COMMA {
        i := i + 1;
      }
      assert PropAt(s, keyStart) == Ok((prop, i));
      props := props + [prop];
    }
  }

  function WithProps(props: seq<PropSpan>, r: Outcome<(seq<PropSpan>, nat)>): Outcome<(seq<PropSpan>, nat)> {
    match r case Err(e) => Err(e) case Ok((ps, close)) => Ok((props + ps, close))
  }

  lemma WithNoProps(r: Outcome<(seq<PropSpan>, nat)>)
    ensures WithProps([], r) == r
  {
    if r.Ok? {
      assert [] + r.value.0 == r.value.0;
    }
  }

  /** One round of the loop: it fails, finds the closing brace, or reads one more property. */
  lemma PropsStep(s: Text, i: nat, props: seq<PropSpan>)
    ensures var j, r := SkipSpace(s, i), WithProps(props, PropsAt(s, i));
            && (j >= |s| ==> r == Err(NotClosed))
            && (j < |s| && s[j] == RBRACE ==> r == Ok((props, j)))
            && (j < |s| && s[j] != RBRACE && s[j] != QUOTE ==> r == Err(NonStringKey))
            && (j < |s| && s[j] == QUOTE ==>
                  && (PropAt(s, j).Err? ==> r == Err(PropAt(s, j).error))
                  && (PropAt(s, j).Ok? ==>
                        r == WithProps(props + [PropAt(s, j).value.0], PropsAt(s, PropAt(s, j).value.1))))
  {
    hide SkipSpace, PropAt;
    var j := SkipSpace(s, i);
    if j < |s| && s[j] == RBRACE {
      assert props + [] == props;
    }
    if j < |s| && s[j] == QUOTE && PropAt(s, j).Ok? {
      var (p, n) := PropAt(s, j).value;
      match PropsAt(s, n) {
        case Err(_) =>
        case Ok((ps, close)) =>
          assert props + ([p] + ps) == props + [p] + ps;
      }
    }
  }

  // ---------------------------------------------------------------------------
  // What the scanner finds in a printed object
  // ---------------------------------------------------------------------------

  /** The spans of a printed entry list that starts at `i`. */
  function Spans(es: seq<Entry>, i: nat): (r: seq<PropSpan>)
    ensures |r| == |es|
  {
    if es == [] then []
    else
      [SpanOf(es[0], i)] + Spans(es[1..], i + |PrintEntry(es[0])| + 1)
  }

  function SpanOf(e: Entry, i: nat): PropSpan {
    var start := i + |e.pre| + |PrintLabel(e.tag)|;
    PropSpan(KeyOf(e.tag), start, start + |Print(e.value)|)
  }

  lemma {:induction false} ClosePlain(s: Text, i: nat, p: Text, obj: bool, depth: int)
    requires At(s, i, p) && forall k :: 0 <= k < |p| ==> p[k] != QUOTE && p[k] != Opener(obj) && p[k] != Closer(obj)
    ensures CloseAt(s, i, obj, depth) == CloseAt(s, i + |p|, obj, depth)
    decreases |p|
  {
    if p != [] {
      AtElement(s, i, p, 0);
      AtDrop(s, i, p, 1);
      ClosePlain(s, i + 1, p[1..], obj, depth);
    }
  }

  lemma CloseGap(s: Text, i: nat, p: Text, obj: bool, depth: int)
    requires At(s, i, p) && AllJsonSpace(p)
    ensures CloseAt(s, i, obj, depth) == CloseAt(s, i + |p|, obj, depth)
  {
    hide At, CloseAt;
    ClosePlain(s, i, p, obj, depth);
  }

  lemma CloseLiteral(s: Text, i: nat, b: Text, obj: bool, depth: int)
    requires Decode(b).Some? && At(s, i, [QUOTE] + b + [QUOTE])
    ensures CloseAt(s, i, obj, depth) == CloseAt(s, i + |b| + 2, obj, depth)
  {
    hide At, StringEndAt, Decode;
    LiteralSpan(s, i, b);
  }

  lemma CloseColon(s: Text, i: nat, obj: bool, depth: int)
    requires At(s, i, [COLON])
    ensures CloseAt(s, i, obj, depth) == CloseAt(s, i + 1, obj, depth)
  {
    hide At, CloseAt;
    ClosePlain(s, i, [COLON], obj, depth);
  }

  lemma CloseLabel(s: Text, i: nat, l: Label, obj: bool, depth: int)
    requires l.Label? ==> Decode(l.body).Some? && AllJsonSpace(l.mid) && AllJsonSpace(l.gap)
    requires At(s, i, PrintLabel(l))
    ensures CloseAt(s, i, obj, depth) == CloseAt(s, i + |PrintLabel(l)|, obj, depth)
  {
    hide At, CloseAt, Decode, AllJsonSpace, StringEndAt, Opener, Closer;
    if l.Label? {
      var b, mid, gap := l.body, l.mid, l.gap;
      var lit := [QUOTE] + b + [QUOTE];
      LabelSplit(s, i, l);
      CloseLiteral(s, i, b, obj, depth);
      CloseGap(s, i + |lit|, mid, obj, depth);
      CloseColon(s, i + |lit| + |mid|, obj, depth);
      CloseGap(s, i + |lit| + |mid| + 1, gap, obj, depth);
    }
  }

  /** Inside brackets, a printed value leaves the nesting depth as it was. */
  lemma {:induction false} CloseOver(s: Text, i: nat, v: Syntax, obj: bool, depth: int)
    requires WellFormed(v, AllJsonSpace, true) && At(s, i, Print(v)) && depth >= 1
    ensures CloseAt(s, i, obj, depth) == CloseAt(s, i + |Print(v)|, obj, depth)
    decreases v, 1
  {
    hide At, CloseAt, Decode, AllJsonSpace, IsNumber;
    match v {
      case Scalar(t) =>
        ClosePlain(s, i, t, obj, depth);
      case Str(b) =>
        CloseLiteral(s, i, b, obj, depth);
      case Group(kind, es, tail) =>
        GroupParts(s, i, kind, es, tail);
        var j := i + 1 + |PrintEntries(es)|;
        var inner := if kind == obj then depth + 1 else depth;
        CloseBracket(s, i, kind, obj, depth);
        CloseEntries(s, i + 1, kind, es, obj, inner);
        CloseTail(s, j, tail, obj, inner);
        CloseBracket(s, j + |PrintTail(tail)|, kind, obj, inner);
    }
  }

  /** A bracket changes the depth by one if it is of the kind that is counted. */
  lemma CloseBracket(s: Text, i: nat, kind: bool, obj: bool, depth: int)
    ensures At(s, i, [Opener(kind)]) ==>
              CloseAt(s, i, obj, depth) == CloseAt(s, i + 1, obj, if kind == obj then depth + 1 else depth)
    ensures At(s, i, [Closer(kind)]) && (kind == obj ==> depth != 1) ==>
              CloseAt(s, i, obj, depth) == CloseAt(s, i + 1, obj, if kind == obj then depth - 1 else depth)
    ensures At(s, i, [Closer(obj)]) && depth == 1 ==> CloseAt(s, i, obj, depth) == Ok(i + 1)
  {
    if At(s, i, [Opener(kind)]) {
      AtElement(s, i, [Opener(kind)], 0);
    }
    if At(s, i, [Closer(kind)]) {
      AtElement(s, i, [Closer(kind)], 0);
    }
    if At(s, i, [Closer(obj)]) {
      AtElement(s, i, [Closer(obj)], 0);
    }
  }

  lemma CloseTail(s: Text, i: nat, tail: Tail, obj: bool, depth: int)
    requires AllJsonSpace(tail.ws) && At(s, i, PrintTail(tail))
    ensures CloseAt(s, i, obj, depth) == CloseAt(s, i + |PrintTail(tail)|, obj, depth)
  {
    hide At, CloseAt, AllJsonSpace;
    if tail.TrailingComma? {
      AtSplit(s, i, [COMMA], tail.ws);
      ClosePlain(s, i, [COMMA], obj, depth);
      CloseGap(s, i + 1, tail.ws, obj, depth);
    } else {
      CloseGap(s, i, tail.ws, obj, depth);
    }
  }

  lemma {:induction false} CloseEntry(s: Text, i: nat, kind: bool, e: Entry, obj: bool, depth: int)
    requires WellFormedEntry(kind, e, AllJsonSpace, true) && At(s, i, PrintEntry(e)) && depth >= 1
    ensures CloseAt(s, i, obj, depth) == CloseAt(s, i + |PrintEntry(e)|, obj, depth)
    decreases e, 2
  {
    hide At, CloseAt, AllJsonSpace, Print, PrintLabel, WellFormed;
    var l, p := PrintLabel(e.tag), Print(e.value);
    EntrySplit(s, i, e);
    CloseGap(s, i, e.pre, obj, depth);
    CloseLabel(s, i + |e.pre|, e.tag, obj, depth);
    CloseOver(s, i + |e.pre| + |l|, e.value, obj, depth);
    CloseGap(s, i + |e.pre| + |l| + |p|, e.post, obj, depth);
  }

  lemma {:induction false} CloseEntries(s: Text, i: nat, kind: bool, es: seq<Entry>, obj: bool, depth: int)
    requires WellFormedEntries(kind, es, AllJsonSpace, true) && At(s, i, PrintEntries(es)) && depth >= 1
    ensures CloseAt(s, i, obj, depth) == CloseAt(s, i + |PrintEntries(es)|, obj, depth)
    decreases es, 0
  {
    hide At, CloseAt, PrintEntry, WellFormedEntry;
    if es != [] {
      assert WellFormedEntry(kind, es[0], AllJsonSpace, true);
      var first := PrintEntry(es[0]);
      FirstOfEntries(s, i, es);
      CloseEntry(s, i, kind, es[0], obj, depth);
      if |es| > 1 {
        ClosePlain(s, i + |first|, [COMMA], obj, depth);
        CloseEntries(s, i + |first| + 1, kind, es[1..], obj, depth);
      }
    }
  }

  lemma {:induction false} ScalarStopsAt(s: Text, i: nat, t: Text)
    requires At(s, i, t) && forall k :: 0 <= k < |t| ==> IsScalarChar(t[k])
    requires i + |t| < |s| && StopsScalar(s[i + |t|])
    ensures ScalarStop(s, i) == i + |t|
    decreases |t|
  {
    hide At;
    if t != [] {
      AtElement(s, i, t, 0);
      AtDrop(s, i, t, 1);
      ScalarStopsAt(s, i + 1, t[1..]);
    }
  }

  /** The scanner finds the end of a printed value. */
  lemma FindsValueEnd(s: Text, i: nat, v: Syntax)
    requires WellFormed(v, AllJsonSpace, true) && At(s, i, Print(v))
    requires i + |Print(v)| < |s| && StopsScalar(s[i + |Print(v)|])
    ensures ValueEnd(s, i) == Ok(i + |Print(v)|)
  {
    hide At, CloseAt, Decode, AllJsonSpace, IsNumber, StringEndAt, ScalarStop, WellFormedEntries, PrintEntries, PrintTail;
    match v {
      case Scalar(t) =>
        AtElement(s, i, t, 0);
        ScalarStopsAt(s, i, t);
      case Str(b) =>
        LiteralSpan(s, i, b);
      case Group(obj, es, tail) =>
        GroupParts(s, i, obj, es, tail);
        AtElement(s, i, [Opener(obj)], 0);
        ClosesGroup(s, i, v);
    }
  }

  /** The scan for the partner of a printed group's bracket ends behind the group. */
  lemma ClosesGroup(s: Text, i: nat, v: Syntax)
    requires v.Group? && WellFormed(v, AllJsonSpace, true) && At(s, i, Print(v))
    ensures CloseAt(s, i, v.obj, 0) == Ok(i + |Print(v)|)
  {
    hide At, CloseAt, Decode, AllJsonSpace, IsNumber, StringEndAt, WellFormedEntries, PrintEntries, PrintTail;
    var obj := v.obj;
    GroupParts(s, i, obj, v.entries, v.tail);
    var j := i + 1 + |PrintEntries(v.entries)|;
    CloseBracket(s, i, obj, obj, 0);
    CloseEntries(s, i + 1, obj, v.entries, obj, 1);
    CloseTail(s, j, v.tail, obj, 1);
    CloseBracket(s, j + |PrintTail(v.tail)|, obj, obj, 1);
  }

  /** The offsets of the parts of a printed entry of an object, and what stands there. */
  lemma PropertyParts(s: Text, i: nat, e: Entry)
    requires WellFormedEntry(true, e, AllJsonSpace, true) && At(s, i, PrintEntry(e))
    ensures At(s, i, e.pre) && At(s, i + |e.pre|, PrintLabel(e.tag))
    ensures At(s, i + |e.pre| + |PrintLabel(e.tag)|, Print(e.value))
    ensures At(s, i + |e.pre| + |PrintLabel(e.tag)| + |Print(e.value)|, e.post)
    ensures SkipSpace(s, i) == i + |e.pre| < |s| && s[i + |e.pre|] == QUOTE
  {
    hide At, Print, WellFormed, AllJsonSpace, SkipSpace, Decode;
    var l, p := PrintLabel(e.tag), Print(e.value);
    EntrySplit(s, i, e);
    AtBound(s, i + |e.pre|, l);
    AtElement(s, i + |e.pre|, l, 0);
    SkipSpaceTo(s, i, e.pre);
  }

  lemma LiteralKey(s: Text, i: nat, b: Text)
    requires Decode(b).Some? && At(s, i, [QUOTE] + b + [QUOTE])
    ensures i + |b| + 2 <= |s| && StringEndAt(s, i + 1) == Some(i + |b| + 2)
    ensures Decode(s[i + 1..i + |b| + 1]) == Decode(b)
  {
    hide *;
    LiteralSpan(s, i, b);
    SliceIs(s, i + 1, b);
  }

  lemma LabelOffsets(s: Text, i: nat, l: Label)
    requires l.Label? && AllJsonSpace(l.mid) && AllJsonSpace(l.gap)
    requires At(s, i, PrintLabel(l))
    requires var n := i + |PrintLabel(l)|; n < |s| && IsStart(s[n])
    ensures At(s, i, [QUOTE] + l.body + [QUOTE])
    ensures var c := i + |l.body| + 2 + |l.mid|;
            && SkipSpace(s, i + |l.body| + 2) == c < |s| && s[c] == COLON
            && SkipSpace(s, c + 1) == i + |PrintLabel(l)|
  {
    hide At, AllJsonSpace, SkipSpace, IsStart, IsSpace, PrintLabel;
    LabelSplit(s, i, l);
    var c := i + |l.body| + 2 + |l.mid|;
    AtElement(s, c, [COLON], 0);
    AtBound(s, c, [COLON]);
    StartIsNoSpace(s[c]);
    StartIsNoSpace(s[c + 1 + |l.gap|]);
    SkipSpaceTo(s, i + |l.body| + 2, l.mid);
    SkipSpaceTo(s, c + 1, l.gap);
  }

  lemma StartIsNoSpace(c: Code)
    ensures (IsStart(c) ==> !IsSpace(c)) && !IsSpace(COLON)
  {
  }

  /** The offsets inside a printed key: where it ends, its colon and what follows. */
  lemma LabelParts(s: Text, i: nat, l: Label)
    requires l.Label? && Decode(l.body).Some? && AllJsonSpace(l.mid) && AllJsonSpace(l.gap)
    requires At(s, i, PrintLabel(l))
    requires var n := i + |PrintLabel(l)|; n < |s| && IsStart(s[n])
    ensures i + |l.body| + 2 <= |s| && StringEndAt(s, i + 1) == Some(i + |l.body| + 2)
    ensures Decode(s[i + 1..i + |l.body| + 1]) == Decode(l.body)
    ensures var c := i + |l.body| + 2 + |l.mid|;
            && SkipSpace(s, i + |l.body| + 2) == c < |s| && s[c] == COLON
            && SkipSpace(s, c + 1) == i + |PrintLabel(l)|
  {
    hide *;
    LabelOffsets(s, i, l);
    LiteralKey(s, i, l.body);
  }

  lemma KeyDecodes(l: Label)
    requires l.Label? && Decode(l.body).Some?
    ensures Decode(l.body) == Some(KeyOf(l))
  {
  }

  /** Reading one printed property gives its span. */
  lemma FindsProp(s: Text, i: nat, e: Entry)
    requires WellFormedEntry(true, e, AllJsonSpace, true) && At(s, i, PrintEntry(e))
    requires var n := i + |PrintEntry(e)|; n < |s| && (s[n] == COMMA || s[n] == RBRACE)
    ensures var n, start := i + |PrintEntry(e)|, i + |e.pre| + |PrintLabel(e.tag)|;
            && SkipSpace(s, i) < |s| && s[SkipSpace(s, i)] == QUOTE
            && PropAt(s, SkipSpace(s, i)) ==
               Ok((PropSpan(KeyOf(e.tag), start, start + |Print(e.value)|), if s[n] == COMMA then n + 1 else n))
  {
    hide At, Print, PrintLabel, PrintEntry, WellFormed, AllJsonSpace, SkipSpace, Decode, StringEndAt, ValueEnd, KeyOf,
         PropAt, StopsScalar, IsStart;
    EntryLength(e);
    PropertyParts(s, i, e);
    var start := i + |e.pre| + |PrintLabel(e.tag)|;
    var stop := start + |Print(e.value)|;
    PrintStarts(e.value, AllJsonSpace, true);
    AtBound(s, start, Print(e.value));
    AtElement(s, start, Print(e.value), 0);
    LabelParts(s, i + |e.pre|, e.tag);
    KeyDecodes(e.tag);
    BehindValue(s, stop, e.post);
    FindsValueEnd(s, start, e.value);
    var k := i + |e.pre|;
    PropIs(s, k, k + |e.tag.body| + 2, KeyOf(e.tag), start, stop, i + |PrintEntry(e)|);
  }

  lemma EntryLength(e: Entry)
    ensures |PrintEntry(e)| == |e.pre| + |PrintLabel(e.tag)| + |Print(e.value)| + |e.post|
  {
    hide Print, PrintLabel;
  }

  lemma PropIs(s: Text, i: nat, e: nat, key: Text, start: nat, stop: nat, n: nat)
    requires i < |s| && s[i] == QUOTE && StringEndAt(s, i + 1) == Some(e) && Decode(s[i + 1..e - 1]) == Some(key)
    requires var c := SkipSpace(s, e); c < |s| && s[c] == COLON && SkipSpace(s, c + 1) == start
    requires ValueEnd(s, start) == Ok(stop) && SkipSpace(s, stop) == n && n < |s|
    ensures PropAt(s, i) == Ok((PropSpan(key, start, stop), if s[n] == COMMA then n + 1 else n))
  {
    hide SkipSpace, Decode, StringEndAt, ValueEnd;
  }

  lemma BehindValue(s: Text, i: nat, post: Text)
    requires AllJsonSpace(post) && At(s, i, post)
    requires i + |post| < |s| && (s[i + |post|] == COMMA || s[i + |post|] == RBRACE)
    ensures SkipSpace(s, i) == i + |post| && i < |s| && StopsScalar(s[i])
  {
    hide At, SkipSpace;
    if post != [] {
      AtElement(s, i, post, 0);
    }
    SkipSpaceTo(s, i, post);
  }

  lemma PropsEnd(s: Text, i: nat, j: nat)
    requires SkipSpace(s, i) == j && j < |s| && s[j] == RBRACE
    ensures PropsAt(s, i) == Ok(([], j))
  {
  }

  lemma PropsCons(s: Text, i: nat, p: PropSpan, n: nat, ps: seq<PropSpan>, close: nat)
    requires SkipSpace(s, i) < |s| && s[SkipSpace(s, i)] == QUOTE
    requires PropAt(s, SkipSpace(s, i)) == Ok((p, n)) && PropsAt(s, n) == Ok((ps, close))
    ensures PropsAt(s, i) == Ok(([p] + ps, close))
  {
    hide SkipSpace, PropAt;
  }

  /** Scanning a printed object gives the spans of its entries and its closing brace. */
  lemma {:induction false} FindsProps(s: Text, i: nat, es: seq<Entry>, tail: Tail)
    requires WellFormedEntries(true, es, AllJsonSpace, true) && AllJsonSpace(tail.ws)
    requires (tail.TrailingComma? ==> es != []) && (tail.NoComma? && es != [] ==> tail.ws == [])
    requires At(s, i, PrintEntries(es)) && At(s, i + |PrintEntries(es)|, PrintTail(tail))
    requires At(s, i + |PrintEntries(es)| + |PrintTail(tail)|, [RBRACE])
    ensures PropsAt(s, i) == Ok((Spans(es, i), i + |PrintEntries(es)| + |PrintTail(tail)|))
    decreases |es|
  {
    hide At, PrintEntry, PrintEntries, WellFormedEntry, AllJsonSpace, SkipSpace, PropAt, PropsAt, Print, PrintLabel,
         PrintTail, KeyOf, Spans;
    var close := i + |PrintEntries(es)| + |PrintTail(tail)|;
    if es == [] {
      NoEntries(i, tail);
      EndsEmpty(s, i, tail.ws);
    } else {
      assert WellFormedEntry(true, es[0], AllJsonSpace, true);
      SpansStep(es, i);
      var next := i + |PrintEntry(es[0])| + 1;
      if |es| > 1 {
        FirstOfEntries(s, i, es);
        FindsProp(s, i, es[0]);
        FindsProps(s, next, es[1..], tail);
        PropsCons(s, i, SpanOf(es[0], i), next, Spans(es[1..], next), close);
      } else {
        FindsLast(s, i, es[0], tail);
      }
    }
  }

  lemma NoEntries(i: nat, tail: Tail)
    ensures PrintEntries([]) == [] && Spans([], i) == []
    ensures tail.NoComma? ==> PrintTail(tail) == tail.ws
  {
  }

  lemma SpansStep(es: seq<Entry>, i: nat)
    requires es != []
    ensures Spans(es, i) == [SpanOf(es[0], i)] + Spans(es[1..], i + |PrintEntry(es[0])| + 1)
    ensures |es| == 1 ==> Spans(es, i) == [SpanOf(es[0], i)] && PrintEntries(es) == PrintEntry(es[0])
  {
    hide PrintEntry, SpanOf;
  }

  lemma FindsLast(s: Text, i: nat, e: Entry, tail: Tail)
    requires WellFormedEntry(true, e, AllJsonSpace, true) && AllJsonSpace(tail.ws)
    requires tail.NoComma? ==> tail.ws == []
    requires At(s, i, PrintEntry(e)) && At(s, i + |PrintEntry(e)|, PrintTail(tail))
    requires At(s, i + |PrintEntry(e)| + |PrintTail(tail)|, [RBRACE])
    ensures var start, close := i + |e.pre| + |PrintLabel(e.tag)|, i + |PrintEntry(e)| + |PrintTail(tail)|;
            PropsAt(s, i) == Ok(([PropSpan(KeyOf(e.tag), start, start + |Print(e.value)|)], close))
  {
    hide At, PrintEntry, WellFormedEntry, AllJsonSpace, SkipSpace, PropAt, PropsAt, Print, PrintLabel, PrintTail, KeyOf;
    var start := i + |e.pre| + |PrintLabel(e.tag)|;
    var p := PropSpan(KeyOf(e.tag), start, start + |Print(e.value)|);
    var n := i + |PrintEntry(e)|;
    var close := n + |PrintTail(tail)|;
    assert [p] + [] == [p];
    EndsProps(s, n, tail);
    FindsProp(s, i, e);
    PropsCons(s, i, p, if s[n] == COMMA then n + 1 else n, [], close);
  }

  lemma EndsEmpty(s: Text, i: nat, ws: Text)
    requires AllJsonSpace(ws) && At(s, i, ws) && At(s, i + |ws|, [RBRACE])
    ensures PropsAt(s, i) == Ok(([], i + |ws|))
  {
    hide At, AllJsonSpace, SkipSpace, PropsAt;
    AtElement(s, i + |ws|, [RBRACE], 0);
    AtBound(s, i + |ws|, [RBRACE]);
    SkipSpaceTo(s, i, ws);
    PropsEnd(s, i, i + |ws|);
  }

  /** Behind the last entry, the search for a further property ends at the closing brace. */
  lemma EndsProps(s: Text, n: nat, tail: Tail)
    requires AllJsonSpace(tail.ws) && (tail.NoComma? ==> tail.ws == [])
    requires At(s, n, PrintTail(tail)) && At(s, n + |PrintTail(tail)|, [RBRACE])
    ensures n < |s| && (s[n] == COMMA || s[n] == RBRACE)
    ensures PropsAt(s, if s[n] == COMMA then n + 1 else n) == Ok(([], n + |PrintTail(tail)|))
  {
    hide At, AllJsonSpace, SkipSpace, PropsAt;
    if tail.TrailingComma? {
      EndsTrailing(s, n, tail.ws);
    } else {
      AtElement(s, n, [RBRACE], 0);
      AtBound(s, n, [RBRACE]);
      AtNothingMore(s, n);
      NoEntriesStrict(true);
      EndsEmpty(s, n, []);
    }
  }

  lemma EndsTrailing(s: Text, n: nat, ws: Text)
    requires AllJsonSpace(ws) && At(s, n, [COMMA] + ws) && At(s, n + |[COMMA] + ws|, [RBRACE])
    ensures n < |s| && s[n] == COMMA && PropsAt(s, n + 1) == Ok(([], n + |[COMMA] + ws|))
  {
    hide At, AllJsonSpace, SkipSpace, PropsAt;
    AtSplit(s, n, [COMMA], ws);
    AtElement(s, n, [COMMA], 0);
    AtBound(s, n, [COMMA]);
    EndsEmpty(s, n + 1, ws);
  }

  /** objectProps on a printed object behind a gap. */
  lemma FindsObject(s: Text, start: nat, gap: Text, es: seq<Entry>, tail: Tail)
    requires WellFormed(Group(true, es, tail), AllJsonSpace, true) && AllJsonSpace(gap)
    requires At(s, start, gap) && At(s, start + |gap|, Print(Group(true, es, tail)))
    ensures var i := start + |gap|;
            ObjectAt(s, start) ==
            Ok(ObjectSpan(Spans(es, i + 1), i, i + |Print(Group(true, es, tail))| - 1))
  {
    hide At, PrintEntries, PrintTail, WellFormedEntries, AllJsonSpace, SkipSpace, PropsAt, Spans;
    var i := start + |gap|;
    GroupParts(s, i, true, es, tail);
    AtElement(s, i, [LBRACE], 0);
    AtBound(s, i, [LBRACE]);
    SkipSpaceTo(s, start, gap);
    FindsProps(s, i + 1, es, tail);
  }

  /** objectProps fails on a value that is no object. */
  lemma FindsNoObject(s: Text, start: nat, gap: Text, v: Syntax)
    requires WellFormed(v, AllJsonSpace, true) && AllJsonSpace(gap) && !(v.Group? && v.obj)
    requires At(s, start, gap) && At(s, start + |gap|, Print(v))
    ensures ObjectAt(s, start) == Err(NotAnObject)
  {
    hide At, AllJsonSpace, SkipSpace, PropsAt;
    PrintStarts(v, AllJsonSpace, true);
    AtElement(s, start + |gap|, Print(v), 0);
    AtBound(s, start + |gap|, Print(v));
    SkipSpaceTo(s, start, gap);
  }
}
