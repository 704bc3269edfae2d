// When the strings of a rendered variables file read back: U+2028 and U+2029 start lines, too.

module TerraformStrings {
  import opened Results
  import opened Texts
  import opened TextLines
  import opened JsonText
  import opened JsoncBlanking
  import opened ConfigScan
  import opened HclText
  import opened TerraformVars
  import opened TerraformBlocks
  import opened TerraformLines
  import opened TerraformPreserved
  import opened TerraformTheorems

  // ---------------------------------------------------------------------------
  // Quotes inside a string's body
  // ---------------------------------------------------------------------------

  /** Every quote in the text follows a backslash. */
  predicate IsEscaped(b: Text) {
    forall i :: 0 <= i < |b| && b[i] == QUOTE ==> i > 0 && b[i - 1] == BACKSLASH
  }

  lemma EscapedJoin(a: Text, b: Text)
    requires IsEscaped(a) && IsEscaped(b)
    ensures IsEscaped(a + b)
  {
    forall i | 0 <= i < |a + b| && (a + b)[i] == QUOTE ensures i > 0 && (a + b)[i - 1] == BACKSLASH {
      if i >= |a| {
        assert b[i - |a|] == QUOTE;
      }
    }
  }

  lemma {:induction false} BodyEscaped(s: Text)
    ensures IsEscaped(QuoteBody(s))
  {
    if s == [] {
    } else if |s| >= 2 && IsHighSurrogate(s[0]) && IsLowSurrogate(s[1]) {
      BodyEscaped(s[2..]);
      EscapedJoin([s[0], s[1]], QuoteBody(s[2..]));
    } else {
      BodyEscaped(s[1..]);
      EscapedJoin(QuoteUnit(s[0]), QuoteBody(s[1..]));
    }
  }

  // ---------------------------------------------------------------------------
  // An assignment inside a string's line
  // ---------------------------------------------------------------------------

  lemma {:induction false} LiteralEndIsQuote(a: Text, i: nat)
    requires LiteralEnd(a, i).Some?
    ensures a[LiteralEnd(a, i).value - 1] == QUOTE
    decreases |a| - i
  {
    if a[i] == BACKSLASH {
      LiteralEndIsQuote(a, i + 2);
    } else if a[i] != QUOTE {
      LiteralEndIsQuote(a, i + 1);
    }
  }

  lemma {:induction false} NoLiteral(a: Text, e: nat)
    requires forall k :: e <= k < |a| && a[k] == EQUALS ==> LiteralTail(a, k + 1).None?
    ensures FindLiteral(a, e) == None
    decreases |a| - e
  {
    hide LiteralTail;
    if e < |a| {
      NoLiteral(a, e + 1);
    }
  }

  lemma LiteralIsLast(a: Text, i: nat)
    requires i <= |a| && LiteralTail(a, i).Some?
    ensures a != [] && (a[|a| - 1] == QUOTE || IsSpace(a[|a| - 1]))
  {
    hide SkipSpace, LiteralEnd;
    LiteralEndIsQuote(a, SkipSpace(a, i) + 1);
  }

  /** A text that ends with a bracket ends with no literal. */
  lemma BracketIsNoLiteral(a: Text, i: nat)
    requires a != [] && i <= |a| && IsCloser(a[|a| - 1])
    ensures LiteralTail(a, i).None?
  {
    hide LiteralTail;
    if LiteralTail(a, i).Some? {
      LiteralIsLast(a, i);
    }
  }

  /** A text whose quotes are escaped, but for the one that ends it, ends with no literal behind `=`. */
  lemma TailIsNoLiteral(a: Text, k: nat)
    requires k < |a| && a[k] == EQUALS
    requires forall i :: 0 < i < |a| - 1 && a[i] == QUOTE ==> a[i - 1] == BACKSLASH
    ensures LiteralTail(a, k + 1).None?
  {
    hide SkipSpace, LiteralEnd;
    var q := SkipSpace(a, k + 1);
    assert a[q - 1] == EQUALS || IsSpace(a[q - 1]);
    if q < |a| && a[q] == QUOTE {
      LiteralPastEnd(a, q + 1);
    }
  }

  lemma LiteralPastEnd(a: Text, i: nat)
    requires i >= |a|
    ensures LiteralEnd(a, i).None?
  {
  }

  /** An assignment that starts inside a string's body. */
  ghost predicate StartsInside(n: Text, s: Text, k: nat, m: Text) {
    |PadEnd(n)| + 4 < k < |Line(n, Quote(s))| - 1 && AssignsAt(Line(n, Quote(s)), k, m)
  }

  lemma InnerAssignment(n: Text, s: Text, k: nat, m: Text)
    requires IsName(n) && IsName(m) && 0 < k < |Line(n, Quote(s))| && AssignsAt(Line(n, Quote(s)), k, m)
    ensures StartsInside(n, s, k, m)
  {
    hide SkipSpace, SkipBlanks, EqualsAt, Stands, Line, PadEnd, QuoteBody;
    var v := Quote(s);
    var b, w := Line(n, v), |PadEnd(n)| + 3;
    LineChars(n, v);
    NoStartBeforeValue(n, v, k);
    assert b[k - 1] == v[k - 1 - w];
    if k == |b| - 1 {
      QuoteIsNoAssignment(b, k, m);
    }
  }

  lemma NameStarts(b: Text, k: nat, m: Text)
    requires IsName(m) && Stands(b, k, m)
    ensures k < |b| && IsNameChar(b[k])
  {
    assert b[k] == b[k..k + |m|][0] == m[0];
    assert IsNameChar(m[0]);
  }

  lemma QuoteIsNoAssignment(b: Text, k: nat, m: Text)
    requires k < |b| && b[k] == QUOTE && IsName(m)
    ensures !AssignsAt(b, k, m)
  {
    hide EqualsAt, Stands;
    if AssignsAt(b, k, m) {
      NameStarts(b, k, m);
    }
  }

  /** The characters of a string's line behind the start of its body. */
  lemma BodyChars(n: Text, s: Text)
    ensures var b, w := Line(n, Quote(s)), |PadEnd(n)| + 3;
            && w + 2 <= |b| && b[|b| - 1] == QUOTE && (forall i :: w <= i < |b| ==> b[i] != NEWLINE)
            && forall i :: w < i < |b| - 1 && b[i] == QUOTE ==> b[i - 1] == BACKSLASH
  {
    hide Line, PadEnd, QuoteBody;
    var v := Quote(s);
    var b, w := Line(n, v), |PadEnd(n)| + 3;
    LineChars(n, v);
    BodyEscaped(s);
    QuoteIsLine(s);
    forall i | w <= i < |b| ensures b[i] == v[i - w] {
      assert b[w + (i - w)] == v[i - w];
    }
    forall i | w < i < |b| - 1 && b[i] == QUOTE ensures b[i - 1] == BACKSLASH {
      assert QuoteBody(s)[i - w - 1] == QUOTE;
      assert b[i - 1] == v[i - 1 - w] == QuoteBody(s)[i - w - 2];
    }
  }

  /** Where the value of an assignment inside a line starts is in the line, and the text has it there. */
  lemma InnerValue(t: Text, o: nat, b: Text, k: nat, m: Text)
    requires StandsAt(t, o, b) && IsBlock(b) && IsName(m) && k < |b| && AssignsAt(b, k, m)
    requires EqualsAt(b, k, m) + 1 < |b|
    ensures AssignsAt(t, o + k, m)
    ensures var v := ValueStart(b, k, m);
            && EqualsAt(b, k, m) < v < |b| && ValueStart(t, o + k, m) == o + v
            && k <= EqualsAt(b, k, m)
  {
    hide At, SkipSpace, SkipBlanks, IsBlock, Stands;
    AssignsShift(t, o, b, k, m);
    BlockEnd(b);
    SpaceEndsInside(b, EqualsAt(b, k, m) + 1);
    SpaceShift(t, o, b, EqualsAt(b, k, m) + 1);
  }

  lemma BlockEnd(b: Text)
    requires IsBlock(b)
    ensures b != [] && !IsSpace(b[|b| - 1])
  {
  }

  /** What the text gives for an assignment inside a string's line is no string. */
  lemma InnerGivesNothing(t: Text, o: nat, n: Text, s: Text, k: nat, m: Text)
    requires IsName(n) && IsName(m) && StandsAt(t, o, Line(n, Quote(s))) && StartsInside(n, s, k, m)
    ensures AssignsAt(t, o + k, m)
    ensures AssignmentAt(t, o + k, m).Some? ==> FindLiteral(AssignmentAt(t, o + k, m).value, 0) == None
  {
    hide At, SkipSpace, SkipBlanks, CloseAt, IsBlock, AssignsAt, EqualsAt, Line, PadEnd, QuoteBody, LiteralTail, IsName;
    var b := Line(n, Quote(s));
    QuoteTrimmed(s);
    LineIs(n, Quote(s));
    BodyChars(n, s);
    EqualsBeforeQuote(b, k, m);
    InnerValue(t, o, b, k, m);
    var p, v := o + k, ValueStart(t, o + k, m);
    AtElement(t, o, b, v - o);
    if t[v] == LBRACE || t[v] == LBRACKET {
      if CloseAt(t, v, t[v] == LBRACE, 0).Ok? {
        GroupIsNoLiteral(t, p, v, t[v] == LBRACE);
      }
    } else {
      LineRest(t, o, b, v);
      var a := t[p..o + |b|];
      InsideIsEscaped(t, o, b, k);
      forall i | 0 <= i < |a| && a[i] == EQUALS ensures LiteralTail(a, i + 1).None? {
        TailIsNoLiteral(a, i);
      }
      NoLiteral(a, 0);
      TrimEndKeeps(a);
    }
  }

  lemma GroupIsNoLiteral(t: Text, p: nat, v: nat, obj: bool)
    requires p <= v && CloseAt(t, v, obj, 0).Ok?
    ensures FindLiteral(t[p..CloseAt(t, v, obj, 0).value], 0) == None
  {
    hide At, CloseAt, LiteralTail;
    var a := t[p..CloseAt(t, v, obj, 0).value];
    CutStands(t, p, p + |a|);
    CloseInside(t, p, a, v, obj, 0);
    forall i | 0 <= i < |a| && a[i] == EQUALS ensures LiteralTail(a, i + 1).None? {
      BracketIsNoLiteral(a, i + 1);
    }
    NoLiteral(a, 0);
  }

  lemma LineRest(t: Text, o: nat, b: Text, v: nat)
    requires StandsAt(t, o, b) && o <= v < o + |b| && forall i :: v - o <= i < |b| ==> b[i] != NEWLINE
    ensures IndexOf(t, NEWLINE, v) == o + |b|
  {
    hide At, SkipSpace;
    forall i | v <= i < o + |b| ensures t[i] != NEWLINE {
      AtElement(t, o, b, i - o);
    }
    BreakBehind(t, v, o + |b|);
  }

  lemma InsideIsEscaped(t: Text, o: nat, b: Text, k: nat)
    requires At(t, o, b) && 0 < k < |b| && b[|b| - 1] == QUOTE
    requires forall i :: k < i < |b| - 1 && b[i] == QUOTE ==> b[i - 1] == BACKSLASH
    ensures o + |b| <= |t|
    ensures var a := t[o + k..o + |b|];
            && a[|a| - 1] == QUOTE
            && forall i :: 0 < i < |a| - 1 && a[i] == QUOTE ==> a[i - 1] == BACKSLASH
  {
    hide At;
    AtBound(t, o, b);
    var a := t[o + k..o + |b|];
    forall i | 0 <= i < |a| ensures a[i] == b[k + i] {
      AtElement(t, o, b, k + i);
    }
  }

  /** The `=` of an assignment in a text that ends with a quote is not its end. */
  lemma EqualsBeforeQuote(b: Text, k: nat, m: Text)
    requires k < |b| && AssignsAt(b, k, m) && b[|b| - 1] == QUOTE
    ensures EqualsAt(b, k, m) + 1 < |b|
  {
  }

  // ---------------------------------------------------------------------------
  // Which strings read back
  // ---------------------------------------------------------------------------

  lemma {:induction false} FindsInside(t: Text, o: nat, b: Text, n: Text, k: nat)
    requires StandsAt(t, o, b) && IsBlock(b) && IsName(n) && k <= |b|
    requires FindAssign(b, n, k).Some?
    ensures FindAssign(t, n, o + k) == Some(o + FindAssign(b, n, k).value)
    decreases |b| - k
  {
    hide SkipSpace, SkipBlanks, AssignsAt, IsBlock, At;
    AssignsShift(t, o, b, k, n);
    FindStep(t, n, o + k);
    AtBound(t, o, b);
    if !AssignsAt(b, k, n) {
      FindsInside(t, o, b, n, k + 1);
    }
  }

  /** The search reaches the first block that assigns the name on any line. */
  lemma {:induction false} Reaches(t: Text, o: nat, bs: seq<Text>, k: nat, n: Text)
    requires EndsWith(t, o, bs) && AreBlocks(bs) && IsName(n) && k < |bs|
    requires forall j :: 0 <= j < k ==> !Assigns(bs[j], n)
    ensures FindAssign(t, n, o) == FindAssign(t, n, o + Offset(bs, k))
    ensures StandsAt(t, o + Offset(bs, k), bs[k]) && IsBlock(bs[k])
    decreases k
  {
    hide At, SkipSpace, IsBlock, AssignsAt, Assigns, StandsAt, EndsWith, FindAssign;
    FirstBlock(t, o, bs);
    if k > 0 {
      FindPasses(t, o, bs[0], n, 0);
      Reaches(t, o + |bs[0]| + 1, bs[1..], k - 1, n);
    } else {
      assert o + 0 == o;
    }
  }

  /** Some line of an earlier string assigns the string's name. */
  predicate IsIntruded(v: Vars, k: nat)
    requires k < |v.strings|
  {
    exists j :: 0 <= j < k && StringAssigns(v.strings[j], v.strings[k].0)
  }

  predicate StringAssigns(s: (Text, Text), m: Text) {
    Assigns(Line(s.0, Quote(s.1)), m)
  }

  lemma {:induction false} FirstIntruder(v: Vars, k: nat, i: nat) returns (j: nat)
    requires k < |v.strings| && i <= k
    requires exists j :: i <= j < k && StringAssigns(v.strings[j], v.strings[k].0)
    ensures i <= j < k && StringAssigns(v.strings[j], v.strings[k].0)
    ensures forall l :: i <= l < j ==> !StringAssigns(v.strings[l], v.strings[k].0)
    decreases k - i
  {
    hide StringAssigns;
    if StringAssigns(v.strings[i], v.strings[k].0) {
      j := i;
    } else {
      j := FirstIntruder(v, k, i + 1);
    }
  }

  lemma AssignsSomewhere(b: Text, m: Text)
    requires Assigns(b, m)
    ensures FindAssign(b, m, 0).Some?
  {
    hide AssignsAt;
  }

  lemma IntrudedReads(v: Vars, existing: Text, k: nat, j: nat)
    requires HasNames(v) && j < k < |v.strings| && StringAssigns(v.strings[j], v.strings[k].0)
    requires forall l :: 0 <= l < j ==> !StringAssigns(v.strings[l], v.strings[k].0)
    ensures HclString(Rendered(v, existing), v.strings[k].0) == NoString
  {
    hide StringLines, OperatorLines, JsonBlocks, IsBlock, IsName, IsJson, Assigns, FindAssign, AssignmentAt, FindLiteral,
      AssignsAt, AreBlocks, StandsAt, EndsWith, Line, Quote, JoinLines, Decode, StartsInside;
    var (n, s) := v.strings[j];
    var m := v.strings[k].0;
    AllBlocks(v, existing);
    var bs, t := Blocks(v, existing), Rendered(v, existing);
    var o, b := Offset(bs, j), Line(n, Quote(s));
    forall l | 0 <= l < j ensures !Assigns(bs[l], m) {
      StringLineAt(v.strings, l);
      assert !StringAssigns(v.strings[l], m);
    }
    StringLineAt(v.strings, j);
    WholeText(bs);
    Reaches(t, 0, bs, j, m);
    AssignsSomewhere(b, m);
    var i := FindAssign(b, m, 0).value;
    FindsInside(t, o, b, m, 0);
    NotAtStart(n, s, m, i);
    InnerAssignment(n, s, i, m);
    InnerGivesNothing(t, o, n, s, i, m);
  }

  lemma NotAtStart(n: Text, s: Text, m: Text, i: nat)
    requires IsName(n) && IsName(m) && n != m && FindAssign(Line(n, Quote(s)), m, 0) == Some(i)
    ensures 0 < i < |Line(n, Quote(s))| && AssignsAt(Line(n, Quote(s)), i, m)
  {
    hide AssignsAt, IsBlock, IsName, Line, Quote;
    if i == 0 {
      QuoteTrimmed(s);
      LineIs(n, Quote(s));
      SameName(Line(n, Quote(s)), n, m);
    }
  }

  /** A string reads back if and only if no line of an earlier string assigns its name. */
  lemma StringReads(v: Vars, existing: Text, k: nat)
    requires HasNames(v) && k < |v.strings|
    ensures HclString(Rendered(v, existing), v.strings[k].0) == Value(v.strings[k].1) <==> !IsIntruded(v, k)
  {
    hide StringLines, OperatorLines, JsonBlocks, IsBlock, IsName, IsJson, Assigns, HclAssignment, AssignsAt, IsStable,
      AreBlocks, HclString, Line, Quote, JoinLines;
    if IsIntruded(v, k) {
      var j := FirstIntruder(v, k, 0);
      IntrudedReads(v, existing, k, j);
    } else {
      var (n, s) := v.strings[k];
      AllBlocks(v, existing);
      forall l | 0 <= l < k ensures !Assigns(Blocks(v, existing)[l], n) {
        StringLineAt(v.strings, l);
        assert !StringAssigns(v.strings[l], n);
      }
      StringLineAt(v.strings, k);
      StringStable(n, s);
      FoundAt(Blocks(v, existing), k, n);
      StringLineReads(Rendered(v, existing), n, s);
    }
  }

  lemma {:induction false} DriftsSomewhere(s: Text, ss: seq<(Text, Text)>, k: nat)
    requires k < |ss| && HclString(s, ss[k].0) != Value(ss[k].1)
    ensures StringDrift(s, ss) != Some([])
  {
    hide HclString;
    if k > 0 {
      DriftsSomewhere(s, ss[1..], k - 1);
    }
  }

  /** The strings of a rendered text show no drift if and only if none of them assigns a later one on its lines. */
  lemma StringsReadBack(v: Vars, existing: Text)
    requires HasNames(v)
    ensures StringDrift(Rendered(v, existing), v.strings) == Some([]) <==>
            forall k :: 0 <= k < |v.strings| ==> !IsIntruded(v, k)
  {
    hide HclString, Rendered, HasNames, IsIntruded, StringDrift;
    var t := Rendered(v, existing);
    forall k | 0 <= k < |v.strings|
      ensures HclString(t, v.strings[k].0) == Value(v.strings[k].1) <==> !IsIntruded(v, k)
    {
      StringReads(v, existing, k);
    }
    if k :| 0 <= k < |v.strings| && IsIntruded(v, k) {
      DriftsSomewhere(t, v.strings, k);
    } else {
      NoStringDrifts(t, v.strings);
    }
  }

  /** A value made of U+2028 and an assignment of a later string's name shows up as drift. */
  lemma SeparatorDrifts(n: Text, m: Text, value: Text, existing: Text)
    requires IsName(n) && IsName(m) && n != m
    ensures var v := Vars([(n, [0x2028] + m + [EQUALS]), (m, value)], [], map[], []);
            Drift(v, Rendered(v, existing)) != Some([])
  {
    hide IsName, HclString, HasValue, Rendered, StringDrift, IsIntruded;
    var v := Vars([(n, [0x2028] + m + [EQUALS]), (m, value)], [], map[], []);
    SeparatorAssigns(n, m);
    Intruded(v);
    StringsReadBack(v, existing);
    NothingMore([]);
  }

  lemma Intruded(v: Vars)
    requires |v.strings| == 2 && StringAssigns(v.strings[0], v.strings[1].0)
    ensures IsIntruded(v, 1)
  {
  }

  lemma SeparatorAssigns(n: Text, m: Text)
    requires IsName(n) && IsName(m)
    ensures StringAssigns((n, [0x2028] + m + [EQUALS]), m)
  {
    hide Line, PadEnd, QuoteBody, QuoteUnit, AssignsAt, At, IsName;
    var s := [0x2028] + m + [EQUALS];
    var b, w := Line(n, Quote(s)), |PadEnd(n)| + 3;
    NamesArePlain(m);
    PlainBody(s);
    LineChars(n, Quote(s));
    AtSuffix(b, w, Quote(s));
    AtSplit(b, w, [QUOTE] + s, [QUOTE]);
    AtSplit(b, w, [QUOTE], s);
    AssignsHere(b, w + 1, m);
  }

  lemma NamesArePlain(m: Text)
    requires IsName(m)
    ensures var s := [0x2028] + m + [EQUALS]; forall i :: 0 <= i < |s| ==> QuoteUnit(s[i]) == [s[i]]
  {
    var s := [0x2028] + m + [EQUALS];
    forall i | 0 <= i < |s| ensures QuoteUnit(s[i]) == [s[i]] {
      if 0 < i < |s| - 1 {
        assert s[i] == m[i - 1];
        assert IsNameChar(m[i - 1]);
      }
    }
  }

  lemma AssignsHere(b: Text, o: nat, m: Text)
    requires IsName(m) && At(b, o, [0x2028] + m + [EQUALS])
    ensures Assigns(b, m)
  {
    hide At, IsSpace, SkipSpace;
    var s := [0x2028] + m + [EQUALS];
    AtBound(b, o, s);
    AtSplit(b, o, [0x2028] + m, [EQUALS]);
    AtSplit(b, o, [0x2028], m);
    AtElement(b, o, [0x2028], 0);
    AtElement(b, o + 1 + |m|, [EQUALS], 0);
    SliceIs(b, o + 1, m);
    AtElement(b, o + 1, m, 0);
    assert IsNameChar(m[0]);
    EqualsIsNoSpace();
    SpaceEndsAt(b, o + 1 + |m|, o + 1 + |m|);
    assert AssignsAt(b, o + 1, m);
  }

  lemma {:induction false} PlainBody(s: Text)
    requires forall i :: 0 <= i < |s| ==> QuoteUnit(s[i]) == [s[i]]
    ensures QuoteBody(s) == s
  {
    hide QuoteUnit;
    if s == [] {
    } else if |s| >= 2 && IsHighSurrogate(s[0]) && IsLowSurrogate(s[1]) {
      PlainBody(s[2..]);
      assert [s[0], s[1]] + s[2..] == s;
    } else {
      PlainBody(s[1..]);
      assert [s[0]] + s[1..] == s;
    }
  }
}
