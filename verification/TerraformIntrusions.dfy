// What a rendered variables file says about a JSON variable that a preserved block assigns, too.

module TerraformIntrusions {
  import opened Results
  import opened Texts
  import opened TextLines
  import opened JsonText
  import opened JsoncBlanking
  import opened ConfigScan
  import opened HclText
  import opened TerraformVars
  import opened TerraformBlocks
  import opened TerraformLines
  import opened TerraformPreserved
  import opened TerraformTheorems
  import opened TerraformStrings

  // ---------------------------------------------------------------------------
  // Where `=` can stand in JSON
  // ---------------------------------------------------------------------------

  /** Some quote stands between `i` and `m`, and no line break behind it. */
  ghost predicate Covered(s: Text, i: nat, m: nat)
    requires m < |s|
  {
    exists a :: i <= a <= m && s[a] == QUOTE && forall l :: a <= l <= m ==> s[l] != NEWLINE
  }

  /** Every `=` between the offsets stands in a string. */
  ghost predicate IsQuoted(s: Text, i: nat, e: nat) {
    e <= |s| && forall m :: i <= m < e && s[m] == EQUALS ==> Covered(s, i, m)
  }

  lemma QuotedJoin(s: Text, i: nat, j: nat, e: nat)
    requires i <= j <= e && IsQuoted(s, i, j) && IsQuoted(s, j, e)
    ensures IsQuoted(s, i, e)
  {
    forall m | i <= m < e && s[m] == EQUALS ensures Covered(s, i, m) {
      if m >= j {
        assert Covered(s, j, m);
      }
    }
  }

  lemma {:induction false} DecodedIsLine(b: Text)
    requires Decode(b).Some?
    ensures IsLine(b)
  {
    hide Decode;
    if b != [] {
      DecodeStep(b);
      var n := Unit(b).value.1;
      DecodedIsLine(b[n..]);
      UnitHasNoBreak(b);
      forall k | 0 <= k < |b| ensures b[k] != NEWLINE {
        if k >= n {
          assert b[k] == b[n..][k - n];
        }
      }
    }
  }

  lemma UnitHasNoBreak(b: Text)
    requires b != [] && Unit(b).Some?
    ensures forall k :: 0 <= k < Unit(b).value.1 ==> b[k] != NEWLINE
  {
    if Unit(b).value.1 == 6 {
      assert b[2..][0] == b[2] && b[2..][1] == b[3] && b[2..][2] == b[4] && b[2..][3] == b[5];
    }
  }

  lemma LiteralQuoted(s: Text, i: nat)
    requires i < |s| && s[i] == QUOTE && ParseLiteral(s, i).Done?
    ensures IsQuoted(s, i, ParseLiteral(s, i).next)
  {
    hide Decode, StringEndAt;
    var e := ParseLiteral(s, i).next;
    var b := s[i + 1..e - 1];
    DecodedIsLine(b);
    StringEndsInQuote(s, i + 1);
    forall l | i <= l < e ensures s[l] != NEWLINE {
      if i < l < e - 1 {
        assert s[l] == b[l - i - 1];
      }
    }
  }

  lemma {:induction false} StringEndsInQuote(s: Text, i: nat)
    requires StringEndAt(s, i).Some?
    ensures s[StringEndAt(s, i).value - 1] == QUOTE
    decreases |s| - i
  {
    if s[i] == BACKSLASH {
      StringEndsInQuote(s, i + 2);
    } else if s[i] != QUOTE {
      StringEndsInQuote(s, i + 1);
    }
  }

  lemma {:induction false} SpaceQuoted(s: Text, i: nat)
    requires i <= |s|
    ensures IsQuoted(s, i, SkipJsonSpace(s, i))
    decreases |s| - i
  {
    if i < |s| && IsJsonSpace(s[i]) {
      SpaceQuoted(s, i + 1);
      OneQuoted(s, i);
      QuotedJoin(s, i, i + 1, SkipJsonSpace(s, i));
    }
  }

  lemma OneQuoted(s: Text, i: nat)
    requires i < |s| && s[i] != EQUALS
    ensures IsQuoted(s, i, i + 1)
  {
  }

  lemma {:induction false} ValueQuoted(s: Text, i: nat)
    ensures ParseValue(s, i).Done? ==> i < |s| && IsQuoted(s, i, ParseValue(s, i).next)
    decreases |s| - i, 0
  {
    hide IsQuoted, ParseLiteral, ParseGroup;
    if i < |s| && ParseValue(s, i).Done? {
      if s[i] == QUOTE {
        LiteralQuoted(s, i);
      } else if s[i] == LBRACE || s[i] == LBRACKET {
        GroupQuoted(s[i] == LBRACE, s, i + 1);
        OneQuoted(s, i);
        QuotedJoin(s, i, i + 1, ParseValue(s, i).next);
      } else {
        ScalarQuoted(s, i);
      }
    }
  }

  lemma ScalarQuoted(s: Text, i: nat)
    requires i < |s| && ParseScalar(s, i).Done?
    ensures IsQuoted(s, i, ParseScalar(s, i).next)
  {
  }

  lemma {:induction false} GroupQuoted(obj: bool, s: Text, i: nat)
    requires i <= |s|
    ensures ParseGroup(obj, s, i).Done? ==> IsQuoted(s, i, ParseGroup(obj, s, i).next)
    decreases |s| - i, 3
  {
    hide IsQuoted, ParseEntries, SkipJsonSpace, Build;
    var j := SkipJsonSpace(s, i);
    if j < |s| && s[j] == Closer(obj) {
      SpaceQuoted(s, i);
      OneQuoted(s, j);
      QuotedJoin(s, i, j, j + 1);
    } else {
      EntriesQuoted(obj, s, i);
    }
  }

  lemma {:induction false} EntriesQuoted(obj: bool, s: Text, i: nat)
    requires i <= |s|
    ensures ParseEntries(obj, s, i).Done? ==> IsQuoted(s, i, ParseEntries(obj, s, i).next)
    decreases |s| - i, 2
  {
    hide IsQuoted, ParseEntry;
    var r := ParseEntry(obj, s, i);
    if ParseEntries(obj, s, i).Done? {
      EntryQuoted(obj, s, i);
      OneQuoted(s, r.next);
      QuotedJoin(s, i, r.next, r.next + 1);
      if s[r.next] != Closer(obj) {
        EntriesQuoted(obj, s, r.next + 1);
        QuotedJoin(s, i, r.next + 1, ParseEntries(obj, s, i).next);
      }
    }
  }

  lemma LabelQuoted(obj: bool, s: Text, i: nat)
    requires i <= |s| && ParseLabel(obj, s, i).Done?
    ensures IsQuoted(s, i, ParseLabel(obj, s, i).next)
  {
    hide IsQuoted, ParseLiteral, SkipJsonSpace;
    if obj {
      var e := ParseLiteral(s, i).next;
      var j := SkipJsonSpace(s, e);
      LiteralQuoted(s, i);
      SpaceQuoted(s, e);
      OneQuoted(s, j);
      QuotedJoin(s, i, e, j);
      QuotedJoin(s, i, j, j + 1);
    } else {
      NothingQuoted(s, i);
    }
  }

  lemma NothingQuoted(s: Text, i: nat)
    requires i <= |s|
    ensures IsQuoted(s, i, i)
  {
  }

  lemma {:induction false} EntryQuoted(obj: bool, s: Text, i: nat)
    requires i <= |s|
    ensures ParseEntry(obj, s, i).Done? ==> IsQuoted(s, i, ParseEntry(obj, s, i).next)
    decreases |s| - i, 1
  {
    hide IsQuoted, ParseValue, ParseLabel, SkipJsonSpace;
    if ParseEntry(obj, s, i).Done? {
      var i1 := SkipJsonSpace(s, i);
      var j := ParseLabel(obj, s, i1).next;
      var j1 := SkipJsonSpace(s, j);
      var e := ParseValue(s, j1).next;
      SpaceQuoted(s, i);
      LabelQuoted(obj, s, i1);
      QuotedJoin(s, i, i1, j);
      SpaceQuoted(s, j);
      QuotedJoin(s, i, j, j1);
      ValueQuoted(s, j1);
      QuotedJoin(s, i, j1, e);
      SpaceQuoted(s, e);
      QuotedJoin(s, i, e, SkipJsonSpace(s, e));
    }
  }

  lemma JsonQuoted(s: Text)
    requires JsonParse(s).Some?
    ensures IsQuoted(s, 0, |s|)
  {
    hide IsQuoted, ParseValue, SkipJsonSpace;
    var i := SkipJsonSpace(s, 0);
    var e := ParseValue(s, i).next;
    SpaceQuoted(s, 0);
    ValueQuoted(s, i);
    QuotedJoin(s, 0, i, e);
    SpaceQuoted(s, e);
    QuotedJoin(s, 0, e, |s|);
  }

  lemma {:induction false} TrimStartIs(t: Text) returns (f: nat)
    ensures f <= |t| && TrimStart(t) == t[f..] && forall k :: 0 <= k < f ==> IsSpace(t[k])
  {
    if t != [] && IsSpace(t[0]) {
      f := TrimStartIs(t[1..]);
      assert t[1..][f..] == t[f + 1..];
      forall k | 0 <= k < f + 1 ensures IsSpace(t[k]) {
        assert k > 0 ==> t[k] == t[1..][k - 1];
      }
      f := f + 1;
    } else {
      f := 0;
    }
  }

  /** A text in which a name and `=` stand at the start or behind a line break, unquoted, is no JSON. */
  lemma AssignmentIsNoJson(x: Text, p: nat, m: nat)
    requires p <= m < |x| && x[m] == EQUALS && (p == 0 || x[p - 1] == NEWLINE)
    requires forall l :: p <= l < m ==> IsSpace(x[l]) || IsNameChar(x[l])
    ensures JsonParse(Trim(x)) == None
  {
    hide JsonParse, TrimEnd;
    var f := TrimStartIs(x);
    EqualsIsNoSpace();
    var y := Trim(x);
    TrimmedReaches(x[f..], m - f);
    assert forall l :: 0 <= l < |y| ==> y[l] == x[f..][l] == x[f + l];
    if JsonParse(y).Some? {
      JsonQuoted(y);
      NotCovered(x, f, y, p, m);
    }
  }

  lemma TrimmedReaches(t: Text, m: nat)
    requires m < |t| && !IsSpace(t[m])
    ensures m < |TrimEnd(t)| && TrimEnd(t) == t[..|TrimEnd(t)|]
  {
  }

  lemma NotCovered(x: Text, f: nat, y: Text, p: nat, m: nat)
    requires p <= m < |x| && x[m] == EQUALS && (p == 0 || x[p - 1] == NEWLINE) && f <= m && m - f < |y|
    requires f + |y| <= |x| && forall l :: 0 <= l < |y| ==> y[l] == x[f + l]
    requires forall l :: p <= l < m ==> IsSpace(x[l]) || IsNameChar(x[l])
    ensures !IsQuoted(y, 0, |y|)
  {
    assert y[m - f] == x[f + (m - f)] == EQUALS;
    forall a | 0 <= a <= m - f && y[a] == QUOTE ensures exists l :: a <= l <= m - f && y[l] == NEWLINE {
      assert x[f + a] == QUOTE;
      assert f + a < p;
      assert y[p - 1 - f] == x[p - 1] == NEWLINE;
    }
    assert !Covered(y, 0, m - f);
  }

  // ---------------------------------------------------------------------------
  // An assignment inside a block, read in the block and in the text
  // ---------------------------------------------------------------------------

  /** The JSON value of an assignment. */
  function JsonOf(a: Option<Text>): Option<Json> {
    match a
    case None => None
    case Some(x) => JsonParse(Trim(AfterEquals(x)))
  }

  function AfterEquals(x: Text): Text {
    var e := IndexOf(x, EQUALS, 0);
    if e < |x| then x[e + 1..] else x
  }

  lemma FileJsonIs(s: Text, n: Text)
    ensures FileJson(s, n) == JsonOf(HclAssignment(s, n))
  {
    hide HclAssignment, JsonParse, Trim;
  }

  lemma {:induction false} CloseWithin(s: Text, p: nat, b: Text, i: nat, obj: bool, depth: int)
    requires At(s, p, b) && p <= i && CloseAt(s, i, obj, depth).Ok? && CloseAt(s, i, obj, depth).value <= p + |b|
    ensures CloseAt(b, i - p, obj, depth) == Ok(CloseAt(s, i, obj, depth).value - p)
    decreases |s| - i
  {
    hide At, StringEndAt;
    AtElement(s, p, b, i - p);
    if s[i] == QUOTE {
      StringEndInside(s, i + 1, b, p);
      CloseWithin(s, p, b, StringEndAt(s, i + 1).value, obj, depth);
    } else if s[i] == Opener(obj) {
      CloseWithin(s, p, b, i + 1, obj, depth + 1);
    } else if s[i] == Closer(obj) {
      if depth != 1 {
        CloseWithin(s, p, b, i + 1, obj, depth - 1);
      }
    } else {
      CloseWithin(s, p, b, i + 1, obj, depth);
    }
  }

  lemma NoEqualsBefore(x: Text, k: nat, n: Text)
    requires IsName(n) && AssignsAt(x, k, n)
    ensures k <= EqualsAt(x, k, n) < |x| && x[EqualsAt(x, k, n)] == EQUALS
    ensures forall l :: k <= l < EqualsAt(x, k, n) ==> x[l] != EQUALS
  {
    hide SkipSpace, SkipBlanks;
    var q, m := SkipBlanks(x, k), EqualsAt(x, k, n);
    EqualsIsNoSpace();
    forall l | k <= l < m ensures x[l] != EQUALS {
      if q <= l < q + |n| {
        assert x[l] == x[q..q + |n|][l - q] == n[l - q];
        assert IsNameChar(n[l - q]);
      }
    }
  }

  /** Between the start of an assignment and its `=` stands no other `=`. */
  lemma EqualsIsFirst(x: Text, k: nat, n: Text, e: nat)
    requires IsName(n) && AssignsAt(x, k, n) && EqualsAt(x, k, n) < e <= |x|
    ensures k <= EqualsAt(x, k, n) && AfterEquals(x[k..e]) == x[EqualsAt(x, k, n) + 1..e]
  {
    hide AssignsAt, EqualsAt;
    var m := EqualsAt(x, k, n);
    NoEqualsBefore(x, k, n);
    var a := x[k..e];
    assert forall l :: 0 <= l < |a| ==> a[l] == x[k + l];
    FirstEquals(a, 0, m - k);
  }

  /** A rendered line stands behind the block. */
  ghost predicate LineBehind(t: Text, o: nat, b: Text, m: Text, value: Text) {
    At(t, o + |b| + 1, Line(m, value)) && IsName(m)
  }

  /** Up to its `=`, the line holds only its name and spaces. */
  lemma LineHead(t: Text, o: nat, b: Text, m: Text, value: Text)
    requires LineBehind(t, o, b, m, value)
    ensures var p, w := o + |b| + 1, o + |b| + 1 + |PadEnd(m)| + 1;
            && w < |t| && t[w] == EQUALS && !IsSpace(t[p])
            && forall l :: p <= l < w ==> t[l] == SPACE || IsNameChar(t[l])
  {
    hide Line, PadEnd, At;
    var p := o + |b| + 1;
    LineChars(m, value);
    var line := Line(m, value);
    AtBound(t, p, line);
    forall l | 0 <= l <= |PadEnd(m)| + 1 ensures t[p + l] == line[l] {
      AtElement(t, p, line, l);
    }
    forall l | 0 <= l < |PadEnd(m)| + 1 ensures line[l] == SPACE || IsNameChar(line[l]) {
      if l < |m| {
        assert line[l] == line[..|m|][l] == m[l];
      }
    }
    assert line[0] == line[..|m|][0] == m[0];
    assert IsNameChar(m[0]);
    forall l | p <= l < p + |PadEnd(m)| + 1 ensures t[l] == SPACE || IsNameChar(t[l]) {
      assert t[p + (l - p)] == line[l - p];
    }
  }

  /** What runs past the block into the line behind it is no JSON. */
  lemma PastBlockIsNoJson(t: Text, o: nat, b: Text, i: nat, e: nat, m: Text, value: Text)
    requires StandsAt(t, o, b) && LineBehind(t, o, b, m, value)
    requires o <= i <= o + |b| && e <= |t| && o + |b| + 1 + |PadEnd(m)| + 1 < e
    ensures JsonParse(Trim(t[i..e])) == None
  {
    hide At, SkipSpace, PadEnd, JsonParse, Trim, Line, LineBehind;
    LineHead(t, o, b, m, value);
    var p, w := o + |b| + 1, o + |b| + 1 + |PadEnd(m)| + 1;
    var x := t[i..e];
    assert forall l :: 0 <= l < |x| ==> x[l] == t[i + l];
    assert x[p - i - 1] == t[p - 1] == NEWLINE;
    assert x[w - i] == t[w];
    forall l | p - i <= l < w - i ensures IsSpace(x[l]) || IsNameChar(x[l]) {
      assert x[l] == t[i + l];
    }
    AssignmentIsNoJson(x, p - i, w - i);
  }

  /** A group that is not closed in the block closes behind the line's `=`, if at all. */
  lemma ClosesBehind(t: Text, o: nat, b: Text, v: nat, obj: bool, m: Text, value: Text)
    requires StandsAt(t, o, b) && LineBehind(t, o, b, m, value) && v < |b|
    requires CloseAt(b, v, obj, 0).Err? && CloseAt(t, o + v, obj, 0).Ok?
    ensures CloseAt(t, o + v, obj, 0).value > o + |b| + 1 + |PadEnd(m)| + 1
  {
    hide At, SkipSpace, PadEnd, CloseAt, Line, LineBehind;
    var e := CloseAt(t, o + v, obj, 0).value;
    if e <= o + |b| {
      CloseWithin(t, o, b, o + v, obj, 0);
    }
    LineHead(t, o, b, m, value);
    CutStands(t, o + v, e);
    CloseInside(t, o + v, t[o + v..e], o + v, obj, 0);
    assert t[e - 1] == t[o + v..e][|t[o + v..e]| - 1] == Closer(obj);
    CloserIsNoName(obj);
  }

  lemma CloserIsNoName(obj: bool)
    ensures !IsNameChar(Closer(obj)) && Closer(obj) != SPACE && Closer(obj) != NEWLINE && Closer(obj) != EQUALS
  {
  }

  lemma SliceShift(t: Text, o: nat, b: Text, k: nat, e: nat)
    requires At(t, o, b) && k <= e <= |b|
    ensures o + e <= |t| && t[o + k..o + e] == b[k..e]
  {
    forall l | k <= l < e ensures t[o + l] == b[l] {
    }
    assert |t[o + k..o + e]| == |b[k..e]|;
    forall l | 0 <= l < e - k ensures t[o + k..o + e][l] == b[k..e][l] {
      assert t[o + (k + l)] == b[k + l];
    }
  }

  lemma BreakShift(t: Text, o: nat, b: Text, v: nat)
    requires StandsAt(t, o, b) && v < |b|
    ensures v <= IndexOf(b, NEWLINE, v) <= |b| && IndexOf(t, NEWLINE, o + v) == o + IndexOf(b, NEWLINE, v)
  {
    hide At, SkipSpace;
    var e := IndexOf(b, NEWLINE, v);
    AtBound(t, o, b);
    forall l | o + v <= l < o + e ensures t[l] != NEWLINE {
      AtElement(t, o, b, l - o);
    }
    if e < |b| {
      AtElement(t, o, b, e);
    }
    BreakBehind(t, o + v, o + e);
  }

  lemma GroupSame(t: Text, o: nat, b: Text, k: nat, n: Text, m: Text, value: Text)
    requires StandsAt(t, o, b) && IsName(n) && k < |b| && AssignsAt(b, k, n) && LineBehind(t, o, b, m, value)
    requires AssignsAt(t, o + k, n) && EqualsAt(t, o + k, n) == o + EqualsAt(b, k, n)
    requires var v := ValueStart(b, k, n);
             v < |b| && ValueStart(t, o + k, n) == o + v && o + v < |t| && t[o + v] == b[v] && (b[v] == LBRACE || b[v] == LBRACKET)
    ensures JsonOf(AssignmentAt(t, o + k, n)) == JsonOf(AssignmentAt(b, k, n))
  {
    hide At, SkipSpace, CloseAt, AssignsAt, EqualsAt, ValueStart, LineBehind, JsonParse, Trim, AfterEquals, PadEnd;
    var v, obj := ValueStart(b, k, n), b[ValueStart(b, k, n)] == LBRACE;
    ValueBehind(b, k, n);
    if CloseAt(b, v, obj, 0).Ok? {
      CloseShift(t, o, b, v, obj, 0);
      SliceShift(t, o, b, k, CloseAt(b, v, obj, 0).value);
    } else if CloseAt(t, o + v, obj, 0).Ok? {
      var e := CloseAt(t, o + v, obj, 0).value;
      ClosesBehind(t, o, b, v, obj, m, value);
      EqualsIsFirst(t, o + k, n, e);
      PastBlockIsNoJson(t, o, b, o + EqualsAt(b, k, n) + 1, e, m, value);
    }
  }

  lemma ValueBehind(b: Text, k: nat, n: Text)
    requires AssignsAt(b, k, n)
    ensures k <= EqualsAt(b, k, n) < ValueStart(b, k, n) && EqualsAt(b, k, n) < |b|
  {
    hide SkipSpace, SkipBlanks, IsLineStart;
  }

  lemma PlainSame(t: Text, o: nat, b: Text, k: nat, n: Text)
    requires StandsAt(t, o, b) && k < |b| && AssignsAt(b, k, n)
    requires var v := ValueStart(b, k, n);
             v < |b| && ValueStart(t, o + k, n) == o + v && o + v < |t| && t[o + v] == b[v] && b[v] != LBRACE && b[v] != LBRACKET
    ensures AssignmentAt(t, o + k, n) == AssignmentAt(b, k, n)
  {
    hide At, SkipSpace, CloseAt, AssignsAt, EqualsAt, ValueStart, TrimEnd;
    ValueBehind(b, k, n);
    var v := ValueStart(b, k, n);
    BreakShift(t, o, b, v);
    SliceShift(t, o, b, k, IndexOf(b, NEWLINE, v));
  }

  /** An assignment that ends the block without a value is no JSON in the block. */
  lemma NoJsonAtEnd(b: Text, k: nat, n: Text)
    requires IsBlock(b) && IsName(n) && k < |b| && AssignsAt(b, k, n) && ValueStart(b, k, n) >= |b|
    ensures EqualsAt(b, k, n) == |b| - 1
    ensures JsonOf(AssignmentAt(b, k, n)) == None
  {
    hide At, CloseAt, AssignsAt, EqualsAt, JsonParse, Trim, AfterEquals, IsBlock, SkipSpace, IsName;
    ValueBehind(b, k, n);
    TerraformStrings.BlockEnd(b);
    EndsWithEquals(b, k, n);
    EqualsIsFirst(b, k, n, |b|);
    TrimEndKeeps(b[k..|b|]);
    assert b[EqualsAt(b, k, n) + 1..|b|] == [];
    NoJsonInNothing();
  }

  /** An assignment that ends the block without a value is no JSON, neither in the block nor in the text. */
  lemma ValuelessSame(t: Text, o: nat, b: Text, k: nat, n: Text, m: Text, value: Text)
    requires StandsAt(t, o, b) && IsBlock(b) && IsName(n) && k < |b| && AssignsAt(b, k, n) && LineBehind(t, o, b, m, value)
    requires AssignsAt(t, o + k, n) && EqualsAt(t, o + k, n) == o + EqualsAt(b, k, n)
    requires ValueStart(b, k, n) >= |b| && ValueStart(t, o + k, n) == SkipSpace(t, o + |b|)
    ensures JsonOf(AssignmentAt(b, k, n)) == None
    ensures JsonOf(AssignmentAt(t, o + k, n)) == None
  {
    hide At, CloseAt, AssignsAt, EqualsAt, LineBehind, JsonParse, Trim, AfterEquals, PadEnd, IsBlock, SkipSpace, IsName;
    NoJsonAtEnd(b, k, n);
    LineHead(t, o, b, m, value);
    var p, w := o + |b| + 1, o + |b| + 1 + |PadEnd(m)| + 1;
    SkipsBreak(t, o + |b|);
    SpaceEndsAt(t, p, p);
    NameIsNoBracket(t[p]);
    var e := IndexOf(t, NEWLINE, p);
    assert e > w;
    NoJsonPastEquals(t, o, b, k, n, m, value, e);
  }

  lemma NoJsonPastEquals(t: Text, o: nat, b: Text, k: nat, n: Text, m: Text, value: Text, e: nat)
    requires StandsAt(t, o, b) && IsName(n) && k < |b| && LineBehind(t, o, b, m, value)
    requires AssignsAt(t, o + k, n) && EqualsAt(t, o + k, n) == o + |b| - 1
    requires o + |b| + 1 + |PadEnd(m)| + 1 < e <= |t|
    ensures JsonParse(Trim(AfterEquals(TrimEnd(t[o + k..e])))) == None
  {
    hide At, AssignsAt, EqualsAt, LineBehind, JsonParse, Trim, AfterEquals, PadEnd, IsName, IsSpace, TrimEnd;
    LineHead(t, o, b, m, value);
    var w := o + |b| + 1 + |PadEnd(m)| + 1;
    EqualsIsNoSpace();
    assert t[o + k..e][w - o - k] == t[w];
    TrimmedReaches(t[o + k..e], w - o - k);
    var a := TrimEnd(t[o + k..e]);
    assert a == t[o + k..o + k + |a|];
    EqualsIsFirst(t, o + k, n, o + k + |a|);
    PastBlockIsNoJson(t, o, b, o + |b|, o + k + |a|, m, value);
  }

  lemma NameIsNoBracket(c: Code)
    ensures IsNameChar(c) || c == SPACE ==> c != LBRACE && c != LBRACKET && c != NEWLINE
  {
  }

  lemma EndsWithEquals(b: Text, k: nat, n: Text)
    requires AssignsAt(b, k, n) && ValueStart(b, k, n) >= |b| && b != [] && !IsSpace(b[|b| - 1])
    ensures EqualsAt(b, k, n) == |b| - 1
  {
    hide SkipBlanks, IsLineStart, Stands;
  }

  lemma NoJsonInNothing()
    ensures JsonParse(Trim([])) == None
  {
    assert Trim([]) == [];
    assert SkipJsonSpace([], 0) == 0;
  }

  /** An assignment inside a block says the same about JSON in the block alone and in the text. */
  lemma InnerSame(t: Text, o: nat, b: Text, k: nat, n: Text, m: Text, value: Text)
    requires StandsAt(t, o, b) && IsBlock(b) && IsName(n) && k < |b| && AssignsAt(b, k, n) && LineBehind(t, o, b, m, value)
    ensures o + k <= |t| && JsonOf(AssignmentAt(t, o + k, n)) == JsonOf(AssignmentAt(b, k, n))
  {
    hide At, CloseAt, AssignsAt, EqualsAt, LineBehind, JsonOf, IsBlock, SkipSpace, AssignmentAt, IsName;
    AssignsShift(t, o, b, k, n);
    ValueBehind(b, k, n);
    SpaceShift(t, o, b, EqualsAt(b, k, n) + 1);
    var v := ValueStart(b, k, n);
    AtBound(t, o, b);
    if v < |b| {
      AtElement(t, o, b, v);
      if b[v] == LBRACE || b[v] == LBRACKET {
        GroupSame(t, o, b, k, n, m, value);
      } else {
        PlainSame(t, o, b, k, n);
      }
    } else {
      ValuelessSame(t, o, b, k, n, m, value);
    }
  }

  // ---------------------------------------------------------------------------
  // The operator's part of the file as one block
  // ---------------------------------------------------------------------------

  /** What stands between the strings and the JSON variables, without its last line break. */
  function OperatorPart(v: Vars, existing: Text): Text {
    var t := JoinLines(OperatorLines(existing, v.operators, v.defaults));
    if t == [] then [] else t[..|t| - 1]
  }

  lemma JoinedEnds(ls: seq<Text>)
    requires ls != []
    ensures |JoinLines(ls)| > 0 && JoinLines(ls)[|JoinLines(ls)| - 1] == NEWLINE
  {
    if |ls| > 1 {
      JoinedEnds(ls[1..]);
    } else {
      assert ls[1..] == [];
    }
  }

  /** The lines of blocks, without the last line break, are a block. */
  lemma {:induction false} PartIsBlock(ls: seq<Text>)
    requires ls != [] && AreBlocks(ls)
    ensures |JoinLines(ls)| > 0 && IsBlock(JoinLines(ls)[..|JoinLines(ls)| - 1])
  {
    hide IsBlock, SkipBlanks;
    var t := JoinLines(ls);
    JoinedEnds(ls);
    var b := t[..|t| - 1];
    BlockStarts(ls[0]);
    if |ls| == 1 {
      assert ls[1..] == [] && b == ls[0];
    } else {
      var rest := JoinLines(ls[1..]);
      PartIsBlock(ls[1..]);
      var more := rest[..|rest| - 1];
      assert t == ls[0] + [NEWLINE] + rest && b == ls[0] + [NEWLINE] + more;
      BlocksJoin(ls[0], more, b);
    }
  }

  lemma BlocksJoin(a: Text, c: Text, b: Text)
    requires IsBlock(a) && IsBlock(c) && b == a + [NEWLINE] + c
    ensures IsBlock(b)
  {
    hide SkipBlanks, At;
    AtStart(b, a);
    BlanksShift(b, 0, a, 0);
    AtElement(b, 0, a, SkipBlanks(a, 0));
    assert b[|b| - 1] == c[|c| - 1];
  }

  lemma AtStart(b: Text, a: Text)
    requires |a| <= |b| && b[..|a|] == a
    ensures At(b, 0, a)
  {
    forall k | 0 <= k < |a| ensures b[0 + k] == a[k] {
      assert b[..|a|][k] == b[k];
    }
  }

  /** The rendered text with the operator's part as one of its blocks. */
  function Parts(v: Vars, existing: Text): seq<Text> {
    StringLines(v.strings)
    + (if OperatorLines(existing, v.operators, v.defaults) == [] then [] else [OperatorPart(v, existing)])
    + JsonBlocks(v.json)
  }

  lemma PartsAre(v: Vars, existing: Text)
    requires HasNames(v)
    ensures JoinLines(Parts(v, existing)) == Rendered(v, existing) && AreBlocks(Parts(v, existing))
    ensures |StringLines(v.strings)| == |v.strings| && |JsonBlocks(v.json)| == |v.json|
  {
    hide StringLines, OperatorLines, JsonBlocks, IsBlock, IsName, IsJson, JoinLines;
    StringLinesStand(v.strings);
    JsonBlocksStand(v.json);
    OperatorLinesStand(existing, v.operators, v.defaults);
    var a, ls, c := StringLines(v.strings), OperatorLines(existing, v.operators, v.defaults), JsonBlocks(v.json);
    JoinedLength(a + ls, c);
    JoinedLength(a, ls);
    if ls == [] {
      assert a + [] + c == a + ls + c;
    } else {
      var b := OperatorPart(v, existing);
      JoinedEnds(ls);
      PartIsBlock(ls);
      JoinedLength(a + [b], c);
      JoinedLength(a, [b]);
      OneJoined(b);
      assert b + [NEWLINE] == JoinLines(ls);
    }
  }

  lemma OneJoined(b: Text)
    ensures JoinLines([b]) == b + [NEWLINE]
  {
    assert [b][1..] == [];
    assert b + [NEWLINE] + [] == b + [NEWLINE];
  }

  // ---------------------------------------------------------------------------
  // What is read for a JSON variable
  // ---------------------------------------------------------------------------

  lemma NothingAssigns(n: Text)
    ensures !Assigns([], n)
  {
  }

  /** Without an assignment in the operator's part, the variable reads back. */
  lemma JsonReadsBack(v: Vars, existing: Text, k: nat)
    requires IsValid(v) && k < |v.json| && !Assigns(OperatorPart(v, existing), v.json[k].0)
    ensures FileJson(Rendered(v, existing), v.json[k].0) == Some(v.json[k].1)
  {
    hide Rendered, JsonBlock, IsName, IsJson, HclAssignment, FileJson, OperatorPart, Assigns;
    JsonIsFound(v, existing, k);
    JsonBlockReads(Rendered(v, existing), v.json[k].0, v.json[k].1);
  }

  lemma JsonIsFound(v: Vars, existing: Text, k: nat)
    requires IsValid(v) && k < |v.json| && !Assigns(OperatorPart(v, existing), v.json[k].0)
    ensures HclAssignment(Rendered(v, existing), v.json[k].0) == Some(JsonBlock(v.json[k].0, v.json[k].1))
  {
    hide StringLines, OperatorLines, JsonBlocks, IsBlock, IsName, IsJson, IsUnbrokenJson, HasNoSeparators, Assigns, HclAssignment,
      AssignsAt, IsStable, AreBlocks, FileJson, JsonBlock, JoinLines, OperatorPart, Rendered, AssignmentAt, StandsAt;
    var (n, j) := v.json[k];
    PartsAre(v, existing);
    StringLinesAvoid(v.strings, n, |v.strings|);
    JsonBlocksAvoid(v.json, n, k);
    JsonBlockAt(v.json, k);
    JsonBlockIs(n, j);
    var before := |v.strings| + if OperatorLines(existing, v.operators, v.defaults) == [] then 0 else 1;
    FoundAt(Parts(v, existing), before + k, n);
  }

  /** With one, what the part alone says about the variable is what the file says. */
  lemma JsonReadsPart(v: Vars, existing: Text, k: nat)
    requires IsValid(v) && k < |v.json| && Assigns(OperatorPart(v, existing), v.json[k].0)
    ensures FileJson(Rendered(v, existing), v.json[k].0) == FileJson(OperatorPart(v, existing), v.json[k].0)
  {
    hide StringLines, OperatorLines, JsonBlocks, IsBlock, IsName, IsJson, IsUnbrokenJson, HasNoSeparators, Assigns, FindAssign,
      AssignsAt, AreBlocks, FileJson, JsonOf, JoinLines, OperatorPart, AssignmentAt, StandsAt, EndsWith, Line, LineBehind, Print, Pretty;
    var n := v.json[k].0;
    var t, b, bs := Rendered(v, existing), OperatorPart(v, existing), Parts(v, existing);
    PartsAre(v, existing);
    StringLinesAvoid(v.strings, n, |v.strings|);
    PartIsThere(v, existing, n);
    var i := |v.strings|;
    WholeText(bs);
    Reaches(t, 0, bs, i, n);
    AssignsSomewhere(b, n);
    var o, m := Offset(bs, i), FindAssign(b, n, 0).value;
    FindsInside(t, o, b, n, 0);
    JsonBlockAt(v.json, 0);
    var value := Print(Pretty(v.json[0].1, 0));
    assert bs[i + 1] == Line(v.json[0].0, value);
    LineStands(bs, i, v.json[0].0, value);
    FoundThere(b, n);
    InnerSame(t, o, b, m, n, v.json[0].0, value);
    FileJsonIs(t, n);
    FileJsonIs(b, n);
  }

  lemma FoundThere(b: Text, n: Text)
    requires FindAssign(b, n, 0).Some?
    ensures FindAssign(b, n, 0).value < |b| && AssignsAt(b, FindAssign(b, n, 0).value, n)
  {
    hide AssignsAt;
  }

  lemma PartIsThere(v: Vars, existing: Text, n: Text)
    requires Assigns(OperatorPart(v, existing), n)
    ensures OperatorLines(existing, v.operators, v.defaults) != []
  {
    hide Assigns;
    NothingAssigns(n);
  }

  lemma LineStands(bs: seq<Text>, i: nat, m: Text, value: Text)
    requires AreBlocks(bs) && i + 1 < |bs| && bs[i + 1] == Line(m, value) && IsName(m)
    ensures LineBehind(JoinLines(bs), Offset(bs, i), bs[i], m, value)
  {
    hide At, IsBlock, JoinLines, StandsAt, Line, IsName, AreBlocks;
    var t, o := JoinLines(bs), Offset(bs, i);
    WholeText(bs);
    RestStands(t, 0, bs, i);
    FirstBlock(t, o, bs[i..]);
    assert bs[i..][1..] == bs[i + 1..] && bs[i + 1..][0] == bs[i + 1];
    FirstStands(t, o + |bs[i]| + 1, bs[i + 1..]);
  }

  lemma FirstStands(t: Text, o: nat, bs: seq<Text>)
    requires bs != [] && EndsWith(t, o, bs) && AreBlocks(bs)
    ensures At(t, o, bs[0])
  {
    hide At, IsBlock;
    FirstBlock(t, o, bs);
  }

  lemma SameJsonDrifts(s: Text, t: Text, n: Text, j: Json)
    requires FileJson(s, n) == FileJson(t, n)
    ensures JsonDrifts(s, n, j) == JsonDrifts(t, n, j)
  {
    hide FileJson;
  }

  lemma FoundDriftsNot(s: Text, n: Text, j: Json)
    requires FileJson(s, n) == Some(j)
    ensures !JsonDrifts(s, n, j)
  {
    hide FileJson;
  }

  /** A JSON variable of a rendered text drifts if and only if the operator's part assigns it and holds another value. */
  lemma JsonDriftsExactly(v: Vars, existing: Text, k: nat)
    requires IsValid(v) && k < |v.json|
    ensures var (n, j) := v.json[k];
            JsonDrifts(Rendered(v, existing), n, j) <==>
            Assigns(OperatorPart(v, existing), n) && JsonDrifts(OperatorPart(v, existing), n, j)
  {
    hide Rendered, OperatorPart, Assigns, JsonDrifts, IsValid;
    var (n, j) := v.json[k];
    if Assigns(OperatorPart(v, existing), n) {
      JsonReadsPart(v, existing, k);
      SameJsonDrifts(Rendered(v, existing), OperatorPart(v, existing), n, j);
    } else {
      JsonReadsBack(v, existing, k);
      FoundDriftsNot(Rendered(v, existing), n, j);
    }
  }

  lemma {:induction false} JsonDriftIs(s: Text, js: seq<(Text, Json)>)
    ensures JsonDrift(s, js) == [] <==> forall k :: 0 <= k < |js| ==> !JsonDrifts(s, js[k].0, js[k].1)
  {
    hide JsonDrifts;
    if js != [] {
      JsonDriftIs(s, js[1..]);
      assert js == [js[0]] + js[1..];
    }
  }

  /**
   * What was rendered shows no drift if and only if the operator's part of the file gives every JSON
   * variable that one of its lines assigns the value from the configuration.
   */
  lemma NoDriftExactly(v: Vars, existing: Text)
    requires IsValid(v)
    ensures Drift(v, Rendered(v, existing)) == Some([]) <==>
            forall k :: 0 <= k < |v.json| && Assigns(OperatorPart(v, existing), v.json[k].0) ==>
                          !JsonDrifts(OperatorPart(v, existing), v.json[k].0, v.json[k].1)
  {
    hide Rendered, OperatorPart, Assigns, JsonDrifts, HclString, IsValid, StringDrift, JsonDrift;
    var t := Rendered(v, existing);
    forall k | 0 <= k < |v.strings| ensures HclString(t, v.strings[k].0) == Value(v.strings[k].1) {
      StringFound(v, existing, k);
    }
    NoStringDrifts(t, v.strings);
    JsonDriftIs(t, v.json);
    forall k | 0 <= k < |v.json|
      ensures JsonDrifts(t, v.json[k].0, v.json[k].1) <==>
              Assigns(OperatorPart(v, existing), v.json[k].0)
              && JsonDrifts(OperatorPart(v, existing), v.json[k].0, v.json[k].1)
    {
      JsonDriftsExactly(v, existing, k);
    }
    NothingInFront(JsonDrift(t, v.json));
  }

  lemma NothingInFront(names: seq<Text>)
    ensures [] + names == names
  {
  }
}
