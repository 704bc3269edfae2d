// Rendered lines: which names they assign, how long their values are, and what is read from them.

module TerraformLines {
  import opened Results
  import opened Texts
  import opened TextLines
  import opened JsonText
  import opened JsonRoundTrip
  import opened JsoncBlanking
  import opened ConfigScan
  import opened HclText
  import opened TerraformVars
  import opened TerraformBlocks

  // ---------------------------------------------------------------------------
  // Texts that assign nothing on the lines inside them
  // ---------------------------------------------------------------------------

  /** From `k` on, the first character that can be part of no name and no white space is not `=`. */
  predicate Avoids(t: Text, k: nat)
    decreases |t| - k
  {
    k < |t| && if IsSpace(t[k]) || IsNameChar(t[k]) then Avoids(t, k + 1) else t[k] != EQUALS
  }

  /** No line that starts inside the text can be an assignment. */
  predicate IsQuiet(t: Text) {
    forall k :: 1 <= k <= |t| && IsTerminator(t[k - 1]) ==> Avoids(t, k)
  }

  /** Nor can the text follow the start of a line and be one. */
  predicate IsCalm(t: Text) {
    IsQuiet(t) && Avoids(t, 0)
  }

  predicate IsUnbroken(t: Text) {
    forall k :: 0 <= k < |t| ==> !IsTerminator(t[k])
  }

  lemma {:induction false} AvoidsShift(x: Text, t: Text, k: nat)
    requires k <= |t|
    ensures Avoids(x + t, |x| + k) <==> Avoids(t, k)
    decreases |t| - k
  {
    if k < |t| {
      assert (x + t)[|x| + k] == t[k];
      AvoidsShift(x, t, k + 1);
    }
  }

  lemma {:induction false} AvoidsOver(x: Text, t: Text, k: nat)
    requires k <= |x| && Avoids(t, 0) && forall i :: k <= i < |x| ==> x[i] != EQUALS
    ensures Avoids(x + t, k)
    decreases |x| - k
  {
    if k < |x| {
      assert (x + t)[k] == x[k];
      AvoidsOver(x, t, k + 1);
    } else {
      AvoidsShift(x, t, 0);
    }
  }

  lemma QuietBehind(x: Text, t: Text, k: nat)
    requires IsQuiet(t) && 1 <= k <= |t| && IsTerminator((x + t)[|x| + k - 1])
    ensures Avoids(x + t, |x| + k)
  {
    hide Avoids;
    assert (x + t)[|x| + k - 1] == t[k - 1];
    AvoidsShift(x, t, k);
  }

  /** A piece of a line in front of a calm text. */
  lemma CalmPiece(x: Text, t: Text)
    requires IsCalm(t) && IsUnbroken(x) && (x == [] || x[0] == QUOTE || forall i :: 0 <= i < |x| ==> x[i] != EQUALS)
    ensures IsCalm(x + t)
  {
    var s := x + t;
    assert forall i :: 0 <= i < |x| ==> s[i] == x[i];
    forall k | |x| < k <= |s| && IsTerminator(s[k - 1]) ensures Avoids(s, k) {
      QuietBehind(x, t, k - |x|);
    }
    if x == [] {
      assert s == t;
    } else if x[0] == QUOTE {
      assert s[0] == QUOTE;
    } else {
      AvoidsOver(x, t, 0);
    }
  }

  lemma CalmBreak(t: Text)
    requires IsCalm(t)
    ensures IsCalm([NEWLINE] + t)
  {
    hide Avoids;
    var s := [NEWLINE] + t;
    forall k | 1 <= k <= |s| && IsTerminator(s[k - 1]) ensures Avoids(s, k) {
      if k == 1 {
        AvoidsShift([NEWLINE], t, 0);
      } else {
        QuietBehind([NEWLINE], t, k - 1);
      }
    }
    AvoidsOver([NEWLINE], t, 0);
  }

  lemma CalmIndent(depth: nat, t: Text)
    requires IsCalm(t)
    ensures IsCalm(Indent(depth) + t)
  {
    hide IsCalm, Spaces;
    SpacesAreSpaces(2 * depth);
    CalmPiece(Spaces(2 * depth), t);
    CalmBreak(Spaces(2 * depth) + t);
    assert Indent(depth) + t == [NEWLINE] + (Spaces(2 * depth) + t);
  }

  lemma {:induction false} QuoteUnbroken(t: Text)
    requires HasNoSeparators(t)
    ensures IsUnbroken(QuoteBody(t))
  {
    if t == [] {
    } else if |t| >= 2 && IsHighSurrogate(t[0]) && IsLowSurrogate(t[1]) {
      QuoteUnbroken(t[2..]);
    } else {
      QuoteUnbroken(t[1..]);
      UnitUnbroken(t[0]);
    }
  }

  /** Without U+2028 and U+2029, the terminators that JSON.stringify does not escape. */
  predicate HasNoSeparators(t: Text) {
    forall k :: 0 <= k < |t| ==> t[k] != 0x2028 && t[k] != 0x2029
  }

  lemma UnitUnbroken(c: Code)
    requires c != 0x2028 && c != 0x2029
    ensures IsUnbroken(QuoteUnit(c))
  {
  }

  /** No string and no key in the value holds one of these terminators. */
  predicate IsUnbrokenJson(j: Json)
    decreases j
  {
    match j
    case JScalar(_) => true
    case JString(t) => HasNoSeparators(t)
    case JArray(js) => forall k :: 0 <= k < |js| ==> IsUnbrokenJson(js[k])
    case JObject(ps) => forall k :: 0 <= k < |ps| ==> HasNoSeparators(ps[k].key) && IsUnbrokenJson(ps[k].value)
  }

  lemma QuoteCalm(s: Text, t: Text)
    requires HasNoSeparators(s) && IsCalm(t)
    ensures IsCalm(Quote(s) + t)
  {
    hide IsCalm, QuoteBody;
    QuoteUnbroken(s);
    CalmPiece(Quote(s), t);
  }

  /** In front of a calm text, printed JSON is calm. */
  lemma {:induction false} PrettyCalm(j: Json, depth: nat, t: Text)
    requires IsJson(j) && IsUnbrokenJson(j) && IsCalm(t)
    ensures IsCalm(Print(Pretty(j, depth)) + t)
    decreases j, 1
  {
    hide IsCalm, QuoteBody, PrintEntries, IsNumber, HasNoSeparators, Indent;
    match j {
      case JScalar(x) =>
        CalmPiece(x, t);
      case JString(x) =>
        QuoteCalm(x, t);
      case JArray(js) =>
        CalmPiece([RBRACKET], t);
        ItemsCalm(js, depth, [RBRACKET] + t);
        GroupText(false, PrettyItems(js, depth), t);
        CalmPiece([LBRACKET], PrintEntries(PrettyItems(js, depth)) + ([RBRACKET] + t));
      case JObject(ps) =>
        CalmPiece([RBRACE], t);
        PropsCalm(ps, depth, [RBRACE] + t);
        GroupText(true, PrettyProps(ps, depth), t);
        CalmPiece([LBRACE], PrintEntries(PrettyProps(ps, depth)) + ([RBRACE] + t));
    }
  }

  lemma GroupText(obj: bool, es: seq<Entry>, t: Text)
    ensures Print(Group(obj, es, NoComma([]))) + t == [Opener(obj)] + (PrintEntries(es) + ([Closer(obj)] + t))
  {
    hide PrintEntries;
  }

  lemma EntryText(e: Entry, t: Text)
    ensures PrintEntry(e) + t == e.pre + (PrintLabel(e.tag) + (Print(e.value) + (e.post + t)))
  {
    hide PrintLabel, Print;
  }

  lemma PostCalm(depth: nat, last: bool, t: Text)
    requires IsCalm(t)
    ensures IsCalm((if last then Indent(depth) else []) + t)
  {
    hide IsCalm, Indent;
    if last {
      CalmIndent(depth, t);
    } else {
      assert [] + t == t;
    }
  }

  lemma EntriesText(es: seq<Entry>, t: Text)
    requires es != []
    ensures PrintEntries(es) + t ==
            PrintEntry(es[0]) + (if |es| == 1 then t else [COMMA] + (PrintEntries(es[1..]) + t))
  {
    hide PrintEntries, PrintEntry;
    EntriesUnfold(es);
    if |es| > 1 {
      CommaRegroups(PrintEntry(es[0]), PrintEntries(es[1..]), t);
    }
  }

  lemma EntriesUnfold(es: seq<Entry>)
    requires es != []
    ensures PrintEntries(es) == if |es| == 1 then PrintEntry(es[0]) else PrintEntry(es[0]) + ([COMMA] + PrintEntries(es[1..]))
  {
    hide PrintEntry;
  }

  lemma CommaRegroups(a: Text, b: Text, t: Text)
    ensures a + ([COMMA] + b) + t == a + ([COMMA] + (b + t))
  {
  }

  lemma {:induction false} ItemsCalm(js: seq<Json>, depth: nat, t: Text)
    requires (forall k :: 0 <= k < |js| ==> IsJson(js[k]) && IsUnbrokenJson(js[k])) && IsCalm(t)
    ensures IsCalm(PrintEntries(PrettyItems(js, depth)) + t)
    decreases js, 0
  {
    hide IsCalm, Indent, PrintEntries, PrintEntry, Print, Pretty, IsJson, IsUnbrokenJson;
    var es := PrettyItems(js, depth);
    if js == [] {
      NoEntries(es, t);
    } else {
      var rest := if |es| == 1 then t else [COMMA] + (PrintEntries(es[1..]) + t);
      if |es| > 1 {
        ItemsCalm(js[1..], depth, t);
        CalmPiece([COMMA], PrintEntries(es[1..]) + t);
      }
      PostCalm(depth, |js| == 1, rest);
      PrettyCalm(js[0], depth + 1, es[0].post + rest);
      CalmIndent(depth + 1, Print(es[0].value) + (es[0].post + rest));
      EntryText(es[0], rest);
      NoLabelText(Print(es[0].value) + (es[0].post + rest));
      EntriesText(es, t);
    }
  }

  lemma NoEntries(es: seq<Entry>, t: Text)
    requires |es| == 0
    ensures PrintEntries(es) + t == t
  {
  }

  lemma NoLabelText(t: Text)
    ensures PrintLabel(NoLabel) + t == t
  {
  }

  lemma LabelCalm(key: Text, t: Text)
    requires HasNoSeparators(key) && IsCalm(t)
    ensures IsCalm(PrintLabel(Label(QuoteBody(key), [], [SPACE])) + t)
  {
    hide IsCalm, QuoteBody, HasNoSeparators;
    CalmPiece([COLON, SPACE], t);
    QuoteCalm(key, [COLON, SPACE] + t);
    assert PrintLabel(Label(QuoteBody(key), [], [SPACE])) + t == Quote(key) + ([COLON, SPACE] + t);
  }

  lemma {:induction false} PropsCalm(ps: seq<Property>, depth: nat, t: Text)
    requires forall k :: 0 <= k < |ps| ==> IsJson(ps[k].value) && IsUnbrokenJson(ps[k].value) && HasNoSeparators(ps[k].key)
    requires IsCalm(t)
    ensures IsCalm(PrintEntries(PrettyProps(ps, depth)) + t)
    decreases ps, 0
  {
    hide IsCalm, Indent, PrintEntries, PrintEntry, Print, Pretty, IsJson, IsUnbrokenJson, HasNoSeparators, QuoteBody, PrintLabel;
    var es := PrettyProps(ps, depth);
    if ps == [] {
      NoEntries(es, t);
    } else {
      var rest := if |es| == 1 then t else [COMMA] + (PrintEntries(es[1..]) + t);
      if |es| > 1 {
        PropsCalm(ps[1..], depth, t);
        CalmPiece([COMMA], PrintEntries(es[1..]) + t);
      }
      PostCalm(depth, |ps| == 1, rest);
      PrettyCalm(ps[0].value, depth + 1, es[0].post + rest);
      LabelCalm(ps[0].key, Print(es[0].value) + (es[0].post + rest));
      CalmIndent(depth + 1, PrintLabel(es[0].tag) + (Print(es[0].value) + (es[0].post + rest)));
      EntryText(es[0], rest);
      EntriesText(es, t);
    }
  }

  lemma EndsCalmly(obj: bool)
    ensures IsCalm([Closer(obj)])
  {
  }

  /** No line inside printed JSON is an assignment. */
  lemma PrettyQuiet(j: Json)
    requires IsJson(j) && IsUnbrokenJson(j)
    ensures IsQuiet(Print(Pretty(j, 0)))
  {
    hide IsQuiet, IsCalm, QuoteBody, PrintEntries, IsNumber, HasNoSeparators;
    match j {
      case JScalar(x) =>
        UnbrokenIsQuiet(x);
      case JString(x) =>
        QuoteUnbroken(x);
        UnbrokenIsQuiet(Quote(x));
      case JArray(js) =>
        EndsCalmly(false);
        ItemsCalm(js, 0, [RBRACKET]);
        GroupIsQuiet(false, PrettyItems(js, 0));
      case JObject(ps) =>
        EndsCalmly(true);
        PropsCalm(ps, 0, [RBRACE]);
        GroupIsQuiet(true, PrettyProps(ps, 0));
    }
  }

  lemma UnbrokenIsQuiet(t: Text)
    requires IsUnbroken(t)
    ensures IsQuiet(t)
  {
  }

  lemma GroupIsQuiet(obj: bool, es: seq<Entry>)
    requires IsCalm(PrintEntries(es) + [Closer(obj)])
    ensures IsQuiet(Print(Group(obj, es, NoComma([]))))
  {
    hide IsQuiet, PrintEntries, Avoids;
    GroupText(obj, es, []);
    var p := PrintEntries(es);
    CalmPiece([Opener(obj)], p + [Closer(obj)]);
    assert p + ([Closer(obj)] + []) == p + [Closer(obj)];
    assert Print(Group(obj, es, NoComma([]))) + [] == Print(Group(obj, es, NoComma([])));
  }

  // ---------------------------------------------------------------------------
  // A rendered line as a block
  // ---------------------------------------------------------------------------

  predicate IsTrimmed(value: Text) {
    value != [] && !IsSpace(value[0]) && !IsSpace(value[|value| - 1])
  }

  lemma SpaceEndsAt(s: Text, i: nat, e: nat)
    requires i <= e <= |s| && (forall k :: i <= k < e ==> IsSpace(s[k])) && (e < |s| ==> !IsSpace(s[e]))
    ensures SkipSpace(s, i) == e
  {
    var r := SkipSpace(s, i);
    assert r >= e;
    assert r <= e;
  }

  /** The characters of a line: the name, spaces, `=` and the value. */
  lemma LineChars(n: Text, value: Text)
    ensures var b := Line(n, value);
            var w := |PadEnd(n)|;
            && w == (if |n| < 19 then 19 else |n|) && |b| == w + 3 + |value| && b[..|n|] == n
            && (forall k :: |n| <= k < w + 1 ==> b[k] == SPACE)
            && b[w + 1] == EQUALS && b[w + 2] == SPACE
            && (forall k :: 0 <= k < |value| ==> b[w + 3 + k] == value[k]) && b[w + 3..] == value
  {
    var pad := if |n| < 19 then 19 - |n| else 0;
    SpacesAreSpaces(pad);
    SpacesLength(pad);
  }

  lemma {:induction false} SpacesLength(n: nat)
    ensures |Spaces(n)| == n
  {
    if n > 0 {
      SpacesLength(n - 1);
    }
  }

  /** A line is a block that assigns its name at its start, and its value starts where it was written. */
  lemma LineIs(n: Text, value: Text)
    requires IsName(n) && IsTrimmed(value)
    ensures var b := Line(n, value);
            && IsBlock(b) && AssignsAt(b, 0, n) && EqualsAt(b, 0, n) == |PadEnd(n)| + 1
            && ValueStart(b, 0, n) == |PadEnd(n)| + 3
  {
    hide SkipSpace, Line, PadEnd;
    LineChars(n, value);
    var b, w := Line(n, value), |PadEnd(n)|;
    assert b[0] == b[..|n|][0] == n[0];
    assert IsNameChar(n[0]);
    assert SkipBlanks(b, 0) == 0;
    assert b[|b| - 1] == value[|value| - 1];
    SpaceEndsAt(b, |n|, w + 1);
    assert b[w + 3] == value[0];
    SpaceEndsAt(b, w + 2, w + 3);
  }

  /** Two names that a text assigns at the same place are one. */
  lemma SameName(b: Text, n: Text, m: Text)
    requires IsName(n) && IsName(m) && AssignsAt(b, 0, n) && AssignsAt(b, 0, m)
    ensures m == n
  {
    hide SkipSpace, SkipBlanks;
    if |n| < |m| {
      NotLonger(b, n, m);
    } else if |m| < |n| {
      NotLonger(b, m, n);
    }
  }

  lemma NotLonger(b: Text, n: Text, m: Text)
    requires IsName(m) && AssignsAt(b, 0, n) && AssignsAt(b, 0, m)
    ensures |m| <= |n|
  {
    hide SkipSpace, SkipBlanks;
    var q := SkipBlanks(b, 0);
    if |n| < |m| {
      assert b[q + |n|] == b[q..q + |m|][|n|] == m[|n|];
      assert IsNameChar(m[|n|]) && !IsSpace(m[|n|]);
      SpaceEndsAt(b, q + |n|, q + |n|);
      assert false;
    }
  }

  lemma {:induction false} AvoidsSkips(t: Text, k: nat, e: nat)
    requires k <= e <= |t| && Avoids(t, k) && forall i :: k <= i < e ==> IsSpace(t[i]) || IsNameChar(t[i])
    ensures Avoids(t, e)
    decreases e - k
  {
    if k < e {
      AvoidsSkips(t, k + 1, e);
    }
  }

  lemma AvoidsNoAssignment(t: Text, k: nat, m: Text)
    requires Avoids(t, k) && IsName(m)
    ensures !AssignsAt(t, k, m)
  {
    hide SkipSpace, SkipBlanks, Avoids;
    if AssignsAt(t, k, m) {
      var q := SkipBlanks(t, k);
      var e := EqualsAt(t, k, m);
      forall i | k <= i < e ensures IsSpace(t[i]) || IsNameChar(t[i]) {
        if q <= i < q + |m| {
          assert t[i] == t[q..q + |m|][i - q] == m[i - q];
        }
      }
      AvoidsSkips(t, k, e);
      AvoidsStops(t, e);
    }
  }

  lemma AvoidsStops(t: Text, e: nat)
    requires Avoids(t, e)
    ensures e < |t| && t[e] != EQUALS
  {
  }

  /** A line with a quiet value assigns its name and no other. */
  lemma LineAssigns(n: Text, value: Text, m: Text)
    requires IsName(n) && IsTrimmed(value) && IsQuiet(value) && IsName(m) && Assigns(Line(n, value), m)
    ensures m == n
  {
    hide AssignsAt, Avoids, Line, IsBlock;
    var b := Line(n, value);
    LineIs(n, value);
    var k :| 0 <= k < |b| && AssignsAt(b, k, m);
    if k == 0 {
      SameName(b, n, m);
    } else {
      InnerStart(n, value, k, m);
      AvoidsNoAssignment(b, k, m);
    }
  }

  /** No line starts in front of a line's value. */
  lemma NoStartBeforeValue(n: Text, value: Text, k: nat)
    requires IsName(n) && 0 < k <= |Line(n, value)| && IsTerminator(Line(n, value)[k - 1])
    ensures k > |PadEnd(n)| + 3
  {
    hide Line, PadEnd;
    LineChars(n, value);
    var b, w := Line(n, value), |PadEnd(n)| + 3;
    forall i | 0 <= i < w ensures !IsTerminator(b[i]) {
      if i < |n| {
        assert b[i] == b[..|n|][i] == n[i];
        assert IsNameChar(n[i]);
      }
    }
  }

  lemma InnerStart(n: Text, value: Text, k: nat, m: Text)
    requires IsName(n) && IsQuiet(value) && 0 < k < |Line(n, value)| && AssignsAt(Line(n, value), k, m)
    ensures Avoids(Line(n, value), k)
  {
    hide AssignsAt, Avoids, Line, PadEnd, IsName, IsQuiet, IsTerminator;
    var b := Line(n, value);
    var w := |PadEnd(n)| + 3;
    LineChars(n, value);
    StartsBehindBreak(b, k, m);
    NoStartBeforeValue(n, value, k);
    assert b[k - 1] == value[k - w - 1];
    QuietAt(value, k - w);
    AvoidsShift(b[..w], value, k - w);
    assert b == b[..w] + value;
  }

  lemma StartsBehindBreak(b: Text, k: nat, m: Text)
    requires AssignsAt(b, k, m) && 0 < k < |b|
    ensures IsTerminator(b[k - 1])
  {
  }

  lemma QuietAt(value: Text, k: nat)
    requires IsQuiet(value) && 0 < k < |value| && IsTerminator(value[k - 1])
    ensures Avoids(value, k)
  {
    hide Avoids, IsTerminator;
  }

  // ---------------------------------------------------------------------------
  // Lines with strings
  // ---------------------------------------------------------------------------

  lemma QuoteTrimmed(t: Text)
    ensures IsTrimmed(Quote(t))
  {
    hide QuoteBody;
  }

  lemma {:induction false} BodyIsLine(t: Text)
    ensures IsLine(QuoteBody(t))
  {
    if t == [] {
    } else if |t| >= 2 && IsHighSurrogate(t[0]) && IsLowSurrogate(t[1]) {
      BodyIsLine(t[2..]);
    } else {
      BodyIsLine(t[1..]);
      UnitIsLine(t[0]);
    }
  }

  lemma UnitIsLine(c: Code)
    ensures IsLine(QuoteUnit(c))
  {
  }

  lemma QuoteIsLine(t: Text)
    ensures IsLine(Quote(t))
  {
    hide QuoteBody;
    BodyIsLine(t);
  }

  /** The line of any string is found again as it was written. */
  lemma StringStable(n: Text, t: Text)
    requires IsName(n)
    ensures var b := Line(n, Quote(t)); IsBlock(b) && AssignsAt(b, 0, n) && IsStable(b, n)
  {
    hide IsBlock, IsStable, QuoteBody, AssignsAt, Line, PadEnd, EqualsAt;
    var v := Quote(t);
    var b := Line(n, v);
    QuoteTrimmed(t);
    QuoteIsLine(t);
    LineIs(n, v);
    LineChars(n, v);
    forall k | |PadEnd(n)| + 3 <= k < |b| ensures b[k] != NEWLINE {
      assert b[k] == v[k - |PadEnd(n)| - 3];
    }
    assert b[|PadEnd(n)| + 3] == v[0];
    PlainBlockStable(b, n);
  }

  /** Without separators, it assigns its name only. */
  lemma StringLineIs(n: Text, t: Text)
    requires IsName(n) && HasNoSeparators(t)
    ensures var b := Line(n, Quote(t));
            && IsBlock(b) && AssignsAt(b, 0, n) && IsStable(b, n)
            && forall m :: IsName(m) && Assigns(b, m) ==> m == n
  {
    hide IsBlock, IsStable, QuoteBody, AssignsAt, Line, HasNoSeparators, Assigns, IsQuiet;
    var v := Quote(t);
    var b := Line(n, v);
    QuoteTrimmed(t);
    QuoteUnbroken(t);
    UnbrokenIsQuiet(v);
    StringStable(n, t);
    forall m | IsName(m) && Assigns(b, m) ensures m == n {
      LineAssigns(n, v, m);
    }
  }

  lemma DecodedLiteral(a: Text, i: nat, b: Text)
    requires b != [] && Unit(b).Some? && At(a, i, b)
    ensures LiteralEnd(a, i) == LiteralEnd(a, i + Unit(b).value.1)
  {
    AtElement(a, i, b, 0);
    if Unit(b).value.1 == 6 {
      AtElement(a, i, b, 1);
      AtElement(a, i, b, 2);
      AtElement(a, i, b, 3);
      AtElement(a, i, b, 4);
      AtElement(a, i, b, 5);
      LiteralRun(a, i + 2, 4);
    } else if Unit(b).value.1 == 2 {
      AtElement(a, i, b, 1);
    }
  }

  lemma {:induction false} LiteralRun(a: Text, i: nat, n: nat)
    requires i + n <= |a|
    requires forall k :: i <= k < i + n ==> a[k] != BACKSLASH && a[k] != QUOTE
    ensures LiteralEnd(a, i) == LiteralEnd(a, i + n)
    decreases n
  {
    if n > 0 {
      LiteralRun(a, i + 1, n - 1);
    }
  }

  /** The expression for a literal reads a body that decodes to its end. */
  lemma {:induction false} LiteralEnds(a: Text, i: nat, b: Text)
    requires Decode(b).Some? && At(a, i, b) && i + |b| < |a| && a[i + |b|] == QUOTE
    ensures LiteralEnd(a, i) == Some(i + |b| + 1)
    decreases |b|
  {
    hide At, Decode, Unit;
    if b != [] {
      DecodeStep(b);
      var n := Unit(b).value.1;
      DecodedLiteral(a, i, b);
      AtDrop(a, i, b, n);
      LiteralEnds(a, i + n, b[n..]);
    }
  }

  lemma {:induction false} FindsLiteralAt(a: Text, e: nat, w: nat)
    requires e <= w < |a| && (forall k :: e <= k < w ==> a[k] != EQUALS) && a[w] == EQUALS
    requires LiteralTail(a, w + 1).Some?
    ensures FindLiteral(a, e) == LiteralTail(a, w + 1)
    decreases w - e
  {
    hide LiteralTail;
    if e < w {
      FindsLiteralAt(a, e + 1, w);
    }
  }

  lemma {:induction false} FirstEquals(a: Text, e: nat, w: nat)
    requires e <= w < |a| && (forall k :: e <= k < w ==> a[k] != EQUALS) && a[w] == EQUALS
    ensures IndexOf(a, EQUALS, e) == w
    decreases w - e
  {
    if e < w {
      FirstEquals(a, e + 1, w);
    }
  }

  /** In front of the value, the only `=` is the one behind the name. */
  lemma EqualsInLine(n: Text, value: Text)
    requires IsName(n)
    ensures var b := Line(n, value);
            var w := |PadEnd(n)| + 1;
            w < |b| && b[w] == EQUALS && forall k :: 0 <= k < w ==> b[k] != EQUALS
  {
    hide Line, PadEnd;
    LineChars(n, value);
    var b, w := Line(n, value), |PadEnd(n)| + 1;
    forall k | 0 <= k < w ensures b[k] != EQUALS {
      if k < |n| {
        assert b[k] == b[..|n|][k] == n[k];
        assert IsNameChar(n[k]);
      }
    }
  }

  lemma LiteralInLine(n: Text, t: Text)
    ensures var b := Line(n, Quote(t));
            LiteralTail(b, |PadEnd(n)| + 2) == Some(Quote(t))
  {
    hide Line, PadEnd, QuoteBody, SkipSpace, LiteralEnd, At, Decode;
    var b, w, v := Line(n, Quote(t)), |PadEnd(n)| + 1, Quote(t);
    LineChars(n, v);
    assert b[w + 2] == v[0];
    SpaceEndsAt(b, w + 1, w + 2);
    AtSuffix(b, w + 2, v);
    LiteralAtEnd(b, w + 2, t);
    SpaceEndsAt(b, |b|, |b|);
    assert b[w + 2..|b|] == v;
  }

  lemma LiteralAtEnd(b: Text, k: nat, t: Text)
    requires At(b, k, Quote(t)) && |b| == k + |Quote(t)|
    ensures b[k] == QUOTE && LiteralEnd(b, k + 1) == Some(|b|)
  {
    hide QuoteBody, LiteralEnd, At, Decode;
    AtSplit(b, k, [QUOTE] + QuoteBody(t), [QUOTE]);
    AtSplit(b, k, [QUOTE], QuoteBody(t));
    AtElement(b, k, [QUOTE], 0);
    AtElement(b, |b| - 1, [QUOTE], 0);
    QuoteRoundTrip(t);
    LiteralEnds(b, k + 1, QuoteBody(t));
  }

  lemma AtSuffix(b: Text, k: nat, v: Text)
    requires k <= |b| && b[k..] == v
    ensures At(b, k, v)
  {
    forall i | 0 <= i < |v| ensures b[k + i] == v[i] {
      assert b[k..][i] == b[k + i];
    }
  }

  /** Reading a string's line gives the string. */
  lemma StringLineReads(s: Text, n: Text, t: Text)
    requires IsName(n) && HclAssignment(s, n) == Some(Line(n, Quote(t)))
    ensures HclString(s, n) == Value(t)
  {
    hide HclAssignment, Line, PadEnd, QuoteBody, LiteralTail, FindLiteral, Decode;
    EqualsInLine(n, Quote(t));
    LiteralInLine(n, t);
    FindsLiteralAt(Line(n, Quote(t)), 0, |PadEnd(n)| + 1);
    QuoteRoundTrip(t);
    assert Quote(t)[1..|Quote(t)| - 1] == QuoteBody(t);
  }

  // ---------------------------------------------------------------------------
  // Blocks with JSON
  // ---------------------------------------------------------------------------

  lemma PrettyTrimmed(j: Json)
    requires IsJson(j)
    ensures IsTrimmed(Print(Pretty(j, 0)))
  {
    hide QuoteBody, PrintEntries, IsNumber;
  }

  /** The block of a JSON variable assigns its name only, and is found again as it was written. */
  lemma JsonBlockIs(n: Text, j: Json)
    requires IsName(n) && IsJson(j) && IsUnbrokenJson(j)
    ensures var b := JsonBlock(n, j);
            && IsBlock(b) && AssignsAt(b, 0, n) && IsStable(b, n)
            && forall m :: IsName(m) && Assigns(b, m) ==> m == n
  {
    hide IsBlock, IsStable, AssignsAt, Line, PadEnd, IsJson, Assigns, IsQuiet, IsTrimmed, IsUnbrokenJson, Print, Pretty;
    var v := Print(Pretty(j, 0));
    PrettyTrimmed(j);
    PrettyQuiet(j);
    LineIs(n, v);
    JsonStable(n, j);
    forall m | IsName(m) && Assigns(Line(n, v), m) ensures m == n {
      LineAssigns(n, v, m);
    }
  }

  lemma JsonStable(n: Text, j: Json)
    requires IsName(n) && IsJson(j)
    ensures IsStable(JsonBlock(n, j), n)
  {
    hide IsBlock, IsStable, AssignsAt, Line, QuoteBody, PrintEntries, IsNumber, HasNoSeparators, WellFormed;
    match j {
      case JScalar(x) =>
        ScalarStable(n, x);
      case JString(x) =>
        StringStable(n, x);
      case JArray(_) =>
        PrettyStrict(j, 0);
        GroupStable(n, Pretty(j, 0));
      case JObject(_) =>
        PrettyStrict(j, 0);
        GroupStable(n, Pretty(j, 0));
    }
  }

  lemma ScalarStable(n: Text, x: Text)
    requires IsName(n) && IsScalar(x)
    ensures IsStable(Line(n, x), n)
  {
    hide IsBlock, IsStable, AssignsAt, Line, PadEnd, EqualsAt, IsNumber;
    var b, w := Line(n, x), |PadEnd(n)| + 3;
    LineIs(n, x);
    LineChars(n, x);
    assert b[w] == x[0];
    forall k | w <= k < |b| ensures b[k] != NEWLINE {
      assert b[k] == x[k - w];
    }
    PlainBlockStable(b, n);
  }

  lemma GroupStable(n: Text, v: Syntax)
    requires IsName(n) && v.Group? && WellFormed(v, AllJsonSpace, true)
    ensures IsStable(Line(n, Print(v)), n)
  {
    hide IsBlock, IsStable, AssignsAt, Line, PadEnd, EqualsAt, PrintEntries, PrintTail, CloseAt, At, WellFormed;
    var t := Print(v);
    var b, w := Line(n, t), |PadEnd(n)| + 3;
    LineIs(n, t);
    LineChars(n, t);
    assert b[w] == t[0];
    AtSuffix(b, w, t);
    ClosesGroup(b, w, v);
    GroupBlockStable(b, n);
  }

  lemma TrimsSpaceInFront(value: Text)
    requires IsTrimmed(value)
    ensures Trim([SPACE] + value) == value
  {
    hide TrimEnd;
    assert ([SPACE] + value)[1..] == value;
    assert TrimStart([SPACE] + value) == TrimStart(value);
    TrimNothing(value);
  }

  /** Reading a JSON variable's block gives the value. */
  lemma JsonBlockReads(s: Text, n: Text, j: Json)
    requires IsName(n) && IsJson(j) && HclAssignment(s, n) == Some(JsonBlock(n, j))
    ensures FileJson(s, n) == Some(j)
  {
    hide HclAssignment, Line, PadEnd, Print, Pretty, JsonParse, Trim, IsJson, Denote, IsTrimmed, IsName;
    var v := Print(Pretty(j, 0));
    var b, e := Line(n, v), |PadEnd(n)| + 1;
    EqualsInLine(n, v);
    LineChars(n, v);
    FirstEquals(b, 0, e);
    assert b[e + 1..] == [SPACE] + v;
    PrettyTrimmed(j);
    TrimsSpaceInFront(v);
    PrettyStrict(j, 0);
    PrettyDenotes(j, 0);
    ParsesDocument([], Pretty(j, 0), []);
    assert [] + v + [] == v;
  }
}
