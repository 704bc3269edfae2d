// What the search for an assignment finds in any text, and in which order drift is listed.

module TerraformReading {
  import opened Results
  import opened Texts
  import opened TextLines
  import opened JsonText
  import opened JsoncBlanking
  import opened HclText
  import opened TerraformVars
  import opened TerraformDrift

  // ---------------------------------------------------------------------------
  // Where an assignment stands
  // ---------------------------------------------------------------------------

  /** Between `p` and its `=` at `m`, an assignment has blanks, the name at `q`, and white space. */
  predicate NameStands(s: Text, p: nat, n: Text, q: nat, m: nat) {
    && p <= q && q + |n| <= m < |s| && s[m] == EQUALS && s[q..q + |n|] == n
    && (forall k :: p <= k < q ==> s[k] == 0x20 || s[k] == 0x09)
    && (forall k :: q + |n| <= k < m ==> IsSpace(s[k]))
  }

  ghost predicate AssignmentStands(s: Text, p: nat, n: Text) {
    && (p == 0 || (p <= |s| && (s[p - 1] == 0x0A || s[p - 1] == 0x0D || s[p - 1] == 0x2028 || s[p - 1] == 0x2029)))
    && exists q: nat, m: nat :: NameStands(s, p, n, q, m)
  }

  lemma {:induction false} BlanksEnd(s: Text, p: nat, q: nat)
    requires p <= q < |s| && (forall k :: p <= k < q ==> s[k] == 0x20 || s[k] == 0x09) && s[q] != 0x20 && s[q] != 0x09
    ensures SkipBlanks(s, p) == q
  {
    var r := SkipBlanks(s, p);
    assert r >= q;
    assert r <= q;
  }

  lemma SpacesEnd(s: Text, p: nat, q: nat)
    requires p <= q <= |s| && (forall k :: p <= k < q ==> IsSpace(s[k])) && (q < |s| ==> !IsSpace(s[q]))
    ensures SkipSpace(s, p) == q
  {
    var r := SkipSpace(s, p);
    assert r >= q;
    assert r <= q;
  }

  lemma NameStartsPlain(n: Text)
    requires IsName(n)
    ensures n != [] && n[0] != 0x20 && n[0] != 0x09
  {
  }

  lemma EqualsIsPlain()
    ensures !IsSpace(EQUALS)
  {
  }

  /** The search's expression matches exactly where an assignment stands. */
  lemma AssignsExactly(s: Text, p: nat, n: Text)
    requires IsName(n)
    ensures AssignsAt(s, p, n) <==> AssignmentStands(s, p, n)
  {
    hide SkipSpace, SkipBlanks, IsName, IsSpace;
    var q := SkipBlanks(s, p);
    var m := EqualsAt(s, p, n);
    if AssignsAt(s, p, n) {
      assert NameStands(s, p, n, q, m);
    }
    if i: nat, j: nat :| NameStands(s, p, n, i, j) {
      NameStartsPlain(n);
      EqualsIsPlain();
      assert s[i] == s[i..i + |n|][0];
      BlanksEnd(s, p, i);
      SpacesEnd(s, i + |n|, j);
    }
  }

  /** From `p` the text reads `a`, then white space up to the end of the line at or behind `v`. */
  predicate EndsLine(s: Text, p: nat, a: Text, v: nat, e: nat) {
    && p + |a| <= e && v <= e <= |s| && s[p..p + |a|] == a && (a != [] ==> !IsSpace(a[|a| - 1]))
    && (forall k :: p + |a| <= k < e ==> IsSpace(s[k]))
    && (forall k :: v <= k < e ==> s[k] != NEWLINE) && (e < |s| ==> s[e] == NEWLINE)
  }

  /**
   * The first assignment of the name is cut out: where its value starts with no bracket, it ends with
   * its line, without the white space there.
   */
  lemma PlainAssignment(s: Text, n: Text, p: nat)
    requires IsName(n) && p < |s| && AssignmentStands(s, p, n) && forall k: nat :: k < p ==> !AssignmentStands(s, k, n)
    requires var v := ValueStart(s, p, n); v >= |s| || (s[v] != LBRACE && s[v] != LBRACKET)
    ensures HclAssignment(s, n).Some?
    ensures exists e: nat :: EndsLine(s, p, HclAssignment(s, n).value, ValueStart(s, p, n), e)
  {
    hide AssignsAt, AssignmentStands, IsName, EqualsAt, SkipSpace, TrimEnd, IsSpace;
    FirstFound(s, n, p);
    var v := ValueStart(s, p, n);
    ValueBehind(s, p, n);
    var e := IndexOf(s, NEWLINE, v);
    TrimmedCut(s, p, e);
    assert EndsLine(s, p, TrimEnd(s[p..e]), v, e);
  }

  lemma TrimmedCut(s: Text, p: nat, e: nat)
    requires p <= e <= |s|
    ensures var a := TrimEnd(s[p..e]);
            && p + |a| <= e && s[p..p + |a|] == a && (a != [] ==> !IsSpace(a[|a| - 1]))
            && forall k :: p + |a| <= k < e ==> IsSpace(s[k])
  {
    hide TrimEnd, IsSpace;
    var t, a := s[p..e], TrimEnd(s[p..e]);
    assert s[p..p + |a|] == t[..|a|];
    forall k | p + |a| <= k < e ensures IsSpace(s[k]) {
      assert t[k - p] == s[k];
    }
  }

  lemma ValueBehind(s: Text, p: nat, n: Text)
    requires IsName(n) && AssignmentStands(s, p, n)
    ensures p < ValueStart(s, p, n) <= |s|
  {
    hide AssignmentStands, IsName, SkipSpace;
    AssignsExactly(s, p, n);
  }

  lemma FirstFound(s: Text, n: Text, p: nat)
    requires IsName(n) && p < |s| && AssignmentStands(s, p, n) && forall k: nat :: k < p ==> !AssignmentStands(s, k, n)
    ensures FindAssign(s, n, 0) == Some(p)
  {
    hide AssignsAt, AssignmentStands, IsName;
    AssignsExactly(s, p, n);
    var r := FindAssign(s, n, 0);
    if r.Some? {
      AssignsExactly(s, r.value, n);
    }
  }

  /** Without one, nothing is found. */
  lemma NoAssignment(s: Text, n: Text)
    requires IsName(n) && forall k: nat :: k < |s| ==> !AssignmentStands(s, k, n)
    ensures HclAssignment(s, n) == None
  {
    hide AssignsAt, AssignmentStands, IsName;
    var r := FindAssign(s, n, 0);
    if r.Some? {
      AssignsExactly(s, r.value, n);
    }
  }

  // ---------------------------------------------------------------------------
  // Strings in an assignment
  // ---------------------------------------------------------------------------

  /** Characters and escaped characters up to a quote. */
  predicate IsQuotable(b: Text)
    decreases |b|
  {
    || b == []
    || (b[0] == BACKSLASH && |b| >= 2 && !IsTerminator(b[1]) && IsQuotable(b[2..]))
    || (b[0] != BACKSLASH && b[0] != QUOTE && IsQuotable(b[1..]))
  }

  /** Behind an `=` at `e` and white space, the rest of the text is a literal with this body, and white space. */
  predicate LiteralStands(a: Text, e: nat, q: nat, b: Text) {
    && e < q && q + |b| + 2 <= |a| && a[e] == EQUALS && a[q..q + |b| + 2] == [QUOTE] + b + [QUOTE] && IsQuotable(b)
    && (forall k :: e < k < q ==> IsSpace(a[k])) && forall k :: q + |b| + 2 <= k < |a| ==> IsSpace(a[k])
  }

  lemma {:induction false} LiteralEndExactly(a: Text, i: nat)
    ensures LiteralEnd(a, i).Some? ==> i < LiteralEnd(a, i).value && IsQuotable(a[i..LiteralEnd(a, i).value - 1])
                                       && a[LiteralEnd(a, i).value - 1] == QUOTE
    decreases |a| - i
  {
    if i < |a| {
      if a[i] == BACKSLASH {
        if i + 1 < |a| && !IsTerminator(a[i + 1]) {
          LiteralEndExactly(a, i + 2);
          var r := LiteralEnd(a, i + 2);
          if r.Some? {
            var b := a[i..r.value - 1];
            assert b[0] == a[i] && b[1] == a[i + 1] && b[2..] == a[i + 2..r.value - 1];
          }
        }
      } else if a[i] != QUOTE {
        LiteralEndExactly(a, i + 1);
        var r := LiteralEnd(a, i + 1);
        if r.Some? {
          var b := a[i..r.value - 1];
          assert b[0] == a[i] && b[1..] == a[i + 1..r.value - 1];
        }
      }
    }
  }

  lemma {:induction false} QuotableEnds(a: Text, i: nat, b: Text)
    requires IsQuotable(b) && i + |b| < |a| && a[i..i + |b|] == b && a[i + |b|] == QUOTE
    ensures LiteralEnd(a, i) == Some(i + |b| + 1)
    decreases |b|
  {
    if b != [] {
      assert a[i] == b[0];
      var n := if b[0] == BACKSLASH then 2 else 1;
      assert n == 2 ==> a[i + 1] == b[1];
      assert a[i + n..i + |b|] == b[n..];
      QuotableEnds(a, i + n, b[n..]);
    }
  }

  lemma QuoteIsPlain()
    ensures !IsSpace(QUOTE)
  {
  }

  lemma TailExactly(a: Text, e: nat)
    requires e < |a| && a[e] == EQUALS
    ensures var t := LiteralTail(a, e + 1);
            && (t.Some? ==> exists q: nat, b: Text :: LiteralStands(a, e, q, b) && t.value == [QUOTE] + b + [QUOTE])
            && (t.None? ==> forall q: nat, b: Text :: !LiteralStands(a, e, q, b))
  {
    hide IsSpace, SkipSpace, LiteralEnd, IsQuotable;
    var t := LiteralTail(a, e + 1);
    if t.Some? {
      var q := SkipSpace(a, e + 1);
      LiteralEndExactly(a, q + 1);
      var f := LiteralEnd(a, q + 1).value;
      var b := a[q + 1..f - 1];
      assert a[q..f] == [QUOTE] + b + [QUOTE];
      assert LiteralStands(a, e, q, b);
    }
    forall q: nat, b: Text | LiteralStands(a, e, q, b) ensures t.Some? {
      StandsIsFound(a, e, q, b);
    }
  }

  lemma StandsIsFound(a: Text, e: nat, q: nat, b: Text)
    requires e < |a| && LiteralStands(a, e, q, b)
    ensures LiteralTail(a, e + 1) == Some([QUOTE] + b + [QUOTE])
  {
    hide IsSpace, SkipSpace, LiteralEnd, IsQuotable;
    QuoteIsPlain();
    LiteralChars(a, q, b);
    SpacesEnd(a, e + 1, q);
    QuotableEnds(a, q + 1, b);
    SpacesEnd(a, q + |b| + 2, |a|);
    assert LiteralEnd(a, q + 1) == Some(q + |b| + 2);
  }

  lemma LiteralChars(a: Text, q: nat, b: Text)
    requires q + |b| + 2 <= |a| && a[q..q + |b| + 2] == [QUOTE] + b + [QUOTE]
    ensures a[q] == QUOTE && a[q + 1 + |b|] == QUOTE && a[q + 1..q + 1 + |b|] == b
  {
    var t, l := a[q..q + |b| + 2], [QUOTE] + b + [QUOTE];
    forall k | 0 <= k < |l| ensures a[q + k] == l[k] {
      assert t[k] == a[q + k];
    }
    assert l[|b| + 1] == QUOTE && a[q + (|b| + 1)] == l[|b| + 1];
    forall k | 0 <= k < |b| ensures a[q + 1 + k] == b[k] {
      assert a[q + (1 + k)] == l[1 + k] == b[k];
    }
  }

  /** The literal that is found is the first that stands behind an `=`; if none does, none is found. */
  lemma {:induction false} LiteralExactly(a: Text, e: nat)
    ensures var l := FindLiteral(a, e);
            && (l.Some? ==> exists k: nat, q: nat, b: Text :: LiteralStands(a, k, q, b) && l.value == [QUOTE] + b + [QUOTE])
            && (l.None? ==> forall k: nat, q: nat, b: Text :: e <= k ==> !LiteralStands(a, k, q, b))
    decreases |a| - e
  {
    hide LiteralTail, LiteralStands;
    if e < |a| {
      LiteralExactly(a, e + 1);
      if a[e] == EQUALS {
        TailExactly(a, e);
      } else {
        NothingStands(a, e);
      }
    } else {
      NothingStandsBehind(a, e);
    }
  }

  lemma NothingStands(a: Text, e: nat)
    requires e < |a| && a[e] != EQUALS
    ensures forall q: nat, b: Text :: !LiteralStands(a, e, q, b)
  {
  }

  lemma NothingStandsBehind(a: Text, e: nat)
    requires |a| <= e
    ensures forall k: nat, q: nat, b: Text :: e <= k ==> !LiteralStands(a, k, q, b)
  {
  }

  /** Some `=` of the text has nothing but this literal behind it. */
  ghost predicate HoldsLiteral(a: Text, b: Text) {
    exists k: nat, q: nat :: LiteralStands(a, k, q, b)
  }

  /**
   * A variable has a string value exactly if its assignment holds a literal that decodes to it; the
   * check fails exactly if it holds one that does not decode.
   */
  lemma StringExactly(s: Text, n: Text)
    ensures match HclString(s, n)
            case Value(t) =>
              && HclAssignment(s, n).Some?
              && exists b :: HoldsLiteral(HclAssignment(s, n).value, b) && Decode(b) == Some(t)
            case BadString =>
              && HclAssignment(s, n).Some?
              && exists b :: HoldsLiteral(HclAssignment(s, n).value, b) && Decode(b) == None
            case NoString => HclAssignment(s, n).Some? ==> forall b :: !HoldsLiteral(HclAssignment(s, n).value, b)
  {
    hide HclAssignment, Decode, LiteralStands, FindLiteral;
    if HclAssignment(s, n).Some? {
      var a := HclAssignment(s, n).value;
      LiteralExactly(a, 0);
      var l := FindLiteral(a, 0);
      if l.Some? {
        var k: nat, q: nat, b: Text :| LiteralStands(a, k, q, b) && l.value == [QUOTE] + b + [QUOTE];
        assert HoldsLiteral(a, b);
        assert l.value[1..|l.value| - 1] == b;
      }
    }
  }

  // ---------------------------------------------------------------------------
  // The order of what is listed
  // ---------------------------------------------------------------------------

  /** The strings among the first `k` that the file does not hold. */
  function StringsBefore(s: Text, ss: seq<(Text, Text)>, k: nat): nat
    requires k <= |ss|
  {
    if k == 0 then 0 else StringsBefore(s, ss, k - 1) + if HclString(s, ss[k - 1].0) != Value(ss[k - 1].1) then 1 else 0
  }

  lemma {:induction false} StringsBehindFirst(s: Text, ss: seq<(Text, Text)>, k: nat)
    requires k < |ss|
    ensures StringsBefore(s, ss, k + 1) == (if StringDiffers(s, ss[0]) then 1 else 0) + StringsBefore(s, ss[1..], k)
  {
    hide HclString;
    if k > 0 {
      StringsBehindFirst(s, ss, k - 1);
    } else {
      assert StringsBefore(s, ss, 0) == 0;
    }
  }

  /** The string that is listed at place `a` is the differing one with `a` others in front of it. */
  lemma {:induction false} StringListedAt(s: Text, ss: seq<(Text, Text)>, a: nat) returns (k: nat)
    requires StringDrift(s, ss).Some? && a < |StringDrift(s, ss).value|
    ensures k < |ss| && StringDiffers(s, ss[k]) && StringsBefore(s, ss, k) == a && StringDrift(s, ss).value[a] == ss[k].0
  {
    hide HclString;
    var first := StringDiffers(s, ss[0]);
    if first && a == 0 {
      k := 0;
    } else {
      k := StringListedAt(s, ss[1..], if first then a - 1 else a);
      StringsBehindFirst(s, ss, k);
      k := k + 1;
    }
  }

  lemma {:induction false} StringsListed(s: Text, ss: seq<(Text, Text)>)
    requires StringDrift(s, ss).Some?
    ensures |StringDrift(s, ss).value| == StringsBefore(s, ss, |ss|)
  {
    hide HclString;
    if ss != [] {
      StringsListed(s, ss[1..]);
      StringsBehindFirst(s, ss, |ss| - 1);
    }
  }

  /** The JSON variables among the first `k` whose value the file does not hold. */
  ghost function JsonBefore(s: Text, js: seq<(Text, Json)>, k: nat): nat
    requires k <= |js|
  {
    if k == 0 then 0 else JsonBefore(s, js, k - 1) + if HoldsJson(s, js[k - 1]) then 0 else 1
  }

  lemma {:induction false} JsonBehindFirst(s: Text, js: seq<(Text, Json)>, k: nat)
    requires k < |js|
    ensures JsonBefore(s, js, k + 1) == (if HoldsJson(s, js[0]) then 0 else 1) + JsonBefore(s, js[1..], k)
  {
    hide HoldsJson;
    if k > 0 {
      JsonBehindFirst(s, js, k - 1);
    } else {
      assert JsonBefore(s, js, 0) == 0;
    }
  }

  lemma {:induction false} JsonListedAt(s: Text, js: seq<(Text, Json)>, a: nat) returns (k: nat)
    requires a < |JsonDrift(s, js)| && forall i :: 0 <= i < |js| ==> IsJson(js[i].1)
    ensures k < |js| && !HoldsJson(s, js[k]) && JsonBefore(s, js, k) == a && JsonDrift(s, js)[a] == js[k].0
  {
    hide HoldsJson, JsonDrifts, IsJson;
    JsonDriftIsDifference(s, js[0]);
    var first := JsonDrifts(s, js[0].0, js[0].1);
    if first && a == 0 {
      k := 0;
    } else {
      assert forall i :: 0 <= i < |js[1..]| ==> js[1..][i] == js[i + 1];
      k := JsonListedAt(s, js[1..], if first then a - 1 else a);
      JsonBehindFirst(s, js, k);
      k := k + 1;
    }
  }

  lemma {:induction false} JsonListed(s: Text, js: seq<(Text, Json)>)
    requires forall i :: 0 <= i < |js| ==> IsJson(js[i].1)
    ensures |JsonDrift(s, js)| == JsonBefore(s, js, |js|)
  {
    hide HoldsJson, JsonDrifts, IsJson, JsonDrift, JsonBefore;
    JsonDriftStep(s, js);
    if js != [] {
      JsonDriftIsDifference(s, js[0]);
      JsonListed(s, js[1..]);
      JsonBehindFirst(s, js, |js| - 1);
    }
  }

  lemma JsonDriftStep(s: Text, js: seq<(Text, Json)>)
    ensures js == [] ==> JsonDrift(s, js) == [] && JsonBefore(s, js, 0) == 0
    ensures js != [] ==>
              |JsonDrift(s, js)| == (if JsonDrifts(s, js[0].0, js[0].1) then 1 else 0) + |JsonDrift(s, js[1..])|
  {
    hide JsonDrifts;
  }

  /** Drift lists the differing strings in their order, and then the differing JSON variables in theirs. */
  lemma DriftInOrder(v: Vars, s: Text, a: nat) returns (k: nat)
    requires Drift(v, s).Some? && forall i :: 0 <= i < |v.json| ==> IsJson(v.json[i].1)
    ensures var n := StringsBefore(s, v.strings, |v.strings|);
            && |Drift(v, s).value| == n + JsonBefore(s, v.json, |v.json|)
            && (a < n ==> k < |v.strings| && StringDiffers(s, v.strings[k]) && StringsBefore(s, v.strings, k) == a
                          && Drift(v, s).value[a] == v.strings[k].0)
            && (n <= a < |Drift(v, s).value| ==>
                  && k < |v.json| && !HoldsJson(s, v.json[k]) && n + JsonBefore(s, v.json, k) == a
                  && Drift(v, s).value[a] == v.json[k].0)
  {
    hide HclString, HoldsJson, IsJson, StringDrift, JsonDrift, StringsBefore, JsonBefore;
    StringsListed(s, v.strings);
    JsonListed(s, v.json);
    var n := StringsBefore(s, v.strings, |v.strings|);
    k := 0;
    if a < n {
      k := StringListedAt(s, v.strings, a);
    } else if a < |Drift(v, s).value| {
      k := JsonListedAt(s, v.json, a - n);
    }
  }
}
