// What a rendered variables file assigns, and when rendering it again changes nothing.

module TerraformTheorems {
  import opened Results
  import opened Texts
  import opened TextLines
  import opened JsonText
  import opened JsoncBlanking
  import opened HclText
  import opened TerraformVars
  import opened TerraformBlocks
  import opened TerraformLines
  import opened TerraformPreserved

  // ---------------------------------------------------------------------------
  // What a rendered text assigns
  // ---------------------------------------------------------------------------

  lemma FoundAt(bs: seq<Text>, k: nat, n: Text)
    requires AreBlocks(bs) && k < |bs| && IsName(n)
    requires (forall j :: 0 <= j < k ==> !Assigns(bs[j], n)) && AssignsAt(bs[k], 0, n)
    ensures var t := JoinLines(bs);
            && StandsAt(t, Offset(bs, k), bs[k])
            && HclAssignment(t, n) == AssignmentAt(t, Offset(bs, k), n)
    ensures IsStable(bs[k], n) ==> HclAssignment(JoinLines(bs), n) == Some(bs[k])
  {
    hide AssignmentAt, IsBlock, AssignsAt, Assigns, EndsWith, StandsAt, JoinLines, FindAssign;
    WholeText(bs);
    FindsBlock(JoinLines(bs), 0, bs, k, n);
  }

  lemma AbsentFrom(bs: seq<Text>, n: Text)
    requires AreBlocks(bs) && IsName(n) && forall j :: 0 <= j < |bs| ==> !Assigns(bs[j], n)
    ensures HclAssignment(JoinLines(bs), n) == None
  {
    hide AssignmentAt, IsBlock, AssignsAt, Assigns, EndsWith, JoinLines, FindAssign;
    WholeText(bs);
    FindsNoBlock(JoinLines(bs), 0, bs, n);
  }

  /** Some block preserved for another variable has a line that assigns the name. */
  predicate Intrudes(v: Vars, existing: Text, n: Text) {
    exists i :: 0 <= i < |v.operators| && IntrudesAt(existing, v.operators[i], n)
  }

  predicate IntrudesAt(existing: Text, operator: Text, n: Text) {
    operator != n && match HclAssignment(existing, operator) case Some(b) => Assigns(b, n) case None => false
  }

  /** Names are names, every one is used once, and JSON is JSON. */
  ghost predicate HasNames(v: Vars) {
    && (forall i :: 0 <= i < |v.strings| ==> IsName(v.strings[i].0))
    && (forall i :: 0 <= i < |v.json| ==> IsName(v.json[i].0) && IsJson(v.json[i].1))
    && (forall i :: 0 <= i < |v.operators| ==> IsName(v.operators[i]))
    && (forall i, j :: 0 <= i < j < |v.strings| ==> v.strings[i].0 != v.strings[j].0)
    && (forall i, j :: 0 <= i < j < |v.json| ==> v.json[i].0 != v.json[j].0)
    && (forall i, j :: 0 <= i < j < |v.operators| ==> v.operators[i] != v.operators[j])
    && (forall i, j :: 0 <= i < |v.strings| && 0 <= j < |v.json| ==> v.strings[i].0 != v.json[j].0)
    && (forall i, j :: 0 <= i < |v.strings| && 0 <= j < |v.operators| ==> v.strings[i].0 != v.operators[j])
    && (forall i, j :: 0 <= i < |v.json| && 0 <= j < |v.operators| ==> v.json[i].0 != v.operators[j])
  }

  /** No value holds U+2028 or U+2029. */
  ghost predicate HasPlainValues(v: Vars) {
    && (forall i :: 0 <= i < |v.strings| ==> HasNoSeparators(v.strings[i].1))
    && (forall i :: 0 <= i < |v.json| ==> IsUnbrokenJson(v.json[i].1))
    && (forall n :: n in v.defaults ==> HasNoSeparators(v.defaults[n]))
  }

  ghost predicate IsValid(v: Vars) {
    HasNames(v) && HasPlainValues(v)
  }

  lemma {:induction false} StringLineAt(ss: seq<(Text, Text)>, k: nat)
    ensures |StringLines(ss)| == |ss|
    ensures k < |ss| ==> StringLines(ss)[k] == Line(ss[k].0, Quote(ss[k].1))
  {
    if ss != [] {
      StringLineAt(ss[1..], if k == 0 then 0 else k - 1);
    }
  }

  lemma {:induction false} JsonBlockAt(js: seq<(Text, Json)>, k: nat)
    ensures |JsonBlocks(js)| == |js|
    ensures k < |js| ==> JsonBlocks(js)[k] == JsonBlock(js[k].0, js[k].1)
  {
    if js != [] {
      JsonBlockAt(js[1..], if k == 0 then 0 else k - 1);
    }
  }

  function LineOrNone(existing: Text, n: Text, d: map<Text, Text>): seq<Text> {
    match OperatorLine(existing, n, d) case Some(l) => [l] case None => []
  }

  lemma OperatorLinesStep(existing: Text, ns: seq<Text>, d: map<Text, Text>)
    requires ns != []
    ensures OperatorLines(existing, ns, d) == LineOrNone(existing, ns[0], d) + OperatorLines(existing, ns[1..], d)
  {
    hide OperatorLine;
  }

  lemma Regroup(h: seq<Text>, a: seq<Text>, m: seq<Text>, r: seq<Text>)
    ensures h + (a + m + r) == (h + a) + m + r
  {
  }

  /** The lines of the operator's variables in front of one and behind it. */
  lemma {:induction false} OperatorLineAt(existing: Text, ns: seq<Text>, d: map<Text, Text>, i: nat)
    requires i < |ns|
    ensures OperatorLines(existing, ns, d) ==
            OperatorLines(existing, ns[..i], d) + LineOrNone(existing, ns[i], d) + OperatorLines(existing, ns[i + 1..], d)
  {
    hide OperatorLines, LineOrNone;
    OperatorLinesStep(existing, ns, d);
    if i > 0 {
      var rest := ns[1..];
      OperatorLineAt(existing, rest, d, i - 1);
      OperatorLinesStep(existing, ns[..i], d);
      assert ns[..i][0] == ns[0] && ns[..i][1..] == rest[..i - 1] && rest[i..] == ns[i + 1..] && rest[i - 1] == ns[i];
      Regroup(LineOrNone(existing, ns[0], d), OperatorLines(existing, rest[..i - 1], d), LineOrNone(existing, ns[i], d),
              OperatorLines(existing, ns[i + 1..], d));
    } else {
      NoOperators(existing, ns[..0], d);
      NothingBefore(LineOrNone(existing, ns[0], d));
    }
  }

  lemma NoOperators(existing: Text, ns: seq<Text>, d: map<Text, Text>)
    requires |ns| == 0
    ensures OperatorLines(existing, ns, d) == []
  {
  }

  lemma NothingBefore(ls: seq<Text>)
    ensures [] + ls == ls
  {
  }

  ghost predicate IsLineOf(l: Text, existing: Text, n: Text, d: map<Text, Text>) {
    OperatorLine(existing, n, d) == Some(l)
  }

  lemma {:induction false} OperatorLineFrom(existing: Text, ns: seq<Text>, d: map<Text, Text>, k: nat) returns (i: nat)
    requires k < |OperatorLines(existing, ns, d)|
    ensures i < |ns| && IsLineOf(OperatorLines(existing, ns, d)[k], existing, ns[i], d)
  {
    hide OperatorLine;
    var first := OperatorLine(existing, ns[0], d);
    if first.Some? && k == 0 {
      i := 0;
    } else {
      i := OperatorLineFrom(existing, ns[1..], d, if first.Some? then k - 1 else k);
      i := i + 1;
    }
  }

  /** What is written for an operator's variable is a block that assigns it, and is found again if it has a value. */
  lemma OperatorLineIs(existing: Text, n: Text, d: map<Text, Text>, l: Text)
    requires IsName(n) && IsLineOf(l, existing, n, d)
    ensures IsBlock(l) && AssignsAt(l, 0, n)
    ensures (HclAssignment(existing, n).Some? ==> HasValue(l, n)) ==> IsStable(l, n)
  {
    hide HclAssignment, IsBlock, AssignsAt, IsStable, HasValue, Line, Quote, IsName;
    if HclAssignment(existing, n).Some? {
      PreservedIs(existing, n, l);
    } else {
      StringStable(n, d[n]);
    }
  }

  /** It assigns another name only by intrusion. */
  lemma OperatorLineAssigns(existing: Text, n: Text, d: map<Text, Text>, l: Text, m: Text)
    requires IsName(n) && IsName(m) && (n in d ==> HasNoSeparators(d[n])) && IsLineOf(l, existing, n, d)
    ensures Assigns(l, m) ==> m == n || IntrudesAt(existing, n, m)
  {
    hide HclAssignment, IsBlock, AssignsAt, Assigns, IsStable, Line, Quote, IsName, HasNoSeparators;
    if HclAssignment(existing, n).None? {
      StringLineIs(n, d[n]);
    }
  }

  ghost predicate AvoidsName(existing: Text, ns: seq<Text>, m: Text) {
    forall i :: 0 <= i < |ns| ==> ns[i] != m && !IntrudesAt(existing, ns[i], m)
  }

  ghost predicate AreNames(ns: seq<Text>) {
    forall i :: 0 <= i < |ns| ==> IsName(ns[i])
  }

  lemma OperatorLinesStand(existing: Text, ns: seq<Text>, d: map<Text, Text>)
    requires AreNames(ns)
    ensures AreBlocks(OperatorLines(existing, ns, d))
  {
    hide OperatorLines, IsLineOf, IsName, IsBlock, AssignsAt, IsStable;
    var ls := OperatorLines(existing, ns, d);
    forall k | 0 <= k < |ls| ensures IsBlock(ls[k]) {
      var i := OperatorLineFrom(existing, ns, d, k);
      OperatorLineIs(existing, ns[i], d, ls[k]);
    }
  }

  /** The lines of the operator's variables do not assign a name that intrudes nowhere. */
  lemma OperatorLinesAvoid(existing: Text, ns: seq<Text>, d: map<Text, Text>, m: Text)
    requires AreNames(ns) && (forall n :: n in d ==> HasNoSeparators(d[n])) && IsName(m) && AvoidsName(existing, ns, m)
    ensures forall k :: 0 <= k < |OperatorLines(existing, ns, d)| ==> !Assigns(OperatorLines(existing, ns, d)[k], m)
  {
    hide OperatorLines, IsLineOf, IsName, HasNoSeparators, Assigns, IntrudesAt;
    var ls := OperatorLines(existing, ns, d);
    forall k | 0 <= k < |ls| ensures !Assigns(ls[k], m) {
      var i := OperatorLineFrom(existing, ns, d, k);
      OperatorLineAssigns(existing, ns[i], d, ls[k], m);
    }
  }

  lemma StringLinesStand(ss: seq<(Text, Text)>)
    requires forall i :: 0 <= i < |ss| ==> IsName(ss[i].0)
    ensures |StringLines(ss)| == |ss| && AreBlocks(StringLines(ss))
  {
    hide StringLines, Line, Quote, IsName, IsBlock, AssignsAt, IsStable;
    StringLineAt(ss, 0);
    forall i | 0 <= i < |ss| ensures IsBlock(StringLines(ss)[i]) {
      StringLineAt(ss, i);
      StringStable(ss[i].0, ss[i].1);
    }
  }

  lemma StringLinesAvoid(ss: seq<(Text, Text)>, m: Text, k: nat)
    requires forall i :: 0 <= i < |ss| ==> IsName(ss[i].0) && HasNoSeparators(ss[i].1)
    requires IsName(m) && k <= |ss| && forall i :: 0 <= i < k ==> ss[i].0 != m
    ensures |StringLines(ss)| == |ss|
    ensures forall i :: 0 <= i < k ==> !Assigns(StringLines(ss)[i], m)
  {
    hide StringLines, Line, Quote, IsName, HasNoSeparators, IsBlock, AssignsAt, Assigns, IsStable;
    StringLineAt(ss, 0);
    forall i | 0 <= i < k ensures !Assigns(StringLines(ss)[i], m) {
      StringLineAt(ss, i);
      StringLineIs(ss[i].0, ss[i].1);
    }
  }

  lemma JsonBlocksStand(js: seq<(Text, Json)>)
    requires forall i :: 0 <= i < |js| ==> IsName(js[i].0) && IsJson(js[i].1)
    ensures |JsonBlocks(js)| == |js| && AreBlocks(JsonBlocks(js))
  {
    hide JsonBlocks, Line, IsName, IsJson, IsBlock, AssignsAt, Print, Pretty, IsTrimmed;
    JsonBlockAt(js, 0);
    forall i | 0 <= i < |js| ensures IsBlock(JsonBlocks(js)[i]) {
      JsonBlockAt(js, i);
      PrettyTrimmed(js[i].1);
      LineIs(js[i].0, Print(Pretty(js[i].1, 0)));
    }
  }

  lemma JsonBlocksAvoid(js: seq<(Text, Json)>, m: Text, k: nat)
    requires forall i :: 0 <= i < |js| ==> IsName(js[i].0) && IsJson(js[i].1) && IsUnbrokenJson(js[i].1)
    requires IsName(m) && k <= |js| && forall i :: 0 <= i < k ==> js[i].0 != m
    ensures |JsonBlocks(js)| == |js|
    ensures forall i :: 0 <= i < k ==> !Assigns(JsonBlocks(js)[i], m)
  {
    hide JsonBlocks, JsonBlock, IsName, IsJson, IsUnbrokenJson, IsBlock, AssignsAt, Assigns, IsStable;
    JsonBlockAt(js, 0);
    forall i | 0 <= i < k ensures !Assigns(JsonBlocks(js)[i], m) {
      JsonBlockAt(js, i);
      JsonBlockIs(js[i].0, js[i].1);
    }
  }

  /** The parts of a rendered text, all of them blocks. */
  lemma AllBlocks(v: Vars, existing: Text)
    requires HasNames(v)
    ensures |StringLines(v.strings)| == |v.strings| && |JsonBlocks(v.json)| == |v.json|
    ensures AreBlocks(Blocks(v, existing))
  {
    hide StringLines, OperatorLines, JsonBlocks, IsBlock, IsName, IsJson;
    StringLinesStand(v.strings);
    JsonBlocksStand(v.json);
    OperatorLinesStand(existing, v.operators, v.defaults);
  }

  lemma StringFound(v: Vars, existing: Text, k: nat)
    requires IsValid(v) && k < |v.strings|
    ensures HclString(Rendered(v, existing), v.strings[k].0) == Value(v.strings[k].1)
  {
    hide StringLines, OperatorLines, JsonBlocks, IsBlock, IsName, IsJson, IsUnbrokenJson, HasNoSeparators, Assigns, HclAssignment,
      AssignsAt, IsStable, AreBlocks, HclString, Line, Quote, JoinLines;
    var (n, t) := v.strings[k];
    AllBlocks(v, existing);
    StringLinesAvoid(v.strings, n, k);
    StringLineAt(v.strings, k);
    StringLineIs(n, t);
    FoundAt(Blocks(v, existing), k, n);
    StringLineReads(Rendered(v, existing), n, t);
  }

  // ---------------------------------------------------------------------------
  // Strings without drift
  // ---------------------------------------------------------------------------

  lemma NothingMore(names: seq<Text>)
    ensures names + [] == names
  {
  }

  lemma {:induction false} NoStringDrifts(s: Text, ss: seq<(Text, Text)>)
    requires forall k :: 0 <= k < |ss| ==> HclString(s, ss[k].0) == Value(ss[k].1)
    ensures StringDrift(s, ss) == Some([])
  {
    hide HclString;
    if ss != [] {
      NoStringDrifts(s, ss[1..]);
      NothingMore([]);
    }
  }

  // ---------------------------------------------------------------------------
  // Rendering again
  // ---------------------------------------------------------------------------

  /** What rendering again writes for an operator's variable. */
  lemma OperatorAgain(v: Vars, existing: Text, i: nat)
    requires IsValid(v) && v.json != [] && i < |v.operators| && !Intrudes(v, existing, v.operators[i])
    ensures var n := v.operators[i];
            var was, now := OperatorLine(existing, n, v.defaults), OperatorLine(Rendered(v, existing), n, v.defaults);
            if was.None? then now.None?
            else if HclAssignment(existing, n).Some? && !HasValue(was.value, n) then
              now.Some? && |now.value| > |was.value|
            else now == was
  {
    hide StringLines, OperatorLines, OperatorLine, JsonBlocks, IsBlock, IsName, IsJson, IsUnbrokenJson, HasNoSeparators, Assigns,
      HclAssignment, AssignsAt, IsStable, AreBlocks, JsonBlock, JoinLines, IntrudesAt, HasValue, StandsAt, AssignmentAt;
    var n, ns, d := v.operators[i], v.operators, v.defaults;
    var was := OperatorLine(existing, n, d);
    var bs := Blocks(v, existing);
    AllBlocks(v, existing);
    StringLinesAvoid(v.strings, n, |v.strings|);
    OperatorLineAt(existing, ns, d, i);
    OperatorLinesAvoid(existing, ns[..i], d, n);
    match was {
      case None =>
        OperatorLinesAvoid(existing, ns[i + 1..], d, n);
        JsonBlocksAvoid(v.json, n, |v.json|);
        AbsentFrom(bs, n);
        NoLine(existing, Rendered(v, existing), n, d);
      case Some(l) =>
        var k := |v.strings| + |OperatorLines(existing, ns[..i], d)|;
        OperatorLineIs(existing, n, d, l);
        assert bs[k] == l;
        FoundAt(bs, k, n);
        if HclAssignment(existing, n).Some? && !HasValue(l, n) {
          NextBlock(bs, k);
          ValuelessGrows(JoinLines(bs), Offset(bs, k), l, n);
        }
        FoundLine(JoinLines(bs), n, d);
    }
  }

  /** What is written for an operator's variable is found in the rendered text, unless it lacks its value. */
  lemma OperatorFound(v: Vars, existing: Text, i: nat, l: Text)
    requires IsValid(v) && i < |v.operators| && !Intrudes(v, existing, v.operators[i])
    requires IsLineOf(l, existing, v.operators[i], v.defaults)
    requires HclAssignment(existing, v.operators[i]).Some? ==> HasValue(l, v.operators[i])
    ensures HclAssignment(Rendered(v, existing), v.operators[i]) == Some(l)
  {
    hide StringLines, OperatorLines, OperatorLine, JsonBlocks, IsBlock, IsName, IsJson, IsUnbrokenJson, HasNoSeparators, Assigns,
      HclAssignment, AssignsAt, IsStable, AreBlocks, JsonBlock, JoinLines, IntrudesAt, HasValue, StandsAt, AssignmentAt;
    var n, ns, d := v.operators[i], v.operators, v.defaults;
    var bs := Blocks(v, existing);
    AllBlocks(v, existing);
    StringLinesAvoid(v.strings, n, |v.strings|);
    OperatorLineAt(existing, ns, d, i);
    OperatorLinesAvoid(existing, ns[..i], d, n);
    var k := |v.strings| + |OperatorLines(existing, ns[..i], d)|;
    OperatorLineIs(existing, n, d, l);
    assert bs[k] == l;
    FoundAt(bs, k, n);
  }

  lemma OperatorMissing(v: Vars, existing: Text, i: nat)
    requires IsValid(v) && i < |v.operators| && !Intrudes(v, existing, v.operators[i])
    requires OperatorLine(existing, v.operators[i], v.defaults).None?
    ensures HclAssignment(Rendered(v, existing), v.operators[i]) == None
  {
    hide StringLines, OperatorLines, OperatorLine, JsonBlocks, IsBlock, IsName, IsJson, IsUnbrokenJson, HasNoSeparators, Assigns,
      HclAssignment, AssignsAt, IsStable, AreBlocks, JsonBlock, JoinLines, IntrudesAt, HasValue, StandsAt, AssignmentAt;
    var n, ns, d := v.operators[i], v.operators, v.defaults;
    AllBlocks(v, existing);
    StringLinesAvoid(v.strings, n, |v.strings|);
    OperatorLineAt(existing, ns, d, i);
    OperatorLinesAvoid(existing, ns[..i], d, n);
    OperatorLinesAvoid(existing, ns[i + 1..], d, n);
    JsonBlocksAvoid(v.json, n, |v.json|);
    AbsentFrom(Blocks(v, existing), n);
  }

  /**
   * An operator's variable that the old file assigns keeps its assignment; one that it does not has
   * its default in the rendered text, if there is one, and is not assigned otherwise.
   */
  lemma OperatorReads(v: Vars, existing: Text, i: nat)
    requires IsValid(v) && i < |v.operators| && !Intrudes(v, existing, v.operators[i])
    ensures var n, t := v.operators[i], Rendered(v, existing);
            match HclAssignment(existing, n)
            case Some(a) => HasValue(a, n) ==> HclAssignment(t, n) == Some(a)
            case None => if n in v.defaults then HclString(t, n) == Value(v.defaults[n]) else HclAssignment(t, n) == None
  {
    hide Rendered, HclAssignment, HclString, HasValue, Intrudes, IsName, HasNoSeparators, Line, Quote, IsJson, IsUnbrokenJson;
    var n := v.operators[i];
    match HclAssignment(existing, n) {
      case Some(a) =>
        if HasValue(a, n) {
          OperatorFound(v, existing, i, a);
        }
      case None =>
        if n in v.defaults {
          OperatorFound(v, existing, i, Line(n, Quote(v.defaults[n])));
          StringLineReads(Rendered(v, existing), n, v.defaults[n]);
        } else {
          OperatorMissing(v, existing, i);
        }
    }
  }

  lemma NoLine(existing: Text, t: Text, n: Text, d: map<Text, Text>)
    requires OperatorLine(existing, n, d).None? && HclAssignment(t, n).None?
    ensures OperatorLine(t, n, d).None?
  {
    hide HclAssignment;
  }

  lemma FoundLine(t: Text, n: Text, d: map<Text, Text>)
    requires HclAssignment(t, n).Some?
    ensures OperatorLine(t, n, d) == HclAssignment(t, n)
  {
    hide HclAssignment;
  }

  /** Every preserved assignment has a value. */
  predicate IsValued(v: Vars, existing: Text) {
    AllPreserveValues(existing, v.operators)
  }

  predicate PreservesValue(existing: Text, n: Text) {
    match HclAssignment(existing, n) case Some(b) => HasValue(b, n) case None => true
  }

  /** Compared with those of one text, the lines from another are the same, or longer where no value was preserved. */
  ghost predicate Grows(s: Text, t: Text, n: Text, d: map<Text, Text>) {
    var was, now := OperatorLine(s, n, d), OperatorLine(t, n, d);
    if was.None? then now.None?
    else if PreservesValue(s, n) then now == was
    else now.Some? && |now.value| > |was.value|
  }

  lemma JoinedLength(a: seq<Text>, b: seq<Text>)
    ensures JoinLines(a + b) == JoinLines(a) + JoinLines(b)
  {
    if a == [] {
      assert a + b == b;
    } else {
      assert (a + b)[1..] == a[1..] + b;
      JoinedLength(a[1..], b);
    }
  }

  predicate AllPreserveValues(s: Text, ns: seq<Text>) {
    forall i :: 0 <= i < |ns| ==> PreservesValue(s, ns[i])
  }

  lemma FirstLine(s: Text, ns: seq<Text>, d: map<Text, Text>)
    requires ns != []
    ensures var l, ls := OperatorLine(s, ns[0], d), OperatorLines(s, ns[1..], d);
            && OperatorLines(s, ns, d) == (if l.Some? then [l.value] + ls else ls)
            && |JoinLines(OperatorLines(s, ns, d))| == |JoinLines(ls)| + (if l.Some? then |l.value| + 1 else 0)
  {
    hide OperatorLine;
    var l, ls := OperatorLine(s, ns[0], d), OperatorLines(s, ns[1..], d);
    match l {
      case Some(x) => assert ([x] + ls)[1..] == ls;
      case None => assert [] + ls == ls;
    }
  }

  lemma {:induction false} LinesGrow(s: Text, t: Text, ns: seq<Text>, d: map<Text, Text>)
    requires forall i :: 0 <= i < |ns| ==> Grows(s, t, ns[i], d)
    ensures var was, now := OperatorLines(s, ns, d), OperatorLines(t, ns, d);
            if AllPreserveValues(s, ns) then now == was else |JoinLines(now)| > |JoinLines(was)|
  {
    hide HclAssignment, HasValue, OperatorLine, JoinLines;
    if ns != [] {
      LinesGrow(s, t, ns[1..], d);
      SomethingKept(s, ns[0], d);
      assert Grows(s, t, ns[0], d);
      FirstLine(s, ns, d);
      FirstLine(t, ns, d);
      assert AllPreserveValues(s, ns) <==> PreservesValue(s, ns[0]) && AllPreserveValues(s, ns[1..]) by {
        assert forall i :: 1 <= i < |ns| ==> ns[1..][i - 1] == ns[i];
      }
    }
  }

  /**
   * Rendering the rendered text gives it again if and only if every preserved assignment has a value.
   * No preserved block may assign another operator's variable on one of its lines.
   */
  lemma RenderAgain(v: Vars, existing: Text)
    requires IsValid(v) && v.json != [] && forall i :: 0 <= i < |v.operators| ==> !Intrudes(v, existing, v.operators[i])
    ensures Rendered(v, Rendered(v, existing)) == Rendered(v, existing) <==> IsValued(v, existing)
  {
    hide OperatorLine, OperatorLines, StringLines, JsonBlocks, JoinLines, IsValid, Intrudes, HclAssignment;
    var t := Rendered(v, existing);
    forall i | 0 <= i < |v.operators| ensures Grows(existing, t, v.operators[i], v.defaults) {
      OperatorAgain(v, existing, i);
      SomethingKept(existing, v.operators[i], v.defaults);
    }
    var was, now := OperatorLines(existing, v.operators, v.defaults), OperatorLines(t, v.operators, v.defaults);
    LinesGrow(existing, t, v.operators, v.defaults);
    forall ls: seq<Text> ensures JoinLines(StringLines(v.strings) + ls + JsonBlocks(v.json)) ==
                                 JoinLines(StringLines(v.strings)) + JoinLines(ls) + JoinLines(JsonBlocks(v.json)) {
      JoinedLength(StringLines(v.strings) + ls, JsonBlocks(v.json));
      JoinedLength(StringLines(v.strings), ls);
    }
    assert |Rendered(v, t)| - |t| == |JoinLines(now)| - |JoinLines(was)|;
  }

  /** A file that ends with `name=` is an example of one whose second rendering differs from the first. */
  lemma EmptyValueGrows(n: Text, m: Text, j: Json)
    requires IsName(n) && IsName(m) && n != m && IsJson(j) && IsUnbrokenJson(j)
    ensures var v, existing := Vars([], [(m, j)], map[], [n]), n + [EQUALS];
            Rendered(v, Rendered(v, existing)) != Rendered(v, existing)
  {
    hide IsName, IsJson, IsUnbrokenJson, Rendered, HclAssignment, HasValue;
    var v, existing := Vars([], [(m, j)], map[], [n]), n + [EQUALS];
    EmptyIsPreserved(n);
    assert !PreservesValue(existing, v.operators[0]);
    RenderAgain(v, existing);
  }

  lemma EmptyIsPreserved(n: Text)
    requires IsName(n)
    ensures HclAssignment(n + [EQUALS], n) == Some(n + [EQUALS]) && !HasValue(n + [EQUALS], n)
  {
    hide SkipSpace;
    var s := n + [EQUALS];
    assert s[0] == n[0];
    assert IsNameChar(n[0]);
    assert s[..|n|] == n;
    EqualsIsNoSpace();
    SpaceEndsAt(s, |n|, |n|);
    SpaceEndsAt(s, |s|, |s|);
    assert s[0..|s|] == s;
    TrimEndKeeps(s);
  }

  lemma SomethingKept(s: Text, n: Text, d: map<Text, Text>)
    ensures var was := OperatorLine(s, n, d);
            && (was.None? ==> HclAssignment(s, n).None?)
            && (HclAssignment(s, n).Some? ==> was == HclAssignment(s, n))
  {
    hide HclAssignment;
  }
}
