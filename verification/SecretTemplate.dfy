// The secret template: read as a `.env` file, it names exactly the secrets an operator must set.

module SecretTemplate {
  import opened Results
  import opened Texts
  import opened TextLines
  import opened EnvFile
  import R = SecretRouting
  import S = SecretSources

  const COMMENT: Text := [HASH, SPACE]

  const OPEN: Text := [SPACE, 0x28]
  const CLOSE: Text := [0x29]

  /**
   * The English of the comments: the opening remarks, how hints and conditions are introduced, how
   * consumers are listed, and what stands behind a name that is not to be set.
   */
  datatype Wording = Wording(
    head: seq<Text>, generateWith: Text, fill: Text -> Text, needed: R.Spec -> Text, consumers: R.Secret -> Text,
    populated: Text, optional: Text)

  // ---------------------------------------------------------------------------
  // Specification
  // ---------------------------------------------------------------------------

  function HeadLines(head: seq<Text>): seq<Text> {
    if head == [] then [[]] else [COMMENT + head[0]] + HeadLines(head[1..])
  }

  function HintLines(generate: Option<Text>, w: Wording): seq<Text> {
    match generate case None => [] case Some(g) => [COMMENT + w.generateWith + w.fill(g)]
  }

  function NameLine(s: R.Secret, w: Wording): Text {
    if s.terraform then COMMENT + s.name + [EQUALS] + w.populated
    else if s.required then s.name + [EQUALS]
    else COMMENT + s.name + [EQUALS] + w.optional
  }

  function SecretLines(s: R.Secret, w: Wording): seq<Text> {
    [COMMENT + s.description + OPEN + w.consumers(s) + CLOSE] + HintLines(s.generate, w) + [NameLine(s, w), []]
  }

  function ActiveLines(ss: seq<R.Secret>, w: Wording): seq<Text> {
    if ss == [] then [] else SecretLines(ss[0], w) + ActiveLines(ss[1..], w)
  }

  predicate IsInactive(c: R.Config, active: seq<R.Secret>, specs: seq<R.Spec>, i: nat)
    requires i < |specs|
  {
    && R.Find(active, specs[i].name).None?
    && (forall j :: 0 <= j < i ==> specs[j].name != specs[i].name)
    && !(specs[i].required.When? && R.RequiresOtherEmailTransport(c, specs[i].required.condition))
  }

  function SpecLines(s: R.Spec, w: Wording): seq<Text> {
    [COMMENT + s.description + OPEN + s.service + CLOSE, COMMENT + w.needed(s)]
    + HintLines(s.generate, w)
    + [COMMENT + s.name + [EQUALS] + (if s.terraform then w.populated else []), []]
  }

  function InactiveLines(c: R.Config, active: seq<R.Secret>, specs: seq<R.Spec>, i: nat, w: Wording): seq<Text>
    decreases |specs| - i
  {
    if i >= |specs| then []
    else (if IsInactive(c, active, specs, i) then SpecLines(specs[i], w) else [])
         + InactiveLines(c, active, specs, i + 1, w)
  }

  function Lines(c: R.Config, active: seq<R.Secret>, specs: seq<R.Spec>, w: Wording): seq<Text> {
    HeadLines(w.head) + ActiveLines(active, w) + InactiveLines(c, active, specs, 0, w)
  }

  function Template(c: R.Config, active: seq<R.Secret>, specs: seq<R.Spec>, w: Wording): Text {
    TrimEnd(JoinLines(Lines(c, active, specs, w))) + [NEWLINE]
  }

  // ---------------------------------------------------------------------------
  // The loops
  // ---------------------------------------------------------------------------

  method PushActive(active: seq<R.Secret>, w: Wording, head: seq<Text>) returns (lines: seq<Text>)
    ensures lines == head + ActiveLines(active, w)
  {
    hide SecretLines;
    lines := head;
    for i := 0 to |active|
      invariant lines + ActiveLines(active[i..], w) == head + ActiveLines(active, w)
    {
      ActiveLeft(active, i, w, lines);
      lines := lines + SecretLines(active[i], w);
    }
  }

  method RenderEnvExample(c: R.Config, specs: seq<R.Spec>, before: (Text, Text) -> bool, w: Wording)
    returns (r: Text)
    ensures r == Template(c, R.Computed(c, specs, before), specs, w)
  {
    hide ActiveLines, SpecLines, JoinLines, IsInactive, HeadLines, R.Computed;
    var active := R.ComputedSecrets(c, specs, before);
    var lines := PushActive(active, w, HeadLines(w.head));
    for i := 0 to |specs|
      invariant lines + InactiveLines(c, active, specs, i, w) == Lines(c, active, specs, w)
    {
      InactiveLeft(c, active, specs, i, w, lines);
      if IsInactive(c, active, specs, i) {
        lines := lines + SpecLines(specs[i], w);
      }
    }
    assert lines + [] == lines;
    return TrimEnd(JoinLines(lines)) + [NEWLINE];
  }

  lemma ActiveLeft(ss: seq<R.Secret>, i: nat, w: Wording, lines: seq<Text>)
    requires i < |ss|
    ensures lines + ActiveLines(ss[i..], w) == lines + SecretLines(ss[i], w) + ActiveLines(ss[i + 1..], w)
  {
    hide SecretLines;
    assert ss[i..][0] == ss[i] && ss[i..][1..] == ss[i + 1..];
  }

  lemma InactiveLeft(c: R.Config, active: seq<R.Secret>, specs: seq<R.Spec>, i: nat, w: Wording, lines: seq<Text>)
    requires i < |specs|
    ensures lines + InactiveLines(c, active, specs, i, w) ==
            lines + (if IsInactive(c, active, specs, i) then SpecLines(specs[i], w) else [])
            + InactiveLines(c, active, specs, i + 1, w)
    ensures lines + [] == lines
  {
    hide SpecLines, IsInactive;
  }

  // ---------------------------------------------------------------------------
  // Reading trimmed text
  // ---------------------------------------------------------------------------

  lemma {:induction false} SplitAppend(t: Text, c: Code)
    ensures var ls := SplitLines(t);
            SplitLines(t + [c]) ==
            if c == NEWLINE then ls + [[]] else ls[..|ls| - 1] + [ls[|ls| - 1] + [c]]
  {
    if t == [] {
      assert t + [c] == [c];
      SplitSingle(c);
    } else {
      assert (t + [c])[1..] == t[1..] + [c];
      SplitAppend(t[1..], c);
      var rest := SplitLines(t[1..]);
      LastOfMore(t[0], rest, c);
    }
  }

  lemma SplitSingle(c: Code)
    ensures SplitLines([]) == [[]] && SplitLines([c]) == if c == NEWLINE then [[], []] else [[c]]
  {
    assert [c][1..] == [];
    assert [c] + [] == [c];
  }

  /** Appending to the last line, seen behind a first character or a line break. */
  lemma LastOfMore(first: Code, rest: seq<Text>, c: Code)
    requires rest != []
    ensures var n := |rest| - 1;
            var more, ls := rest[..n] + [rest[n] + [c]], [[first] + rest[0]] + rest[1..];
            && [[]] + more == ([[]] + rest)[..n + 1] + [rest[n] + [c]]
            && [[first] + more[0]] + more[1..] == ls[..n] + [ls[n] + [c]]
            && [[]] + (rest + [[]]) == [[]] + rest + [[]]
            && [[first] + (rest + [[]])[0]] + (rest + [[]])[1..] == ls + [[]]
  {
    var n := |rest| - 1;
    if n == 0 {
      assert [first] + (rest[0] + [c]) == [first] + rest[0] + [c];
    }
  }

  lemma {:induction false} TrimStartAppend(l: Text, c: Code)
    requires IsSpace(c)
    ensures TrimStart(l + [c]) == if TrimStart(l) == [] then [] else TrimStart(l) + [c]
  {
    if l == [] {
      assert [] + [c] == [c] && [c][1..] == [];
    } else if IsSpace(l[0]) {
      assert (l + [c])[1..] == l[1..] + [c];
      TrimStartAppend(l[1..], c);
    }
  }

  /** White space behind a line does not change what is read from it. */
  lemma TrimAppend(l: Text, c: Code)
    requires IsSpace(c)
    ensures Trim(l + [c]) == Trim(l)
  {
    TrimStartAppend(l, c);
    var t := TrimStart(l);
    assert (t + [c])[..|t|] == t;
  }

  lemma {:induction false} ReadsConcat(m: map<Text, Text>, a: seq<Text>, b: seq<Text>)
    ensures ReadLines(m, a + b) == ReadLines(ReadLines(m, a), b)
    decreases |a|
  {
    hide ReadLine;
    if a == [] {
      assert a + b == b;
    } else {
      assert (a + b)[1..] == a[1..] + b;
      ReadsConcat(ReadLine(m, a[0]), a[1..], b);
    }
  }

  lemma ReadsOne(m: map<Text, Text>, l: Text)
    ensures ReadLines(m, [l]) == ReadLine(m, l)
  {
    hide ReadLine;
    assert [l][1..] == [];
    assert ReadLines(ReadLine(m, l), []) == ReadLine(m, l);
  }

  lemma BlankReads(m: map<Text, Text>)
    ensures ReadLine(m, []) == m
  {
  }

  lemma SameTrimReads(m: map<Text, Text>, k: Text, l: Text)
    requires Trim(k) == Trim(l)
    ensures ReadLine(m, k) == ReadLine(m, l)
  {
    hide Trim;
  }

  /** White space at the end of a file does not change its variables. */
  lemma SpaceAtEndReads(t: Text, c: Code)
    requires IsSpace(c)
    ensures Variables(Some(t + [c])) == Variables(Some(t))
  {
    hide SplitLines, ReadLine, ReadLines, Trim;
    var ls := SplitLines(t);
    var a, l := ls[..|ls| - 1], ls[|ls| - 1];
    assert ls == a + [l];
    SplitAppend(t, c);
    var m := ReadLines(map[], a);
    ReadsConcat(map[], a, [l]);
    ReadsOne(m, l);
    if c == NEWLINE {
      ReadsConcat(map[], ls, [[]]);
      ReadsOne(ReadLines(map[], ls), []);
      BlankReads(ReadLines(map[], ls));
    } else {
      ReadsConcat(map[], a, [l + [c]]);
      ReadsOne(m, l + [c]);
      TrimAppend(l, c);
      SameTrimReads(m, l + [c], l);
    }
  }

  lemma {:induction false} TrimmedReads(t: Text)
    ensures Variables(Some(TrimEnd(t) + [NEWLINE])) == Variables(Some(t))
    decreases |t|
  {
    hide Variables;
    if t != [] && IsSpace(t[|t| - 1]) {
      var s := t[..|t| - 1];
      assert t == s + [t[|t| - 1]];
      TrimmedReads(s);
      SpaceAtEndReads(s, t[|t| - 1]);
    } else {
      SpaceAtEndReads(t, NEWLINE);
    }
  }

  lemma JoinedReads(ls: seq<Text>)
    requires AreLines(ls)
    ensures Variables(Some(JoinLines(ls))) == ReadLines(map[], ls)
  {
    hide SplitLines, JoinLines, ReadLines, ReadLine;
    SplitJoined(ls);
    ReadsConcat(map[], ls, [[]]);
    ReadsOne(ReadLines(map[], ls), []);
    BlankReads(ReadLines(map[], ls));
  }

  // ---------------------------------------------------------------------------
  // What the template's lines say
  // ---------------------------------------------------------------------------

  lemma CommentReads(m: map<Text, Text>, l: Text)
    requires |l| >= 1 && l[0] == HASH
    ensures ReadLine(m, l) == m
  {
    var r := TrimEnd(l);
    assert TrimStart(l) == l;
    if r == [] {
      assert IsSpace(l[0]);
    } else {
      assert r[0] == l[..|r|][0];
    }
  }

  lemma NameReads(m: map<Text, Text>, name: Text)
    requires IsEnvVarName(name)
    ensures ReadLine(m, name + [EQUALS]) == m[name := []]
  {
    hide IsEnvVarName, KeyOf, ValueOf, TrimEnd;
    assert Entry(name, []) == name + [EQUALS];
    EntryReads(name, []);
    NothingTrimmed();
  }

  lemma NothingTrimmed()
    ensures TrimEnd([]) == []
  {
  }

  /** None of the texts in the template contains a line break. */
  ghost predicate PlainSecret(s: R.Secret, w: Wording) {
    && IsLine(s.description) && IsLine(w.consumers(s)) && IsLine(s.name)
    && (s.generate.Some? ==> IsLine(w.fill(s.generate.value)))
    && (s.required && !s.terraform ==> IsEnvVarName(s.name))
  }

  ghost predicate PlainSpec(s: R.Spec, w: Wording) {
    && IsLine(s.description) && IsLine(s.service) && IsLine(s.name) && IsLine(w.needed(s))
    && (s.generate.Some? ==> IsLine(w.fill(s.generate.value)))
  }

  ghost predicate PlainWording(w: Wording) {
    AreLines(w.head) && IsLine(w.generateWith) && IsLine(w.populated) && IsLine(w.optional)
  }

  /** The line is a comment without a line break, or blank. */
  predicate IsRemark(l: Text) {
    IsLine(l) && (l == [] || l[0] == HASH)
  }

  predicate AreRemarks(ls: seq<Text>) {
    forall k :: 0 <= k < |ls| ==> IsRemark(ls[k])
  }

  lemma {:induction false} RemarksRead(m: map<Text, Text>, ls: seq<Text>)
    requires AreRemarks(ls)
    ensures ReadLines(m, ls) == m && AreLines(ls)
    decreases |ls|
  {
    hide ReadLine;
    if ls != [] {
      assert IsRemark(ls[0]);
      BlankReads(m);
      if ls[0] != [] {
        CommentReads(m, ls[0]);
      }
      RemarksRead(m, ls[1..]);
      assert ls == [ls[0]] + ls[1..];
    }
  }

  lemma {:induction false} HeadIsRemarks(head: seq<Text>)
    requires AreLines(head)
    ensures AreRemarks(HeadLines(head))
  {
    hide IsRemark, IsLine;
    BlankIsLine();
    if head != [] {
      CommentIsRemark(head[0]);
      HeadIsRemarks(head[1..]);
    }
  }

  /** A comment's text may be continued by any line. */
  lemma CommentIsRemark(a: Text)
    requires IsLine(a)
    ensures IsRemark(COMMENT + a) && COMMENT + a != []
  {
  }

  lemma RemarkConcat(a: Text, b: Text)
    requires IsLine(b) && IsRemark(a) && a != []
    ensures IsRemark(a + b) && a + b != []
  {
  }

  lemma FixedLines()
    ensures IsLine(OPEN) && IsLine(CLOSE) && IsLine([EQUALS]) && IsLine([])
  {
  }

  lemma HintIsRemark(generate: Option<Text>, w: Wording)
    requires IsLine(w.generateWith) && (generate.Some? ==> IsLine(w.fill(generate.value)))
    ensures AreRemarks(HintLines(generate, w))
  {
    hide IsRemark, IsLine;
    if generate.Some? {
      CommentIsRemark(w.generateWith);
      RemarkConcat(COMMENT + w.generateWith, w.fill(generate.value));
    }
  }

  lemma ParenthesisRemark(a: Text, b: Text)
    requires IsLine(a) && IsLine(b)
    ensures IsRemark(COMMENT + a + OPEN + b + CLOSE)
  {
    hide IsRemark, IsLine;
    FixedLines();
    CommentIsRemark(a);
    RemarkConcat(COMMENT + a, OPEN);
    RemarkConcat(COMMENT + a + OPEN, b);
    RemarkConcat(COMMENT + a + OPEN + b, CLOSE);
  }

  lemma NameRemark(name: Text, text: Text)
    requires IsLine(name) && IsLine(text)
    ensures IsRemark(COMMENT + name + [EQUALS] + text)
  {
    hide IsRemark, IsLine;
    FixedLines();
    CommentIsRemark(name);
    RemarkConcat(COMMENT + name, [EQUALS]);
    RemarkConcat(COMMENT + name + [EQUALS], text);
  }

  /** A secret's lines set it to the empty value if an operator must provide it, and say nothing else. */
  lemma SecretReads(m: map<Text, Text>, s: R.Secret, w: Wording)
    requires PlainSecret(s, w) && PlainWording(w)
    ensures ReadLines(m, SecretLines(s, w)) == if s.required && !s.terraform then m[s.name := []] else m
    ensures AreLines(SecretLines(s, w))
  {
    hide IsRemark, IsLine, ReadLine, ReadLines, HintLines, NameLine, IsEnvVarName;
    var first := [COMMENT + s.description + OPEN + w.consumers(s) + CLOSE];
    var hint, rest := HintLines(s.generate, w), [NameLine(s, w), []];
    ParenthesisRemark(s.description, w.consumers(s));
    HintIsRemark(s.generate, w);
    RemarksRead(m, first + hint);
    ReadsConcat(m, first + hint, rest);
    NameLineReads(m, s, w);
  }

  lemma NameLineReads(m: map<Text, Text>, s: R.Secret, w: Wording)
    requires IsLine(s.name) && (s.required && !s.terraform ==> IsEnvVarName(s.name)) && PlainWording(w)
    ensures ReadLines(m, [NameLine(s, w), []]) == if s.required && !s.terraform then m[s.name := []] else m
    ensures AreLines([NameLine(s, w), []])
  {
    hide ReadLine, ReadLines, IsEnvVarName, IsLine, IsRemark;
    var l := NameLine(s, w);
    BlankIsLine();
    if s.required && !s.terraform {
      NameReads(m, s.name);
      NameIsLine(s.name);
    } else {
      NameRemark(s.name, if s.terraform then w.populated else w.optional);
      RemarksRead(m, [l]);
      ReadsOne(m, l);
    }
    LineAndBlank(m, l);
  }

  lemma LineAndBlank(m: map<Text, Text>, l: Text)
    ensures ReadLines(m, [l, []]) == ReadLine(m, l)
  {
    hide ReadLine, ReadLines;
    assert [l, []] == [l] + [[]];
    ReadsConcat(m, [l], [[]]);
    ReadsOne(m, l);
    ReadsOne(ReadLine(m, l), []);
    BlankReads(ReadLine(m, l));
  }

  lemma BlankIsLine()
    ensures IsLine([]) && IsRemark([])
  {
  }

  lemma NameIsLine(name: Text)
    requires IsLine(name)
    ensures IsLine(name + [EQUALS])
  {
  }

  /** The secrets that an operator must provide, each with an empty value. */
  function Needed(m: map<Text, Text>, ss: seq<R.Secret>): map<Text, Text>
    decreases |ss|
  {
    if ss == [] then m
    else Needed(if ss[0].required && !ss[0].terraform then m[ss[0].name := []] else m, ss[1..])
  }

  lemma {:induction false} ActiveReads(m: map<Text, Text>, ss: seq<R.Secret>, w: Wording)
    requires PlainWording(w) && forall k :: 0 <= k < |ss| ==> PlainSecret(ss[k], w)
    ensures ReadLines(m, ActiveLines(ss, w)) == Needed(m, ss) && AreLines(ActiveLines(ss, w))
    decreases |ss|
  {
    hide SecretLines, ReadLine, PlainSecret, IsLine;
    if ss != [] {
      SecretReads(m, ss[0], w);
      ReadsConcat(m, SecretLines(ss[0], w), ActiveLines(ss[1..], w));
      ActiveReads(ReadLines(m, SecretLines(ss[0], w)), ss[1..], w);
    }
  }

  lemma {:induction false} InactiveIsRemarks(c: R.Config, active: seq<R.Secret>, specs: seq<R.Spec>, i: nat, w: Wording)
    requires PlainWording(w) && forall k :: 0 <= k < |specs| ==> PlainSpec(specs[k], w)
    ensures AreRemarks(InactiveLines(c, active, specs, i, w))
    decreases |specs| - i
  {
    hide SpecLines, IsInactive, PlainSpec, IsRemark;
    if i < |specs| {
      InactiveIsRemarks(c, active, specs, i + 1, w);
      SpecIsRemarks(specs[i], w);
    }
  }

  lemma SpecIsRemarks(s: R.Spec, w: Wording)
    requires PlainSpec(s, w) && PlainWording(w)
    ensures AreRemarks(SpecLines(s, w))
  {
    hide IsRemark, IsLine, HintLines;
    FixedLines();
    BlankIsLine();
    HintIsRemark(s.generate, w);
    ParenthesisRemark(s.description, s.service);
    CommentIsRemark(w.needed(s));
    NameRemark(s.name, if s.terraform then w.populated else []);
  }

  lemma {:induction false} NeededIs(m: map<Text, Text>, ss: seq<R.Secret>, name: Text)
    ensures name in Needed(m, ss) <==>
            name in m || exists k :: 0 <= k < |ss| && ss[k].name == name && ss[k].required && !ss[k].terraform
    ensures name in Needed(m, ss) && (name !in m || m[name] == []) ==> Needed(m, ss)[name] == []
    decreases |ss|
  {
    if ss != [] {
      var next := if ss[0].required && !ss[0].terraform then m[ss[0].name := []] else m;
      NeededIs(next, ss[1..], name);
      if k :| 0 <= k < |ss[1..]| && ss[1..][k].name == name && ss[1..][k].required && !ss[1..][k].terraform {
        assert ss[k + 1] == ss[1..][k];
      }
      if k :| 0 <= k < |ss| && ss[k].name == name && ss[k].required && !ss[k].terraform {
        assert k > 0 ==> ss[1..][k - 1] == ss[k];
      }
    }
  }

  /**
   * Reading the rendered template gives exactly the secrets that are required and managed by an
   * operator, each with an empty value.
   */
  lemma TemplateNamesRequired(c: R.Config, active: seq<R.Secret>, specs: seq<R.Spec>, w: Wording, name: Text)
    requires PlainWording(w) && forall k :: 0 <= k < |active| ==> PlainSecret(active[k], w)
    requires forall k :: 0 <= k < |specs| ==> PlainSpec(specs[k], w)
    ensures var vars := Variables(Some(Template(c, active, specs, w)));
            && (name in vars <==>
                exists k :: 0 <= k < |active| && active[k].name == name && active[k].required && !active[k].terraform)
            && (name in vars ==> vars[name] == [])
  {
    hide Variables, ReadLines, JoinLines, ActiveLines, InactiveLines, HeadLines, PlainSecret, PlainSpec, IsRemark,
         IsLine, Needed, TrimEnd;
    var head, a, b := HeadLines(w.head), ActiveLines(active, w), InactiveLines(c, active, specs, 0, w);
    TemplateReads(c, active, specs, w);
    JoinedReads(head + a + b);
    TrimmedReads(JoinLines(head + a + b));
    NeededIs(map[], active, name);
  }

  lemma TemplateReads(c: R.Config, active: seq<R.Secret>, specs: seq<R.Spec>, w: Wording)
    requires PlainWording(w) && forall k :: 0 <= k < |active| ==> PlainSecret(active[k], w)
    requires forall k :: 0 <= k < |specs| ==> PlainSpec(specs[k], w)
    ensures ReadLines(map[], Lines(c, active, specs, w)) == Needed(map[], active)
    ensures AreLines(Lines(c, active, specs, w))
  {
    hide ReadLines, ActiveLines, InactiveLines, HeadLines, PlainSecret, PlainSpec, IsRemark, IsLine, Needed;
    var head, a, b := HeadLines(w.head), ActiveLines(active, w), InactiveLines(c, active, specs, 0, w);
    HeadIsRemarks(w.head);
    RemarksRead(map[], head);
    ActiveReads(map[], active, w);
    InactiveIsRemarks(c, active, specs, 0, w);
    RemarksRead(Needed(map[], active), b);
    ReadsConcat(map[], head + a, b);
    ReadsConcat(map[], head, a);
  }

  /**
   * Reading the template of a configuration gives exactly the secrets that one of its entries requires,
   * but for those of which the first first-party entry that names them is Terraform's.
   */
  lemma TemplateOfConfiguration(c: R.Config, specs: seq<R.Spec>, before: (Text, Text) -> bool, w: Wording, name: Text)
    returns (i: nat)
    requires R.IsOrder(before) && PlainWording(w)
    requires forall s :: s in R.Computed(c, specs, before) ==> PlainSecret(s, w)
    requires forall k :: 0 <= k < |specs| ==> PlainSpec(specs[k], w)
    ensures S.SpecNames(c, specs, name) ==> S.IsFirstSpec(c, specs, name, i)
    ensures name in Variables(Some(Template(c, R.Computed(c, specs, before), specs, w))) <==>
            && S.IsNeeded(c, specs, name) && S.IsRequired(c, specs, name)
            && (S.SpecNames(c, specs, name) ==> !specs[i].terraform)
  {
    hide R.Units, R.Computed, R.Find, PlainSecret, PlainSpec, PlainWording, Variables, Template, S.IsRequired, S.IsFirstSpec,
         S.SpecNames, R.IsOrder;
    var active := R.Computed(c, specs, before);
    TemplateNamesRequired(c, active, specs, w, name);
    S.ConfigurationIsRouted(c, specs, before, {}, name, (name, name));
    R.SecretsAreRouted(c, specs, before, {}, name, (name, name));
    R.FindIn(active, name);
    i := 0;
    if S.IsNeeded(c, specs, name) {
      i := S.FirstEntryManages(c, specs, before, name);
    } else {
      NamesAreNeeded(c, specs, name);
    }
  }

  lemma NamesAreNeeded(c: R.Config, specs: seq<R.Spec>, name: Text)
    ensures S.SpecNames(c, specs, name) ==> S.IsNeeded(c, specs, name)
  {
  }

  // ---------------------------------------------------------------------------
  // What the template shows
  // ---------------------------------------------------------------------------

  function Remark(t: Text): Text {
    [0x23, 0x20] + t
  }

  /** The lines about a listed secret: who uses it, how it is generated, and its name, to be set only if required. */
  predicate ShowsSecret(s: R.Secret, w: Wording, l: Text) {
    || l == Remark(s.description + [0x20, 0x28] + w.consumers(s) + [0x29])
    || (s.generate.Some? && l == Remark(w.generateWith + w.fill(s.generate.value)))
    || (if !s.terraform && s.required then l == s.name + [0x3D]
        else l == Remark(s.name + [0x3D] + if s.terraform then w.populated else w.optional))
  }

  /** The lines about a first-party secret that is not listed. */
  predicate ShowsSpec(s: R.Spec, w: Wording, l: Text) {
    || l == Remark(s.description + [0x20, 0x28] + s.service + [0x29]) || l == Remark(w.needed(s))
    || (s.generate.Some? && l == Remark(w.generateWith + w.fill(s.generate.value)))
    || l == Remark(s.name + [0x3D] + if s.terraform then w.populated else [])
  }

  /** The first entry of its name, which no listed secret has, that needs no other mail transport. */
  predicate IsOffered(c: R.Config, active: seq<R.Secret>, specs: seq<R.Spec>, i: nat) {
    && i < |specs| && (forall s :: s in active ==> s.name != specs[i].name)
    && (forall j :: 0 <= j < i ==> specs[j].name != specs[i].name)
    && (specs[i].required.When? ==> !R.RequiresOtherEmailTransport(c, specs[i].required.condition))
  }

  lemma RemarkIs(a: Text, b: Text, d: Text)
    ensures COMMENT + a + b + d == Remark(a + b + d) && COMMENT + a + b == Remark(a + b) && COMMENT + a == Remark(a)
  {
  }

  lemma ParenthesisIs(a: Text, b: Text)
    ensures COMMENT + a + OPEN + b + CLOSE == Remark(a + [0x20, 0x28] + b + [0x29])
  {
  }

  lemma SecretShows(s: R.Secret, w: Wording, l: Text)
    ensures l in SecretLines(s, w) <==> l == [] || ShowsSecret(s, w, l)
  {
    hide Remark;
    ParenthesisIs(s.description, w.consumers(s));
    RemarkIs(s.name, [EQUALS], w.populated);
    RemarkIs(s.name, [EQUALS], w.optional);
    if s.generate.Some? {
      RemarkIs(w.generateWith, w.fill(s.generate.value), []);
    }
  }

  lemma SpecShows(s: R.Spec, w: Wording, l: Text)
    ensures l in SpecLines(s, w) <==> l == [] || ShowsSpec(s, w, l)
  {
    hide Remark;
    ParenthesisIs(s.description, s.service);
    RemarkIs(w.needed(s), [], []);
    RemarkIs(s.name, [EQUALS], if s.terraform then w.populated else []);
    if s.generate.Some? {
      RemarkIs(w.generateWith, w.fill(s.generate.value), []);
    }
  }

  lemma {:induction false} ActiveShow(ss: seq<R.Secret>, w: Wording, l: Text)
    requires l != []
    ensures l in ActiveLines(ss, w) <==> exists k :: 0 <= k < |ss| && ShowsSecret(ss[k], w, l)
  {
    hide SecretLines, ShowsSecret;
    if ss != [] {
      SecretShows(ss[0], w, l);
      ActiveShow(ss[1..], w, l);
      assert forall k :: 1 <= k < |ss| ==> ss[k] == ss[1..][k - 1];
      assert forall k :: 0 <= k < |ss[1..]| ==> ss[1..][k] == ss[k + 1];
    }
  }

  lemma OfferedIs(c: R.Config, active: seq<R.Secret>, specs: seq<R.Spec>, i: nat)
    requires i < |specs|
    ensures IsInactive(c, active, specs, i) <==> IsOffered(c, active, specs, i)
  {
    hide R.RequiresOtherEmailTransport, R.Find;
    R.FindIn(active, specs[i].name);
    if R.Find(active, specs[i].name).None? {
      forall s | s in active ensures s.name != specs[i].name {
        var k :| 0 <= k < |active| && active[k] == s;
      }
    }
  }

  lemma {:induction false} InactiveShow(c: R.Config, active: seq<R.Secret>, specs: seq<R.Spec>, i: nat, w: Wording, l: Text)
    requires l != []
    ensures l in InactiveLines(c, active, specs, i, w) <==>
            exists k: nat :: i <= k && IsOffered(c, active, specs, k) && ShowsSpec(specs[k], w, l)
    decreases |specs| - i
  {
    hide SpecLines, ShowsSpec, IsInactive, IsOffered;
    if i < |specs| {
      OfferedIs(c, active, specs, i);
      SpecShows(specs[i], w, l);
      InactiveShow(c, active, specs, i + 1, w, l);
      OfferedBound(c, active, specs);
    } else {
      OfferedBound(c, active, specs);
    }
  }

  lemma OfferedBound(c: R.Config, active: seq<R.Secret>, specs: seq<R.Spec>)
    ensures forall k: nat :: IsOffered(c, active, specs, k) ==> k < |specs|
  {
  }

  lemma {:induction false} HeadShows(head: seq<Text>, l: Text)
    requires l != []
    ensures l in HeadLines(head) <==> exists k :: 0 <= k < |head| && l == Remark(head[k])
  {
    hide Remark;
    if head != [] {
      RemarkIs(head[0], [], []);
      HeadShows(head[1..], l);
      assert forall k :: 1 <= k < |head| ==> head[k] == head[1..][k - 1];
      assert forall k :: 0 <= k < |head[1..]| ==> head[1..][k] == head[k + 1];
    }
  }

  /** The lines of the template that are not empty: remarks, the listed secrets, and the offered ones. */
  lemma TemplateShows(c: R.Config, active: seq<R.Secret>, specs: seq<R.Spec>, w: Wording, l: Text)
    requires l != []
    ensures l in Lines(c, active, specs, w) <==>
            || (exists k :: 0 <= k < |w.head| && l == Remark(w.head[k]))
            || (exists k :: 0 <= k < |active| && ShowsSecret(active[k], w, l))
            || (exists k: nat :: IsOffered(c, active, specs, k) && ShowsSpec(specs[k], w, l))
  {
    hide HeadLines, ActiveLines, InactiveLines, ShowsSecret, ShowsSpec, Remark, IsOffered;
    HeadShows(w.head, l);
    ActiveShow(active, w, l);
    InactiveShow(c, active, specs, 0, w, l);
    OfferedBound(c, active, specs);
  }
}
