// Rendering the variables file from the configuration and checking it for drift.

module TerraformVars {
  import opened Results
  import opened Texts
  import opened TextLines
  import opened JsonText
  import opened HclText
  import C = CanonicalJson

  // ---------------------------------------------------------------------------
  // Printed JSON
  // ---------------------------------------------------------------------------

  function Spaces(n: nat): Text {
    if n == 0 then [] else [SPACE] + Spaces(n - 1)
  }

  /** A line break and the indentation of a nesting depth. */
  function Indent(depth: nat): Text {
    [NEWLINE] + Spaces(2 * depth)
  }

  /** The syntax that `JSON.stringify(value, null, 2)` prints at a nesting depth. */
  function Pretty(j: Json, depth: nat): Syntax
    decreases j, 0
  {
    match j
    case JScalar(t) => Scalar(t)
    case JString(t) => Str(QuoteBody(t))
    case JArray(js) => Group(false, PrettyItems(js, depth), NoComma([]))
    case JObject(ps) => Group(true, PrettyProps(ps, depth), NoComma([]))
  }

  function PrettyItems(js: seq<Json>, depth: nat): (es: seq<Entry>)
    ensures |es| == |js|
    ensures forall k :: 0 <= k < |js| ==>
              es[k] == Entry(Indent(depth + 1), NoLabel, Pretty(js[k], depth + 1),
                             if k == |js| - 1 then Indent(depth) else [])
    decreases js, 0
  {
    if js == [] then []
    else [Entry(Indent(depth + 1), NoLabel, Pretty(js[0], depth + 1), if |js| == 1 then Indent(depth) else [])]
         + PrettyItems(js[1..], depth)
  }

  function PrettyProps(ps: seq<Property>, depth: nat): (es: seq<Entry>)
    ensures |es| == |ps|
    ensures forall k :: 0 <= k < |ps| ==>
              es[k] == Entry(Indent(depth + 1), Label(QuoteBody(ps[k].key), [], [SPACE]), Pretty(ps[k].value, depth + 1),
                             if k == |ps| - 1 then Indent(depth) else [])
    decreases ps, 0
  {
    if ps == [] then []
    else [Entry(Indent(depth + 1), Label(QuoteBody(ps[0].key), [], [SPACE]), Pretty(ps[0].value, depth + 1),
                if |ps| == 1 then Indent(depth) else [])]
         + PrettyProps(ps[1..], depth)
  }

  /** A value whose tokens are JSON's and whose objects have every key once. */
  ghost predicate IsJson(j: Json)
    decreases j
  {
    match j
    case JScalar(t) => IsScalar(t)
    case JString(_) => true
    case JArray(js) => forall k :: 0 <= k < |js| ==> IsJson(js[k])
    case JObject(ps) =>
      && (forall a, b :: 0 <= a < b < |ps| ==> ps[a].key != ps[b].key)
      && forall k :: 0 <= k < |ps| ==> IsJson(ps[k].value)
  }

  lemma IndentIsSpace(depth: nat)
    ensures AllJsonSpace(Indent(depth))
  {
    SpacesAreSpaces(2 * depth);
  }

  lemma {:induction false} SpacesAreSpaces(n: nat)
    ensures forall k :: 0 <= k < |Spaces(n)| ==> Spaces(n)[k] == SPACE
  {
    if n > 0 {
      SpacesAreSpaces(n - 1);
    }
  }

  lemma PrettyEntryStrict(obj: bool, depth: nat, tag: Label, x: Syntax, post: Text)
    requires Strict(x) && (obj <==> tag.Label?) && AllJsonSpace(post)
    requires tag.Label? ==> Decode(tag.body).Some? && tag.mid == [] && tag.gap == [SPACE]
    ensures WellFormedEntry(obj, Entry(Indent(depth), tag, x, post), AllJsonSpace, false)
  {
    hide Decode, Indent;
    IndentIsSpace(depth);
  }

  lemma {:induction false} PrettyStrict(j: Json, depth: nat)
    requires IsJson(j)
    ensures Strict(Pretty(j, depth)) && WellFormed(Pretty(j, depth), AllJsonSpace, true)
    decreases j
  {
    hide Decode, IsNumber, WellFormedEntry, Indent, QuoteBody;
    IndentIsSpace(depth);
    match j {
      case JScalar(_) =>
      case JString(t) =>
        QuoteRoundTrip(t);
      case JArray(js) =>
        var es := PrettyItems(js, depth);
        forall k | 0 <= k < |es| ensures WellFormedEntry(false, es[k], AllJsonSpace, false) {
          PrettyStrict(js[k], depth + 1);
          PrettyEntryStrict(false, depth + 1, NoLabel, Pretty(js[k], depth + 1), es[k].post);
        }
        C.GroupStrict(false, es);
      case JObject(ps) =>
        var es := PrettyProps(ps, depth);
        forall k | 0 <= k < |es| ensures WellFormedEntry(true, es[k], AllJsonSpace, false) {
          PrettyStrict(ps[k].value, depth + 1);
          QuoteRoundTrip(ps[k].key);
          PrettyEntryStrict(true, depth + 1, es[k].tag, Pretty(ps[k].value, depth + 1), es[k].post);
        }
        C.GroupStrict(true, es);
    }
    StrictIsLax(Pretty(j, depth));
  }

  /** Strict syntax is well-formed where trailing commas are allowed, too. */
  lemma {:induction false} StrictIsLax(v: Syntax)
    requires WellFormed(v, AllJsonSpace, false)
    ensures WellFormed(v, AllJsonSpace, true)
    decreases v, 0
  {
    hide AllJsonSpace, Decode, IsScalar, WellFormedEntry;
    if v.Group? {
      assert WellFormedEntries(v.obj, v.entries, AllJsonSpace, false);
      forall k | 0 <= k < |v.entries| ensures WellFormedEntry(v.obj, v.entries[k], AllJsonSpace, true) {
        assert WellFormedEntry(v.obj, v.entries[k], AllJsonSpace, false);
        EntryIsLax(v.obj, v.entries[k]);
      }
    }
  }

  lemma {:induction false} EntryIsLax(obj: bool, e: Entry)
    requires WellFormedEntry(obj, e, AllJsonSpace, false)
    ensures WellFormedEntry(obj, e, AllJsonSpace, true)
    decreases e, 1
  {
    hide AllJsonSpace, Decode;
    StrictIsLax(e.value);
  }

  lemma {:induction false} PrettyDenotes(j: Json, depth: nat)
    requires IsJson(j)
    ensures Denote(Pretty(j, depth)) == j
    decreases j
  {
    hide Denote, Pretty;
    match j {
      case JScalar(t) =>
        ScalarDenotes(t, depth);
      case JString(t) =>
        StringDenotes(t, depth);
      case JArray(js) =>
        forall k | 0 <= k < |js| ensures Denote(Pretty(js[k], depth + 1)) == js[k] {
          PrettyDenotes(js[k], depth + 1);
        }
        ItemsDenote(js, depth);
      case JObject(ps) =>
        forall k | 0 <= k < |ps| ensures Denote(Pretty(ps[k].value, depth + 1)) == ps[k].value {
          PrettyDenotes(ps[k].value, depth + 1);
        }
        PropsDenote(ps, depth);
    }
  }

  lemma ScalarDenotes(t: Text, depth: nat)
    ensures Denote(Pretty(JScalar(t), depth)) == JScalar(t)
  {
  }

  lemma StringDenotes(t: Text, depth: nat)
    ensures Denote(Pretty(JString(t), depth)) == JString(t)
  {
    hide Decode, QuoteBody;
    QuoteRoundTrip(t);
  }

  lemma ItemsDenote(js: seq<Json>, depth: nat)
    requires forall k :: 0 <= k < |js| ==> Denote(Pretty(js[k], depth + 1)) == js[k]
    ensures Denote(Pretty(JArray(js), depth)) == JArray(js)
  {
    hide Decode, KeyOf, Indent;
    assert Values(DenoteEntries(PrettyItems(js, depth))) == js;
  }

  lemma PropsDenote(ps: seq<Property>, depth: nat)
    requires forall k :: 0 <= k < |ps| ==> Denote(Pretty(ps[k].value, depth + 1)) == ps[k].value
    requires forall a, b :: 0 <= a < b < |ps| ==> ps[a].key != ps[b].key
    ensures Denote(Pretty(JObject(ps), depth)) == JObject(ps)
  {
    hide Decode, QuoteBody, KeyOf, Indent, PrettyProps, DenoteEntries, Assign;
    PropsAre(ps, depth);
    C.AssignNew([], ps);
    assert [] + ps == ps;
    GroupDenotes(PrettyProps(ps, depth));
    PrettyOfObject(ps, depth);
  }

  lemma PrettyOfObject(ps: seq<Property>, depth: nat)
    ensures Pretty(JObject(ps), depth) == Group(true, PrettyProps(ps, depth), NoComma([]))
  {
    hide PrettyProps;
  }

  lemma GroupDenotes(es: seq<Entry>)
    ensures Denote(Group(true, es, NoComma([]))) == JObject(Assign([], DenoteEntries(es)))
  {
    hide DenoteEntries, Assign;
  }

  lemma PropsAre(ps: seq<Property>, depth: nat)
    requires forall k :: 0 <= k < |ps| ==> Denote(Pretty(ps[k].value, depth + 1)) == ps[k].value
    ensures DenoteEntries(PrettyProps(ps, depth)) == ps
  {
    hide Decode, QuoteBody, KeyOf, Indent, Denote, Pretty;
    var ds := DenoteEntries(PrettyProps(ps, depth));
    forall k | 0 <= k < |ps| ensures ds[k] == ps[k] {
      KeyRoundTrip(ps[k].key, [SPACE]);
    }
  }

  lemma KeyRoundTrip(key: Text, gap: Text)
    ensures KeyOf(Label(QuoteBody(key), [], gap)) == key
  {
    hide Decode, QuoteBody;
    QuoteRoundTrip(key);
  }

  // ---------------------------------------------------------------------------
  // Rendering and drift
  // ---------------------------------------------------------------------------

  function PadEnd(n: Text): Text {
    n + Spaces(if |n| < 19 then 19 - |n| else 0)
  }

  function Line(n: Text, value: Text): Text {
    PadEnd(n) + [SPACE, EQUALS, SPACE] + value
  }

  /** The names and values derived from the configuration, and the operator's variables. */
  datatype Vars = Vars(
    strings: seq<(Text, Text)>, json: seq<(Text, Json)>, defaults: map<Text, Text>, operators: seq<Text>)

  function StringLines(ss: seq<(Text, Text)>): seq<Text> {
    if ss == [] then [] else [Line(ss[0].0, Quote(ss[0].1))] + StringLines(ss[1..])
  }

  /** What is written for an operator's variable: its old assignment, or its default if it has one. */
  function OperatorLine(existing: Text, n: Text, defaults: map<Text, Text>): Option<Text> {
    match HclAssignment(existing, n)
    case Some(a) => Some(a)
    case None => if n in defaults then Some(Line(n, Quote(defaults[n]))) else None
  }

  function OperatorLines(existing: Text, ns: seq<Text>, defaults: map<Text, Text>): seq<Text> {
    if ns == [] then []
    else (match OperatorLine(existing, ns[0], defaults) case Some(l) => [l] case None => [])
         + OperatorLines(existing, ns[1..], defaults)
  }

  function JsonBlock(n: Text, j: Json): Text {
    Line(n, Print(Pretty(j, 0)))
  }

  function JsonBlocks(js: seq<(Text, Json)>): seq<Text> {
    if js == [] then [] else [JsonBlock(js[0].0, js[0].1)] + JsonBlocks(js[1..])
  }

  function Blocks(v: Vars, existing: Text): seq<Text> {
    StringLines(v.strings) + OperatorLines(existing, v.operators, v.defaults) + JsonBlocks(v.json)
  }

  /** terraformVars. */
  function Rendered(v: Vars, existing: Text): Text {
    JoinLines(Blocks(v, existing))
  }

  function ToValue(j: Json): C.Value
    decreases j, 1
  {
    match j
    case JScalar(t) => C.Plain(t)
    case JString(t) => C.Words(t)
    case JArray(js) => C.List(ToValues(js))
    case JObject(ps) => C.Record(ToMembers(ps))
  }

  function ToValues(js: seq<Json>): seq<C.Value>
    decreases js, 0
  {
    if js == [] then [] else [ToValue(js[0])] + ToValues(js[1..])
  }

  function ToMembers(ps: seq<Property>): seq<C.Member>
    decreases ps, 0
  {
    if ps == [] then [] else [C.Member(ps[0].key, ToValue(ps[0].value))] + ToMembers(ps[1..])
  }

  /** The value that the file gives a JSON variable. */
  function FileJson(s: Text, n: Text): Option<Json> {
    match HclAssignment(s, n)
    case None => None
    case Some(a) =>
      var e := IndexOf(a, EQUALS, 0);
      JsonParse(Trim(if e < |a| then a[e + 1..] else a))
  }

  predicate JsonDrifts(s: Text, n: Text, j: Json) {
    match FileJson(s, n)
    case None => true
    case Some(parsed) => C.CanonicalJson(ToValue(parsed)) != C.CanonicalJson(ToValue(j))
  }

  function StringDrift(s: Text, ss: seq<(Text, Text)>): Option<seq<Text>> {
    if ss == [] then Some([])
    else match HclString(s, ss[0].0)
         case BadString => None
         case other =>
           match StringDrift(s, ss[1..])
           case None => None
           case Some(rest) => Some((if other == Value(ss[0].1) then [] else [ss[0].0]) + rest)
  }

  function JsonDrift(s: Text, js: seq<(Text, Json)>): seq<Text> {
    if js == [] then [] else (if JsonDrifts(s, js[0].0, js[0].1) then [js[0].0] else []) + JsonDrift(s, js[1..])
  }

  /** terraformVarsDrift; None stands for the error about an invalid string. */
  function Drift(v: Vars, existing: Text): Option<seq<Text>> {
    match StringDrift(existing, v.strings)
    case None => None
    case Some(names) => Some(names + JsonDrift(existing, v.json))
  }

  // ---------------------------------------------------------------------------
  // The loops
  // ---------------------------------------------------------------------------

  method TerraformVars(v: Vars, existing: Text) returns (r: Text)
    ensures r == Rendered(v, existing)
  {
    hide HclAssignment, Quote, Line, JsonBlock;
    var lines: seq<Text> := [];
    for i := 0 to |v.strings|
      invariant lines + StringLines(v.strings[i..]) == StringLines(v.strings)
    {
      assert v.strings[i..][0] == v.strings[i] && v.strings[i..][1..] == v.strings[i + 1..];
      lines := lines + [Line(v.strings[i].0, Quote(v.strings[i].1))];
    }
    assert lines == StringLines(v.strings);
    lines := PushOperators(v, existing, lines);
    ghost var before := lines;
    for i := 0 to |v.json|
      invariant lines + JsonBlocks(v.json[i..]) == before + JsonBlocks(v.json)
    {
      assert v.json[i..][0] == v.json[i] && v.json[i..][1..] == v.json[i + 1..];
      lines := lines + [JsonBlock(v.json[i].0, v.json[i].1)];
    }
    assert lines == Blocks(v, existing);
    return JoinLines(lines);
  }

  method PushOperators(v: Vars, existing: Text, before: seq<Text>) returns (lines: seq<Text>)
    ensures lines == before + OperatorLines(existing, v.operators, v.defaults)
  {
    hide HclAssignment, Quote, Line;
    lines := before;
    for i := 0 to |v.operators|
      invariant lines + OperatorLines(existing, v.operators[i..], v.defaults) ==
                before + OperatorLines(existing, v.operators, v.defaults)
    {
      assert v.operators[i..][0] == v.operators[i] && v.operators[i..][1..] == v.operators[i + 1..];
      var name := v.operators[i];
      var preserved := FindHclAssignment(existing, name);
      match preserved {
        case Some(a) => lines := lines + [a];
        case None =>
          if name in v.defaults {
            lines := lines + [Line(name, Quote(v.defaults[name]))];
          }
      }
    }
  }

  function Behind(drift: seq<Text>, r: Option<seq<Text>>): Option<seq<Text>> {
    match r case None => None case Some(rest) => Some(drift + rest)
  }

  lemma StringDriftStep(s: Text, ss: seq<(Text, Text)>, i: nat, drift: seq<Text>)
    requires i <= |ss|
    ensures i < |ss| && HclString(s, ss[i].0).BadString? ==> Behind(drift, StringDrift(s, ss[i..])) == None
    ensures i < |ss| && !HclString(s, ss[i].0).BadString? ==>
              var more := if HclString(s, ss[i].0) == Value(ss[i].1) then drift else drift + [ss[i].0];
              Behind(drift, StringDrift(s, ss[i..])) == Behind(more, StringDrift(s, ss[i + 1..]))
    ensures i == |ss| ==> Behind(drift, StringDrift(s, ss[i..])) == Some(drift)
  {
    hide HclString;
    if i < |ss| {
      assert ss[i..][0] == ss[i] && ss[i..][1..] == ss[i + 1..];
      match StringDrift(s, ss[i + 1..]) {
        case None =>
        case Some(rest) =>
          assert [] + rest == rest && drift + ([ss[i].0] + rest) == drift + [ss[i].0] + rest;
      }
    } else {
      assert drift + [] == drift;
    }
  }

  lemma BehindNothing(r: Option<seq<Text>>)
    ensures Behind([], r) == r
  {
    if r.Some? {
      assert [] + r.value == r.value;
    }
  }

  method TerraformVarsDrift(v: Vars, existing: Text) returns (r: Option<seq<Text>>)
    ensures r == Drift(v, existing)
  {
    hide HclString, JsonDrifts, StringDrift, Behind;
    var drift: seq<Text> := [];
    BehindNothing(StringDrift(existing, v.strings));
    assert v.strings[0..] == v.strings;
    for i := 0 to |v.strings|
      invariant StringDrift(existing, v.strings) == Behind(drift, StringDrift(existing, v.strings[i..]))
    {
      StringDriftStep(existing, v.strings, i, drift);
      var value := HclString(existing, v.strings[i].0);
      if value.BadString? {
        return None;
      }
      if value != Value(v.strings[i].1) {
        drift := drift + [v.strings[i].0];
      }
    }
    StringDriftStep(existing, v.strings, |v.strings|, drift);
    ghost var before := drift;
    assert StringDrift(existing, v.strings) == Some(before);
    for i := 0 to |v.json|
      invariant drift + JsonDrift(existing, v.json[i..]) == before + JsonDrift(existing, v.json)
    {
      assert v.json[i..][0] == v.json[i] && v.json[i..][1..] == v.json[i + 1..];
      if JsonDrifts(existing, v.json[i].0, v.json[i].1) {
        drift := drift + [v.json[i].0];
      }
    }
    assert v.json[|v.json|..] == [] && drift + [] == drift;
    return Some(drift);
  }
}
