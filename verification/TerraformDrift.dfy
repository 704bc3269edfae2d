// What the drift check reports: exactly the variables that differ.

module TerraformDrift {
  import opened Results
  import opened Texts
  import opened TextLines
  import opened JsonText
  import opened HclText
  import opened TerraformVars
  import C = CanonicalJson

  // ---------------------------------------------------------------------------
  // Parsed values
  // ---------------------------------------------------------------------------

  ghost predicate AreProperties(ps: seq<Property>) {
    forall k :: 0 <= k < |ps| ==> IsJson(ps[k].value)
  }

  ghost predicate KeysOnce(ps: seq<Property>) {
    forall a, b :: 0 <= a < b < |ps| ==> ps[a].key != ps[b].key
  }

  lemma {:induction false} PutKeepsOnce(ps: seq<Property>, p: Property)
    requires KeysOnce(ps) && AreProperties(ps) && IsJson(p.value)
    ensures KeysOnce(Put(ps, p)) && AreProperties(Put(ps, p))
    ensures forall x :: x in Put(ps, p) ==> x == p || x in ps
  {
    hide IsJson;
    if ps != [] && ps[0].key != p.key {
      PutKeepsOnce(ps[1..], p);
      var r := Put(ps[1..], p);
      forall k | 0 <= k < |r| ensures r[k].key != ps[0].key {
        assert r[k] in r;
      }
    }
  }

  lemma {:induction false} AssignKeepsOnce(acc: seq<Property>, ps: seq<Property>)
    requires KeysOnce(acc) && AreProperties(acc) && AreProperties(ps)
    ensures KeysOnce(Assign(acc, ps)) && AreProperties(Assign(acc, ps))
    decreases |ps|
  {
    hide IsJson, Put, KeysOnce;
    if ps != [] {
      PutKeepsOnce(acc, ps[0]);
      AssignKeepsOnce(Put(acc, ps[0]), ps[1..]);
    }
  }

  lemma BuildsJson(obj: bool, ps: seq<Property>)
    requires AreProperties(ps)
    ensures IsJson(Build(obj, ps))
  {
    hide Assign;
    AssignKeepsOnce([], ps);
  }

  /** Whatever is parsed has JSON's tokens, and every key once in each object. */
  lemma {:induction false} ParsedIsJson(s: Text, i: nat)
    ensures ParseValue(s, i).Done? ==> IsJson(ParseValue(s, i).value)
    decreases |s| - i, 0
  {
    hide IsScalar, Decode, StringEndAt, ParseGroup;
    if i < |s| && (s[i] == LBRACE || s[i] == LBRACKET) {
      GroupIsJson(s[i] == LBRACE, s, i + 1);
    }
  }

  lemma {:induction false} GroupIsJson(obj: bool, s: Text, i: nat)
    ensures ParseGroup(obj, s, i).Done? ==> IsJson(ParseGroup(obj, s, i).value)
    decreases |s| - i, 3
  {
    hide IsJson, ParseEntries, SkipJsonSpace, Build;
    EntriesAreJson(obj, s, i);
    BuildsJson(obj, []);
    if ParseEntries(obj, s, i).Done? {
      BuildsJson(obj, ParseEntries(obj, s, i).value);
    }
  }

  lemma {:induction false} EntriesAreJson(obj: bool, s: Text, i: nat)
    ensures ParseEntries(obj, s, i).Done? ==> AreProperties(ParseEntries(obj, s, i).value)
    decreases |s| - i, 2
  {
    hide IsJson, ParseEntry;
    EntryIsJson(obj, s, i);
    var r := ParseEntry(obj, s, i);
    if r.Done? && r.next < |s| {
      EntriesAreJson(obj, s, r.next + 1);
    }
  }

  lemma {:induction false} EntryIsJson(obj: bool, s: Text, i: nat)
    ensures ParseEntry(obj, s, i).Done? ==> IsJson(ParseEntry(obj, s, i).value.value)
    decreases |s| - i, 1
  {
    hide IsJson, ParseValue, ParseLabel, SkipJsonSpace;
    var r := ParseLabel(obj, s, SkipJsonSpace(s, i));
    if r.Done? {
      var j := SkipJsonSpace(s, r.next);
      if j < |s| {
        ParsedIsJson(s, j);
      } else {
        NothingParsed(s, j);
      }
    }
  }

  lemma NothingParsed(s: Text, i: nat)
    requires i >= |s|
    ensures ParseValue(s, i).Fail?
  {
  }

  lemma {:induction false} ValuesAre(js: seq<Json>)
    ensures |ToValues(js)| == |js| && forall k :: 0 <= k < |js| ==> ToValues(js)[k] == ToValue(js[k])
  {
    hide ToValue;
    if js != [] {
      ValuesAre(js[1..]);
    }
  }

  lemma {:induction false} MembersAre(ps: seq<Property>)
    ensures |ToMembers(ps)| == |ps|
    ensures forall k :: 0 <= k < |ps| ==> ToMembers(ps)[k] == C.Member(ps[k].key, ToValue(ps[k].value))
  {
    hide ToValue;
    if ps != [] {
      MembersAre(ps[1..]);
    }
  }

  lemma {:induction false} JsonIsValue(j: Json)
    requires IsJson(j)
    ensures C.IsValue(ToValue(j)) && !ToValue(j).Undefined?
    decreases j
  {
    hide IsScalar;
    match j {
      case JArray(js) =>
        ValuesAre(js);
        forall k | 0 <= k < |js| ensures C.IsValue(ToValue(js[k])) {
          JsonIsValue(js[k]);
        }
      case JObject(ps) =>
        MembersAre(ps);
        forall k | 0 <= k < |ps| ensures C.IsValue(ToValue(ps[k].value)) {
          JsonIsValue(ps[k].value);
        }
      case _ =>
    }
  }

  // ---------------------------------------------------------------------------
  // What is reported
  // ---------------------------------------------------------------------------

  predicate StringDiffers(s: Text, p: (Text, Text)) {
    HclString(s, p.0) != Value(p.1)
  }

  /** The file holds JSON that is the value up to the order of keys. */
  ghost predicate HoldsJson(s: Text, p: (Text, Json)) {
    FileJson(s, p.0).Some? && C.Same(ToValue(FileJson(s, p.0).value), ToValue(p.1))
  }

  /** The comparison of canonical texts tells exactly these apart. */
  lemma JsonDriftIsDifference(s: Text, p: (Text, Json))
    requires IsJson(p.1)
    ensures JsonDrifts(s, p.0, p.1) <==> !HoldsJson(s, p)
  {
    hide HclAssignment, JsonParse, IsJson, ToValue, C.CanonicalJson, C.Same, C.IsValue, Trim;
    if FileJson(s, p.0).Some? {
      FileIsJson(s, p.0);
      JsonIsValue(FileJson(s, p.0).value);
      JsonIsValue(p.1);
      C.CanonicalIsUnambiguous(ToValue(FileJson(s, p.0).value), ToValue(p.1));
    }
  }

  lemma FileIsJson(s: Text, n: Text)
    requires FileJson(s, n).Some?
    ensures IsJson(FileJson(s, n).value)
  {
    hide HclAssignment, IsJson, Trim, ParseValue, SkipJsonSpace;
    var a := HclAssignment(s, n).value;
    var e := IndexOf(a, EQUALS, 0);
    var t := Trim(if e < |a| then a[e + 1..] else a);
    ParsedIsJson(t, SkipJsonSpace(t, 0));
  }

  lemma {:induction false} StringsReported(s: Text, ss: seq<(Text, Text)>, m: Text)
    ensures StringDrift(s, ss) == None <==> exists k :: 0 <= k < |ss| && HclString(s, ss[k].0).BadString?
    ensures StringDrift(s, ss).Some? ==>
              (m in StringDrift(s, ss).value <==> exists k :: 0 <= k < |ss| && ss[k].0 == m && StringDiffers(s, ss[k]))
  {
    hide HclString;
    if ss != [] {
      StringsReported(s, ss[1..], m);
      assert ss == [ss[0]] + ss[1..];
    }
  }

  lemma {:induction false} JsonReported(s: Text, js: seq<(Text, Json)>, m: Text)
    requires forall k :: 0 <= k < |js| ==> IsJson(js[k].1)
    ensures m in JsonDrift(s, js) <==> exists k :: 0 <= k < |js| && js[k].0 == m && !HoldsJson(s, js[k])
  {
    hide JsonDrifts, HoldsJson, IsJson;
    if js != [] {
      JsonDriftIsDifference(s, js[0]);
      JsonReported(s, js[1..], m);
      assert js == [js[0]] + js[1..];
    }
  }

  /**
   * The drift check fails exactly on a string that is no JSON literal; otherwise it reports exactly
   * the strings that the file does not hold and the JSON variables whose value in the file is not
   * the same up to the order of keys.
   */
  lemma DriftIsDifference(v: Vars, s: Text, m: Text)
    requires forall k :: 0 <= k < |v.json| ==> IsJson(v.json[k].1)
    ensures Drift(v, s) == None <==>
            exists k :: 0 <= k < |v.strings| && HclString(s, v.strings[k].0).BadString?
    ensures Drift(v, s).Some? ==>
              (m in Drift(v, s).value <==>
               || (exists k :: 0 <= k < |v.strings| && v.strings[k].0 == m && StringDiffers(s, v.strings[k]))
               || exists k :: 0 <= k < |v.json| && v.json[k].0 == m && !HoldsJson(s, v.json[k]))
  {
    hide HclString, StringDrift, JsonDrift, HoldsJson, StringDiffers, IsJson;
    StringsReported(s, v.strings, m);
    JsonReported(s, v.json, m);
  }
}
